/** Strings as Go sees them: comparison, search and decimal numerals. */
module Text {

  /** Go's `<` on strings: the first differing element decides, a proper prefix is smaller. */
  predicate Less(a: string, b: string) {
    if b == "" then false
    else if a == "" then true
    else if a[0] != b[0] then a[0] < b[0]
    else Less(a[1..], b[1..])
  }

  lemma {:induction false} LessTotal(a: string, b: string)
    ensures a == b || Less(a, b) || Less(b, a)
  {
    if a != "" && b != "" && a[0] == b[0] {
      LessTotal(a[1..], b[1..]);
      if a[1..] == b[1..] {
        assert a == [a[0]] + a[1..] && b == [b[0]] + b[1..];
      }
    }
  }

  lemma {:induction false} LessAsymmetric(a: string, b: string)
    requires Less(a, b)
    ensures !Less(b, a) && a != b
  {
    if a != "" && a[0] == b[0] {
      LessAsymmetric(a[1..], b[1..]);
    }
  }

  lemma {:induction false} LessTransitive(a: string, b: string, c: string)
    requires Less(a, b) && Less(b, c)
    ensures Less(a, c)
  {
    if a != "" && a[0] == b[0] == c[0] {
      LessTransitive(a[1..], b[1..], c[1..]);
    }
  }

  /** At the first place where they differ, `a` ends or has the lesser character. */
  predicate Precedes(a: string, b: string) {
    exists n {:trigger a[..n], b[..n]} | 0 <= n <= |a| && n < |b| :: a[..n] == b[..n] && (n == |a| || a[n] < b[n])
  }

  lemma {:induction false} LessIsPrecedes(a: string, b: string)
    ensures Less(a, b) <==> Precedes(a, b)
  {
    if a != "" && b != "" && a[0] == b[0] {
      LessIsPrecedes(a[1..], b[1..]);
      if Precedes(a[1..], b[1..]) {
        var n :| 0 <= n <= |a[1..]| && n < |b[1..]| && a[1..][..n] == b[1..][..n] && (n == |a[1..]| || a[1..][n] < b[1..][n]);
        assert a[..n + 1] == [a[0]] + a[1..][..n] && b[..n + 1] == [b[0]] + b[1..][..n];
      }
      if Precedes(a, b) {
        var n :| 0 <= n <= |a| && n < |b| && a[..n] == b[..n] && (n == |a| || a[n] < b[n]);
        assert n > 0;
        assert a[1..][..n - 1] == a[..n][1..] && b[1..][..n - 1] == b[..n][1..];
      }
    } else if b != "" && (a == "" || a[0] < b[0]) {
      assert a[..0] == b[..0];
    }
  }

  const MAX_INT := 0x7FFF_FFFF_FFFF_FFFF

  /** The number of leading characters that are not in `stop`. */
  function Span(s: string, stop: set<char>): (n: nat)
    ensures n <= |s|
    ensures forall k | 0 <= k < n :: s[k] !in stop
    ensures n < |s| ==> s[n] in stop
  {
    if s == "" || s[0] in stop then 0 else 1 + Span(s[1..], stop)
  }

  lemma {:induction false} SpanOf(s: string, stop: set<char>, n: nat)
    requires n <= |s| && (forall k | 0 <= k < n :: s[k] !in stop) && (n < |s| ==> s[n] in stop)
    ensures Span(s, stop) == n
  {
    if n > 0 {
      SpanOf(s[1..], stop, n - 1);
    }
  }

  lemma SpanOfPrefix(a: string, b: string, stop: set<char>)
    requires (forall k | 0 <= k < |a| :: a[k] !in stop) && (b == "" || b[0] in stop)
    ensures Span(a + b, stop) == |a| && (a + b)[..|a|] == a && (a + b)[|a|..] == b
  {
    SpanOf(a + b, stop, |a|);
  }

  predicate IsDigit(c: char) {
    '0' <= c <= '9'
  }

  predicate AllDigits(s: string) {
    forall k | 0 <= k < |s| :: IsDigit(s[k])
  }

  function DigitOf(c: char): nat
    requires IsDigit(c)
  {
    c as int - '0' as int
  }

  function DigitValue(s: string): nat
    requires AllDigits(s)
  {
    if s == "" then 0
    else 10 * DigitValue(s[..|s| - 1]) + DigitOf(s[|s| - 1])
  }

  /** `strconv.Itoa` on a non-negative number. */
  function Itoa(n: nat): (s: string)
    ensures s != "" && AllDigits(s)
  {
    var last := ['0' + (n % 10) as char];
    if n < 10 then last else Itoa(n / 10) + last
  }

  /** `strconv.Atoi`: an optional sign, decimal digits, and a value that fits 64 bits. */
  function Atoi(s: string): (r: Result<int>) {
    var signed := s != "" && (s[0] == '+' || s[0] == '-');
    var digits := if signed then s[1..] else s;
    if digits == "" || !AllDigits(digits) then Err
    else
      var magnitude: int := DigitValue(digits);
      var n := if signed && s[0] == '-' then -magnitude else magnitude;
      if -MAX_INT - 1 <= n <= MAX_INT then Ok(n) else Err
  }

  datatype Result<+T> = Ok(value: T) | Err

  /** What was found first, before what is found in the rest. */
  function Prepend<T>(first: seq<T>, r: Result<seq<T>>): Result<seq<T>> {
    match r case Ok(more) => Ok(first + more) case Err => Err
  }

  lemma PrependNothing<T>(r: Result<seq<T>>)
    ensures Prepend([], r) == r
  {
    match r
    case Ok(more) => assert [] + more == more;
    case Err =>
  }

  lemma PrependTwice<T>(a: seq<T>, b: seq<T>, r: Result<seq<T>>)
    ensures Prepend(a, Prepend(b, r)) == Prepend(a + b, r)
  {
    match r
    case Ok(more) => assert a + (b + more) == a + b + more;
    case Err =>
  }

  lemma {:induction false} DigitValueItoa(n: nat)
    ensures DigitValue(Itoa(n)) == n
  {
    if n >= 10 {
      DigitValueItoa(n / 10);
      assert Itoa(n)[..|Itoa(n)| - 1] == Itoa(n / 10);
    }
  }

  /** Numerals have no zeros before them, so different numbers have different numerals. */
  lemma {:induction false} ItoaPlain(n: nat)
    ensures n > 0 ==> Itoa(n)[0] != '0'
    ensures Itoa(0) == "0"
  {
    if n >= 10 {
      ItoaPlain(n / 10);
    }
  }

  lemma AtoiItoa(n: nat)
    requires n <= MAX_INT
    ensures Atoi(Itoa(n)) == Ok(n)
  {
    DigitValueItoa(n);
    assert IsDigit(Itoa(n)[0]);
  }

  /** A sign may stand before the digits, and a number is in range if it fits 64 bits. */
  lemma AtoiSigned(n: nat)
    ensures var m: int := n;
            && Atoi("-" + Itoa(n)) == (if m <= 0x8000_0000_0000_0000 then Ok(-m) else Err)
            && Atoi("+" + Itoa(n)) == (if m <= 0x7FFF_FFFF_FFFF_FFFF then Ok(m) else Err)
  {
    DigitValueItoa(n);
    var digits := Itoa(n);
    hide Itoa, DigitValue, AllDigits;
    var minus, plus := "-" + digits, "+" + digits;
    assert minus[1..] == digits && plus[1..] == digits && minus[0] == '-' && plus[0] == '+';
  }

  /** Zeros before the digits do not matter. */
  lemma {:induction false} AtoiZeros(digits: string)
    requires AllDigits(digits) && digits != ""
    ensures AllDigits("0" + digits) && Atoi("0" + digits) == Atoi(digits)
  {
    ZeroBefore(digits);
    assert IsDigit(digits[0]);
  }

  lemma {:induction false} ZeroBefore(digits: string)
    requires AllDigits(digits)
    ensures AllDigits("0" + digits) && DigitValue("0" + digits) == DigitValue(digits)
  {
    if digits != "" {
      var n := |digits| - 1;
      ZeroBefore(digits[..n]);
      assert ("0" + digits)[..n + 1] == "0" + digits[..n];
    } else {
      assert "0" + "" == "0" && "0"[..0] == "";
    }
  }

  /** Nothing but a sign and digits is a number, and no digits are none. */
  lemma AtoiRefuses(s: string, k: nat)
    requires k < |s| && !IsDigit(s[k]) && (k > 0 || s[0] !in {'+', '-'})
    ensures Atoi(s) == Err && Atoi("") == Err && Atoi("+") == Err && Atoi("-") == Err
  {
    if s[0] == '+' || s[0] == '-' {
      assert s[1..][k - 1] == s[k];
    }
  }

  lemma AtoiTooLarge(n: nat)
    requires n > MAX_INT
    ensures Atoi(Itoa(n)) == Err
  {
    DigitValueItoa(n);
    assert IsDigit(Itoa(n)[0]);
  }
}
