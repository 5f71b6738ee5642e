/** Expanding a collection: the product of its forEach dimensions in `kro/runtime/collection.go`. */
module Expansion {
  import opened Trees

  datatype Dimension = Dimension(name: string, values: seq<Json>)

  type Binding = map<string, Json>

  datatype Expanded = NoItems | TooLarge | Items(items: seq<Binding>)

  function Lengths(dims: seq<Dimension>): (r: seq<nat>)
    ensures |r| == |dims| && forall i | 0 <= i < |dims| :: r[i] == |dims[i].values|
  {
    seq(|dims|, i requires 0 <= i < |dims| => |dims[i].values|)
  }

  function Product(lens: seq<nat>): nat {
    if lens == [] then 1 else lens[0] * Product(lens[1..])
  }

  predicate NoneEmpty(lens: seq<nat>) {
    forall i | 0 <= i < |lens| :: lens[i] > 0
  }

  /** One index for each dimension. */
  predicate InRange(lens: seq<nat>, indices: seq<nat>) {
    |indices| == |lens| && forall i | 0 <= i < |lens| :: indices[i] < lens[i]
  }

  /** The indices read as a number in mixed radix, the last one changing fastest. */
  function Rank(lens: seq<nat>, indices: seq<nat>): nat
    requires |indices| == |lens|
  {
    if lens == [] then 0 else indices[0] * Product(lens[1..]) + Rank(lens[1..], indices[1..])
  }

  /** The digits of `k` in that radix. */
  function Digits(lens: seq<nat>, k: nat): (r: seq<nat>)
    requires NoneEmpty(lens)
    ensures |r| == |lens|
  {
    if lens == [] then []
    else
      ProductPositive(lens[1..]);
      [k / Product(lens[1..])] + Digits(lens[1..], k % Product(lens[1..]))
  }

  lemma {:induction false} ProductPositive(lens: seq<nat>)
    ensures NoneEmpty(lens) <==> Product(lens) > 0
  {
    if lens != [] {
      ProductPositive(lens[1..]);
      if NoneEmpty(lens) {
        assert lens[0] > 0 && NoneEmpty(lens[1..]);
        PositiveTimes(lens[0], Product(lens[1..]));
      } else if lens[0] > 0 {
        var i :| 0 <= i < |lens| && lens[i] == 0;
        assert lens[1..][i - 1] == 0;
      }
    }
  }

  lemma PositiveTimes(a: nat, b: nat)
    requires a > 0 && b > 0
    ensures a * b >= b && a * b >= a
  {
  }

  lemma {:induction false} RankInRange(lens: seq<nat>, indices: seq<nat>)
    requires InRange(lens, indices)
    ensures Rank(lens, indices) < Product(lens)
  {
    if lens != [] {
      RankInRange(lens[1..], indices[1..]);
      Stride(indices[0], lens[0], Product(lens[1..]));
    }
  }

  lemma Stride(i: nat, n: nat, p: nat)
    requires i < n
    ensures i * p + p <= n * p
  {
    var k: nat := n - i - 1;
    assert n * p == (i + 1 + k) * p == i * p + p + k * p;
  }

  /** Each index vector in range stands at exactly one place of the enumeration, and each place has one. */
  lemma {:induction false} DigitsOfRank(lens: seq<nat>, indices: seq<nat>)
    requires InRange(lens, indices) && NoneEmpty(lens)
    ensures Digits(lens, Rank(lens, indices)) == indices
  {
    if lens != [] {
      var p, rest := Product(lens[1..]), Rank(lens[1..], indices[1..]);
      RankInRange(lens[1..], indices[1..]);
      QuotientRemainder(indices[0], p, rest);
      assert NoneEmpty(lens[1..]);
      DigitsOfRank(lens[1..], indices[1..]);
    }
  }

  lemma QuotientRemainder(q: nat, p: nat, r: nat)
    requires r < p
    ensures (q * p + r) / p == q && (q * p + r) % p == r
  {
    var x := q * p + r;
    assert x == (x / p) * p + x % p;
    if x / p > q {
      Stride(q, x / p, p);
    } else if x / p < q {
      Stride(x / p, q, p);
    }
  }

  lemma QuotientBound(k: nat, n: nat, p: nat)
    requires p > 0
    ensures k < n * p ==> k / p < n
  {
    assert k == (k / p) * p + k % p;
    if n <= k / p {
      assert (k / p - n) * p >= 0;
    }
  }

  lemma {:induction false} RankOfDigits(lens: seq<nat>, k: nat)
    requires NoneEmpty(lens) && k < Product(lens)
    ensures InRange(lens, Digits(lens, k)) && Rank(lens, Digits(lens, k)) == k
  {
    if lens != [] {
      var p := Product(lens[1..]);
      ProductPositive(lens[1..]);
      assert NoneEmpty(lens[1..]);
      Divide(k, lens[0], p);
      RankOfDigits(lens[1..], k % p);
      var d := Digits(lens, k);
      assert d[1..] == Digits(lens[1..], k % p) && d[0] == k / p;
      assert InRange(lens, d);
    }
  }

  lemma Divide(k: nat, n: nat, p: nat)
    requires p > 0 && k < n * p
    ensures 0 <= k / p < n && 0 <= k % p < p && k == (k / p) * p + k % p
  {
    QuotientBound(k, n, p);
  }

  // ---- The odometer. ----

  /** The next index vector and whether the odometer has turned over. */
  function Turned(lens: seq<nat>, indices: seq<nat>): (seq<nat>, bool)
    requires |indices| == |lens|
  {
    if lens == [] then ([], true)
    else
      var (rest, carry) := Turned(lens[1..], indices[1..]);
      if !carry then ([indices[0]] + rest, false)
      else if indices[0] + 1 < lens[0] then ([indices[0] + 1] + rest, false)
      else ([0] + rest, true)
  }

  /** Turning adds one, or turns over from the last vector to all zeros. */
  lemma {:induction false} TurnedRank(lens: seq<nat>, indices: seq<nat>)
    requires InRange(lens, indices)
    ensures var (next, carry) := Turned(lens, indices);
            && InRange(lens, next)
            && (!carry ==> Rank(lens, next) == Rank(lens, indices) + 1)
            && (carry ==> Rank(lens, next) == 0 && Rank(lens, indices) == Product(lens) - 1)
  {
    if lens != [] {
      TurnedRank(lens[1..], indices[1..]);
      var (rest, carry) := Turned(lens[1..], indices[1..]);
      var (next, _) := Turned(lens, indices);
      var p := Product(lens[1..]);
      assert next[1..] == rest;
      if carry {
        assert (indices[0] + 1) * p == indices[0] * p + p;
        if indices[0] + 1 >= lens[0] {
          assert indices[0] + 1 == lens[0] && Product(lens) == (indices[0] + 1) * p;
          assert next[0] * p == 0;
        }
      }
    }
  }

  lemma {:induction false} TurnedSplit(lens: seq<nat>, indices: seq<nat>, i: nat)
    requires |indices| == |lens| && i <= |lens|
    requires !Turned(lens[i..], indices[i..]).1
    ensures Turned(lens, indices) == (indices[..i] + Turned(lens[i..], indices[i..]).0, false)
  {
    if i == 0 {
      assert lens[0..] == lens && indices[0..] == indices;
      assert indices[..0] + Turned(lens, indices).0 == Turned(lens, indices).0;
    } else {
      assert lens[1..][i - 1..] == lens[i..] && indices[1..][i - 1..] == indices[i..];
      TurnedSplit(lens[1..], indices[1..], i - 1);
      assert [indices[0]] + (indices[1..][..i - 1] + Turned(lens[i..], indices[i..]).0)
          == indices[..i] + Turned(lens[i..], indices[i..]).0;
    }
  }

  /** The carry loop. */
  method Turn(lens: seq<nat>, indices: seq<nat>) returns (next: seq<nat>, carry: bool)
    requires |indices| == |lens|
    ensures (next, carry) == Turned(lens, indices)
  {
    next, carry := indices, true;
    var i := |indices|;
    assert next[i..] == [] && Turned(lens[i..], indices[i..]) == ([], true);
    while i > 0 && carry
      invariant 0 <= i <= |indices| && |next| == |indices|
      invariant next[..i] == indices[..i]
      invariant (next[i..], carry) == Turned(lens[i..], indices[i..])
      decreases i
    {
      i := i - 1;
      assert lens[i..][1..] == lens[i + 1..] && indices[i..][1..] == indices[i + 1..];
      ghost var rest := next[i + 1..];
      var bumped := next[i] + 1;
      if bumped < lens[i] {
        next := next[i := bumped];
        carry := false;
      } else {
        next := next[i := 0];
      }
      assert next[i..] == [next[i]] + rest;
    }
    if !carry {
      TurnedSplit(lens, indices, i);
      assert next == indices[..i] + next[i..];
    } else {
      assert lens[0..] == lens && indices[0..] == indices && next[0..] == next;
    }
  }

  // ---- Combinations. ----

  /** Binds each dimension's name to its value at the given index. */
  function Bound(dims: seq<Dimension>, indices: seq<nat>): Binding
    requires InRange(Lengths(dims), indices)
  {
    if dims == [] then map[]
    else
      var n := |dims| - 1;
      assert Lengths(dims)[n] == |dims[n].values|;
      BoundPrefix(dims, indices, n);
      Bound(dims[..n], indices[..n])[dims[n].name := dims[n].values[indices[n]]]
  }

  lemma BoundPrefix(dims: seq<Dimension>, indices: seq<nat>, n: nat)
    requires InRange(Lengths(dims), indices) && n <= |dims|
    ensures InRange(Lengths(dims[..n]), indices[..n])
  {
    forall i | 0 <= i < n ensures indices[..n][i] < Lengths(dims[..n])[i] {
      assert indices[i] < Lengths(dims)[i];
    }
  }

  predicate DistinctNames(dims: seq<Dimension>) {
    forall i, j | 0 <= i < j < |dims| :: dims[i].name != dims[j].name
  }

  /** Nothing but the names of the dimensions is bound. */
  lemma {:induction false} BoundNames(dims: seq<Dimension>, indices: seq<nat>)
    requires InRange(Lengths(dims), indices)
    ensures Bound(dims, indices).Keys == set d | d in dims :: d.name
  {
    if dims != [] {
      var n := |dims| - 1;
      BoundPrefix(dims, indices, n);
      BoundNames(dims[..n], indices[..n]);
      assert dims == dims[..n] + [dims[n]];
    }
  }

  /** With distinct names every dimension is bound to its own value. */
  lemma {:induction false} BoundValues(dims: seq<Dimension>, indices: seq<nat>, i: nat)
    requires InRange(Lengths(dims), indices) && DistinctNames(dims) && i < |dims|
    ensures dims[i].name in Bound(dims, indices)
    ensures indices[i] < |dims[i].values| && Bound(dims, indices)[dims[i].name] == dims[i].values[indices[i]]
    decreases |dims|
  {
    var n := |dims| - 1;
    assert indices[i] < Lengths(dims)[i];
    if i < n {
      BoundPrefix(dims, indices, n);
      BoundValues(dims[..n], indices[..n], i);
    }
  }

  /** What the size check decides, dimension by dimension. */
  datatype Check = Enumerate | Nothing | Over

  function SizeCheck(lens: seq<nat>, total: nat, max: int): Check {
    if lens == [] then Enumerate
    else if lens[0] == 0 then Nothing
    else if total * lens[0] > max then Over
    else SizeCheck(lens[1..], total * lens[0], max)
  }

  /** Without an empty dimension the check fails exactly if the whole product is over the maximum. */
  lemma {:induction false} SizeCheckIff(lens: seq<nat>, total: nat, max: int)
    requires NoneEmpty(lens) && lens != []
    ensures SizeCheck(lens, total, max) == if total * Product(lens) > max then Over else Enumerate
    decreases |lens|
  {
    var rest := lens[1..];
    ProductPositive(rest);
    assert lens[0] > 0 && NoneEmpty(rest);
    assert total * Product(lens) == (total * lens[0]) * Product(rest) by {
      assert Product(lens) == lens[0] * Product(rest);
      Associate(total, lens[0], Product(rest));
    }
    if rest != [] {
      SizeCheckIff(rest, total * lens[0], max);
      AtLeast(total * lens[0], Product(rest));
    } else {
      assert Product(rest) == 1;
    }
  }

  /** In general it fails exactly if the product of the dimensions up to some point, none of them empty, is over it. */
  lemma {:induction false} SizeCheckOverIff(lens: seq<nat>, total: nat, max: int)
    ensures SizeCheck(lens, total, max) == Over <==>
            exists k | 0 < k <= |lens| :: NoneEmpty(lens[..k]) && total * Product(lens[..k]) > max
    decreases |lens|
  {
    if lens != [] && lens[0] > 0 {
      var rest, next := lens[1..], total * lens[0];
      SizeCheckOverIff(rest, next, max);
      forall k | 0 <= k <= |rest|
        ensures NoneEmpty(lens[..k + 1]) <==> NoneEmpty(rest[..k])
        ensures total * Product(lens[..k + 1]) == next * Product(rest[..k])
      {
        OnePrefixMore(lens, total, k);
      }
      if next > max {
        assert NoneEmpty(lens[..1]) && rest[..0] == [] && next * Product(rest[..0]) > max;
      } else if exists k | 0 < k <= |lens| :: NoneEmpty(lens[..k]) && total * Product(lens[..k]) > max {
        var k :| 0 < k <= |lens| && NoneEmpty(lens[..k]) && total * Product(lens[..k]) > max;
        assert rest[..0] == [] && total * Product(lens[..k]) == next * Product(rest[..k - 1]);
        assert k - 1 > 0;
      }
    } else if lens != [] {
      forall k | 0 < k <= |lens| ensures !NoneEmpty(lens[..k]) {
        assert lens[..k][0] == 0;
      }
    }
  }

  /** An empty dimension does not help once the bound is exceeded, although there would be nothing to expand. */
  lemma EmptyTooLate()
    ensures SizeCheck([3, 0], 1, 2) == Over && Product([3, 0]) == 0 && SizeCheck([0, 3], 1, 2) == Nothing
  {
    assert [3, 0][1..] == [0];
  }

  lemma OnePrefixMore(lens: seq<nat>, total: nat, k: nat)
    requires k < |lens| && lens[0] > 0
    ensures NoneEmpty(lens[..k + 1]) <==> NoneEmpty(lens[1..][..k])
    ensures total * Product(lens[..k + 1]) == total * lens[0] * Product(lens[1..][..k])
  {
    var a, b := lens[..k + 1], lens[1..][..k];
    assert a[1..] == b && a[0] == lens[0];
    assert a == [lens[0]] + b;
    Associate(total, lens[0], Product(b));
  }

  lemma Associate(a: nat, b: nat, c: nat)
    ensures a * (b * c) == (a * b) * c
  {
  }

  lemma AtLeast(a: nat, b: nat)
    requires b > 0
    ensures a * b >= a
  {
  }

  /** The combination at place `k` of the enumeration. */
  function Combination(dims: seq<Dimension>, k: nat): Binding
    requires NoneEmpty(Lengths(dims)) && k < Product(Lengths(dims))
  {
    RankOfDigits(Lengths(dims), k);
    Bound(dims, Digits(Lengths(dims), k))
  }

  method Combine(dims: seq<Dimension>, indices: seq<nat>) returns (combination: Binding)
    requires InRange(Lengths(dims), indices)
    ensures combination == Bound(dims, indices)
  {
    combination := map[];
    assert indices[..0] == [];
    for i := 0 to |dims|
      invariant InRange(Lengths(dims[..i]), indices[..i]) && combination == Bound(dims[..i], indices[..i])
    {
      BoundPrefix(dims, indices, i + 1);
      assert dims[..i + 1][..i] == dims[..i] && indices[..i + 1][..i] == indices[..i];
      assert indices[i] < Lengths(dims)[i];
      combination := combination[dims[i].name := dims[i].values[indices[i]]];
    }
    assert dims[..|dims|] == dims && indices[..|dims|] == indices;
  }

  lemma Distribute(q: nat, p: nat, r: nat, n: nat)
    ensures (q * p + r) * n == q * (p * n) + r * n
  {
    assert (q * p + r) * n == (q * p) * n + r * n;
    Associate(q, p, n);
  }

  lemma QuotientTwice(q: nat, p: nat, r: nat, n: nat, m: nat)
    requires r < p && m < n
    ensures p * n > 0
    ensures var k := (q * p + r) * n + m;
            k / n == q * p + r && k % n == m && k / (p * n) == q && k % (p * n) == r * n + m
  {
    PositiveTimes(p, n);
    QuotientRemainder(q * p + r, n, m);
    Distribute(q, p, r, n);
    Stride(r, p, n);
    QuotientRemainder(q, p * n, r * n + m);
  }

  lemma {:induction false} ProductLast(lens: seq<nat>, n: nat)
    ensures Product(lens + [n]) == Product(lens) * n
  {
    if lens == [] {
      assert [n][1..] == [] && [] + [n] == [n];
    } else {
      assert (lens + [n])[1..] == lens[1..] + [n];
      ProductLast(lens[1..], n);
      Associate(lens[0], Product(lens[1..]), n);
    }
  }

  lemma DigitsUnfold(lens: seq<nat>, k: nat)
    requires NoneEmpty(lens) && lens != []
    ensures NoneEmpty(lens[1..]) && Product(lens[1..]) > 0
    ensures Digits(lens, k) == [k / Product(lens[1..])] + Digits(lens[1..], k % Product(lens[1..]))
  {
    assert NoneEmpty(lens[1..]);
    ProductPositive(lens[1..]);
  }

  lemma OneDigit(n: nat, k: nat)
    requires k < n
    ensures Digits([n], k) == [k % n] && Product([n]) == n
  {
    assert [n][1..] == [] && Product([]) == 1;
  }

  /** The last digit is the remainder, and the others are the digits of the quotient. */
  lemma {:induction false} DigitsLast(lens: seq<nat>, n: nat, k: nat)
    requires NoneEmpty(lens) && n > 0 && k < Product(lens + [n])
    ensures NoneEmpty(lens + [n]) && Digits(lens + [n], k) == Digits(lens, k / n) + [k % n]
    decreases |lens|
  {
    PositiveMore(lens, n);
    hide Product, NoneEmpty;
    if lens == [] {
      assert [] + [n] == [n];
      OneDigit(n, k);
      NoDigits();
      assert [] + [k % n] == [k % n];
    } else {
      var p := Product(lens[1..]);
      DigitsUnfold(lens, k / n);
      SplitTwice(k, n, p);
      var low := (k / n) % p * n + k % n;
      ProductLast(lens[1..], n);
      assert (lens + [n])[1..] == lens[1..] + [n];
      DigitsUnfold(lens + [n], k);
      DigitsLast(lens[1..], n, low);
      var rest := Digits(lens[1..], (k / n) % p);
      assert [k / n / p] + (rest + [k % n]) == [k / n / p] + rest + [k % n];
    }
  }

  lemma PositiveMore(lens: seq<nat>, n: nat)
    requires NoneEmpty(lens) && n > 0
    ensures NoneEmpty(lens + [n])
  {
  }

  lemma NoDigits()
    ensures NoneEmpty([]) && forall k :: Digits([], k) == []
  {
  }

  lemma SplitTwice(k: nat, n: nat, p: nat)
    requires n > 0 && p > 0
    ensures var low := (k / n) % p * n + k % n;
            p * n > 0 && k / (p * n) == k / n / p && k % (p * n) == low < p * n && low / n == (k / n) % p && low % n == k % n
  {
    var h, m := DivMod(k, n);
    var q, r := DivMod(h, p);
    QuotientTwice(q, p, r, n, m);
    QuotientRemainder(r, n, m);
    Stride(r, p, n);
  }

  lemma DivMod(k: nat, n: nat) returns (q: nat, r: nat)
    requires n > 0
    ensures q == k / n && r == k % n < n && k == q * n + r
  {
    q, r := k / n, k % n;
  }

  /** All combinations, the last dimension changing fastest. */
  method CartesianProduct(dims: seq<Dimension>, maxCollectionSize: int) returns (r: Expanded)
    ensures var lens := Lengths(dims);
            match SizeCheck(lens, 1, maxCollectionSize)
            case Over => r == TooLarge
            case Nothing => r == NoItems
            case Enumerate =>
              if dims == [] then r == NoItems
              else NoneEmpty(lens) && r.Items? && |r.items| == Product(lens) && forall k | 0 <= k < |r.items| :: r.items[k] == Combination(dims, k)
  {
    if dims == [] {
      return NoItems;
    }
    var lens := Lengths(dims);
    var total: nat := 1;
    for i := 0 to |dims|
      invariant forall j | 0 <= j < i :: lens[j] > 0
      invariant SizeCheck(lens, 1, maxCollectionSize) == SizeCheck(lens[i..], total, maxCollectionSize)
    {
      assert lens[i..][1..] == lens[i + 1..];
      if |dims[i].values| == 0 {
        return NoItems;
      }
      total := total * |dims[i].values|;
      if total > maxCollectionSize {
        return TooLarge;
      }
    }
    var items := Enumeration(dims);
    return Items(items);
  }

  method Enumeration(dims: seq<Dimension>) returns (result: seq<Binding>)
    requires NoneEmpty(Lengths(dims))
    ensures |result| == Product(Lengths(dims))
    ensures forall k | 0 <= k < |result| :: result[k] == Combination(dims, k)
  {
    var lens := Lengths(dims);
    ProductPositive(lens);
    var indices := seq(|dims|, _ => 0);
    ZeroRank(lens, indices);
    result := [];
    var carry := false;
    while !carry
      invariant InRange(lens, indices) && |result| <= Product(lens)
      invariant !carry ==> Rank(lens, indices) == |result|
      invariant carry ==> |result| == Product(lens)
      invariant forall k | 0 <= k < |result| :: result[k] == Combination(dims, k)
      decreases Product(lens) - |result|, !carry
    {
      RankInRange(lens, indices);
      DigitsOfRank(lens, indices);
      var combination := Combine(dims, indices);
      result := result + [combination];
      TurnedRank(lens, indices);
      indices, carry := Turn(lens, indices);
    }
  }

  lemma {:induction false} ZeroRank(lens: seq<nat>, indices: seq<nat>)
    requires |indices| == |lens| && forall i | 0 <= i < |indices| :: indices[i] == 0
    ensures Rank(lens, indices) == 0
  {
    if lens != [] {
      ZeroRank(lens[1..], indices[1..]);
    }
  }
}
