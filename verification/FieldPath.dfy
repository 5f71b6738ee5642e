/** Paths as strings: `kro/graph/fieldpath` and the way the template parser grows paths. */
module FieldPath {
  import opened Text
  import opened Trees
  import Scanner

  /** A path extended by one field, quoted if its name has a dot or is empty. */
  function JoinPathAndFieldName(path: string, name: string): string {
    if name == "" || '.' in name then path + "[\"" + name + "\"]"
    else if path == "" then name
    else path + "." + name
  }

  function Grow(path: string, seg: Segment): string {
    match seg
    case Field(name) => JoinPathAndFieldName(path, name)
    case Index(i) => path + "[" + Itoa(i) + "]"
  }

  /** The path string that the template parser has built when it arrives at `p`. */
  function Print(p: Path): string {
    if p == [] then "" else Grow(Print(p[..|p| - 1]), p[|p| - 1])
  }

  /** The notation has no escapes: such names would be cut short. */
  predicate Carriable(seg: Segment) {
    match seg
    case Field(name) => if name == "" || '.' in name then '"' !in name else '[' !in name
    case Index(i) => i <= MAX_INT
  }

  predicate AllCarriable(p: Path) {
    forall k | 0 <= k < |p| :: Carriable(p[k])
  }

  // ---- What parsing a string means, one iteration of the parser at a time. ----

  predicate StartsQuoted(s: string) {
    2 <= |s| && s[0] == '[' && s[1] == '"'
  }

  /** What one sub-parser found and what it left. */
  datatype Found<T> = Found(value: T, rest: string) | Malformed

  function QuotedField(s: string): Found<string>
    requires StartsQuoted(s)
  {
    var body := s[2..];
    var n := Span(body, {'"'});
    if n + 1 < |body| && body[n + 1] == ']' then Found(body[..n], body[n + 2..]) else Malformed
  }

  function UnquotedField(s: string): Found<string> {
    var n := Span(s, {'.', '['});
    if n == 0 then Malformed else Found(s[..n], s[n..])
  }

  function ArrayIndex(s: string): Found<int>
    requires s != ""
  {
    var body := s[1..];
    var n := Span(body, {']'});
    if n == |body| then Malformed
    else match Atoi(body[..n])
      case Ok(i) => Found(i, body[n + 1..])
      case Err => Malformed
  }

  /** The segment for a number in brackets; a negative index selects the field with the empty name. */
  function IndexSegment(i: int): Segment {
    if i >= 0 then Index(i) else Field("")
  }

  function FieldPart(s: string): Found<seq<Segment>> {
    if StartsQuoted(s) then
      match QuotedField(s) case Found(name, rest) => Found([Field(name)], rest) case Malformed => Malformed
    else if s != "" && s[0] != '[' then
      match UnquotedField(s) case Found(name, rest) => Found([Field(name)], rest) case Malformed => Malformed
    else Found([], s)
  }

  function IndexPart(s: string): Found<seq<Segment>> {
    if s != "" && s[0] == '[' && !StartsQuoted(s) then
      match ArrayIndex(s) case Found(i, rest) => Found([IndexSegment(i)], rest) case Malformed => Malformed
    else Found([], s)
  }

  function DropDot(s: string): string {
    if s != "" && s[0] == '.' then s[1..] else s
  }

  /** One iteration: a field, an index, a dot, each if present. */
  function Round(s: string): (r: Found<Path>)
    ensures r.Found? && s != "" ==> |r.rest| < |s|
  {
    match FieldPart(s)
    case Malformed => Malformed
    case Found(field, rest) =>
      match IndexPart(rest)
      case Malformed => Malformed
      case Found(index, rest') => Found(field + index, DropDot(rest'))
  }

  function Parsed(s: string): Result<Path>
    decreases |s|
  {
    if s == "" then Ok([])
    else match Round(s)
      case Malformed => Err
      case Found(segs, rest) =>
        Prepend(segs, Parsed(rest))
  }

  // ---- The parser. ----

  class Parser {
    const input: string
    var pos: nat

    constructor (input: string)
      ensures this.input == input && pos == 0
    {
      this.input, pos := input, 0;
    }

    ghost function Rest(): string
      reads this
      requires pos <= |input|
    {
      input[pos..]
    }

    method ParseQuotedField() returns (r: Result<string>)
      requires pos <= |input| && StartsQuoted(Rest())
      modifies this
      ensures pos <= |input|
      ensures match QuotedField(old(Rest())) case Found(name, rest) => r == Ok(name) && Rest() == rest case Malformed => r.Err?
    {
      ghost var body := Rest()[2..];
      pos := pos + 2;
      var start := pos;
      while pos < |input| && input[pos] != '"'
        invariant start <= pos <= |input|
        invariant forall k | start <= k < pos :: input[k] != '"'
      {
        pos := pos + 1;
      }
      SpanOf(body, {'"'}, pos - start);
      assert input[start..pos] == body[..pos - start];
      if pos >= |input| {
        return Err;
      }
      var field := input[start..pos];
      pos := pos + 1;
      if pos < |input| && input[pos] == ']' {
        pos := pos + 1;
        assert Rest() == body[pos - start..];
        return Ok(field);
      }
      return Err;
    }

    method ParseUnquotedField() returns (r: Result<string>)
      requires pos <= |input|
      modifies this
      ensures pos <= |input|
      ensures match UnquotedField(old(Rest())) case Found(name, rest) => r == Ok(name) && Rest() == rest case Malformed => r.Err?
    {
      ghost var s := Rest();
      var start := pos;
      while pos < |input| && input[pos] != '.' && input[pos] != '['
        invariant start <= pos <= |input|
        invariant forall k | start <= k < pos :: input[k] != '.' && input[k] != '['
      {
        pos := pos + 1;
      }
      SpanOf(s, {'.', '['}, pos - start);
      assert input[start..pos] == s[..pos - start] && Rest() == s[pos - start..];
      if start == pos {
        return Err;
      }
      return Ok(input[start..pos]);
    }

    method ParseArrayIndex() returns (r: Result<int>)
      requires pos < |input|
      modifies this
      ensures pos <= |input|
      ensures match ArrayIndex(old(Rest())) case Found(i, rest) => r == Ok(i) && Rest() == rest case Malformed => r.Err?
    {
      hide Atoi;
      ghost var body := Rest()[1..];
      pos := pos + 1;
      var start := pos;
      while pos < |input| && input[pos] != ']'
        invariant start <= pos <= |input|
        invariant forall k | start <= k < pos :: input[k] != ']'
      {
        pos := pos + 1;
      }
      SpanOf(body, {']'}, pos - start);
      assert input[start..pos] == body[..pos - start];
      if pos >= |input| {
        return Err;
      }
      var digits := input[start..pos];
      pos := pos + 1;
      assert Rest() == body[pos - start..];
      r := Atoi(digits);
    }

    /** The field that an iteration of `Parse` may start with. */
    method ParseFieldPart() returns (r: Result<Path>)
      requires pos < |input|
      modifies this
      ensures pos <= |input|
      ensures match FieldPart(old(Rest())) case Found(segs, rest) => r == Ok(segs) && Rest() == rest case Malformed => r.Err?
    {
      hide QuotedField, UnquotedField;
      if pos + 1 < |input| && input[pos] == '[' && input[pos + 1] == '"' {
        var field := ParseQuotedField();
        return if field.Ok? then Ok([Field(field.value)]) else Err;
      } else if input[pos] != '[' {
        var field := ParseUnquotedField();
        return if field.Ok? then Ok([Field(field.value)]) else Err;
      }
      return Ok([]);
    }

    /** One iteration of `Parse`. */
    method ParseRound() returns (r: Result<Path>)
      requires pos < |input|
      modifies this
      ensures pos <= |input|
      ensures match Round(old(Rest())) case Found(segs, rest) => r == Ok(segs) && Rest() == rest case Malformed => r.Err?
    {
      hide FieldPart, ArrayIndex;
      var field := ParseFieldPart();
      if field.Err? {
        return Err;
      }
      var segments := field.value;
      ghost var rest := Rest();
      if pos < |input| && input[pos] == '[' && (pos + 1 >= |input| || input[pos + 1] != '"') {
        var index := ParseArrayIndex();
        if index.Err? {
          return Err;
        }
        segments := segments + [IndexSegment(index.value)];
      }
      assert IndexPart(rest).Found? && segments == field.value + IndexPart(rest).value && Rest() == IndexPart(rest).rest;
      if pos < |input| && input[pos] == '.' {
        pos := pos + 1;
      }
      return Ok(segments);
    }

    /** Reads the whole input, or stops at the first malformed part. */
    method Parse() returns (r: Result<Path>)
      requires pos == 0
      modifies this
      ensures r == Parsed(input)
    {
      hide Round;
      var segments: Path := [];
      assert Rest() == input;
      PrependNothing(Parsed(input));
      while pos < |input|
        invariant pos <= |input|
        invariant Parsed(input) == Prepend(segments, Parsed(Rest()))
        decreases |input| - pos
      {
        var more := ParseRound();
        if more.Err? {
          return Err;
        }
        PrependTwice(segments, more.value, Parsed(Rest()));
        segments := segments + more.value;
      }
      assert segments + [] == segments;
      return Ok(segments);
    }
  }

  // ---- Printed paths parse back. ----

  /** `Print` read from the front: `sep` is the dot that joins a plain name to what precedes it. */
  function Render(p: Path, sep: string): string {
    if p == [] then "" else RenderOne(p[0], sep) + Render(p[1..], ".")
  }

  function RenderOne(seg: Segment, sep: string): string {
    match seg
    case Field(name) => if name == "" || '.' in name then "[\"" + (name + "\"]") else sep + name
    case Index(i) => "[" + (Itoa(i) + "]")
  }

  lemma {:induction false} RenderAppend(p: Path, seg: Segment, sep: string)
    ensures Render(p + [seg], sep) == Render(p, sep) + RenderOne(seg, if p == [] then sep else ".")
  {
    if p == [] {
      assert p + [seg] == [seg];
    } else {
      assert (p + [seg])[1..] == p[1..] + [seg];
      RenderAppend(p[1..], seg, ".");
    }
  }

  lemma {:induction false} PrintIsRender(p: Path)
    ensures Print(p) == Render(p, "")
    ensures Print(p) == "" <==> p == []
  {
    hide Itoa, Render;
    if p != [] {
      var q, seg := p[..|p| - 1], p[|p| - 1];
      PrintIsRender(q);
      assert p == q + [seg];
      RenderAppend(q, seg, "");
      GrowIsRender(Print(q), seg);
    } else {
      NothingRendered("");
    }
  }

  lemma GrowIsRender(path: string, seg: Segment)
    ensures Grow(path, seg) == path + RenderOne(seg, if path == "" then "" else ".") && Grow(path, seg) != ""
  {
    hide Itoa;
    match seg
    case Field(name) =>
      if name == "" || '.' in name {
        assert path + "[\"" + name + "\"]" == path + ("[\"" + (name + "\"]"));
      } else {
        assert path + "." + name == path + ("." + name);
        assert "" + name == name && path + ("" + name) == path + name;
      }
    case Index(i) =>
      assert path + "[" + Itoa(i) + "]" == path + ("[" + (Itoa(i) + "]"));
  }

  lemma NothingRendered(sep: string)
    ensures Render([], sep) == ""
  {
  }

  /** After the dot is dropped, what is rendered next starts as a path does. */
  lemma DropDotRender(p: Path)
    ensures DropDot(Render(p, ".")) == Render(p, "")
  {
    if p != [] && p[0].Field? && p[0].name != "" && '.' !in p[0].name {
      var tail := Render(p[1..], ".");
      assert (("." + p[0].name) + tail)[1..] == ("" + p[0].name) + tail;
    }
  }

  lemma QuotedRendered(name: string, tail: string)
    requires name == "" || '.' in name
    ensures var s := RenderOne(Field(name), "") + tail;
            && StartsQuoted(s) && s[2..] == name + ("\"]" + tail)
            && s[2..][|name|] == '"' && s[2..][|name| + 1] == ']' && s[2..][|name| + 2..] == tail
  {
  }

  lemma QuotedParses(name: string, tail: string)
    requires '"' !in name && (name == "" || '.' in name)
    ensures FieldPart(RenderOne(Field(name), "") + tail) == Found([Field(name)], tail)
  {
    hide Span;
    var s := RenderOne(Field(name), "") + tail;
    QuotedRendered(name, tail);
    SpanOfPrefix(name, "\"]" + tail, {'"'});
    assert QuotedField(s) == Found(name, tail);
  }

  lemma PlainParses(name: string, tail: string)
    requires name != "" && '.' !in name && '[' !in name
    requires tail == "" || tail[0] == '.' || tail[0] == '['
    ensures FieldPart(name + tail) == Found([Field(name)], tail)
  {
    var s := name + tail;
    SpanOf(s, {'.', '['}, |name|);
    assert s[..|name|] == name && s[|name|..] == tail;
  }

  lemma RenderStart(p: Path)
    ensures var s := Render(p, "."); s == "" || s[0] == '.' || s[0] == '['
  {
  }

  lemma FieldParses(name: string, p: Path)
    requires Carriable(Field(name))
    ensures FieldPart(RenderOne(Field(name), "") + Render(p, ".")) == Found([Field(name)], Render(p, "."))
  {
    hide FieldPart, Render;
    if name == "" || '.' in name {
      QuotedParses(name, Render(p, "."));
    } else {
      RenderStart(p);
      PlainParses(name, Render(p, "."));
      assert "" + name == name;
    }
  }

  lemma IndexParses(i: nat, sep: string, tail: string)
    requires i <= MAX_INT
    ensures IndexPart(RenderOne(Index(i), sep) + tail) == Found([Index(i)], tail)
    ensures FieldPart(RenderOne(Index(i), sep) + tail) == Found([], RenderOne(Index(i), sep) + tail)
  {
    hide Atoi, Itoa, Span;
    AtoiItoa(i);
    IndexRendered(i, sep, tail);
  }

  lemma NoIndexParses(p: Path)
    requires p == [] || p[0].Field?
    ensures IndexPart(Render(p, ".")) == Found([], Render(p, "."))
  {
    if p != [] && (p[0].name == "" || '.' in p[0].name) {
      assert StartsQuoted(RenderOne(p[0], "."));
    }
  }

  lemma {:induction false} RenderParses(p: Path)
    requires AllCarriable(p)
    ensures Parsed(Render(p, "")) == Ok(p)
    decreases |p|
  {
    hide FieldPart, IndexPart, DropDot, RenderOne;
    if p != [] {
      var s, tail := Render(p, ""), Render(p[1..], ".");
      assert Carriable(p[0]);
      SomeRendered(p[0], "", tail);
      if p[0].Index? {
        IndexParses(p[0].i, "", tail);
        DropDotRender(p[1..]);
        RenderParses(p[1..]);
        assert ([] + [p[0]]) + p[1..] == p;
      } else {
        FieldParses(p[0].name, p[1..]);
        if |p| > 1 && p[1].Index? {
          assert Carriable(p[1]);
          IndexParses(p[1].i, ".", Render(p[2..], "."));
          assert p[1..][1..] == p[2..];
          DropDotRender(p[2..]);
          RenderParses(p[2..]);
          assert ([p[0]] + [p[1]]) + p[2..] == p;
        } else {
          NoIndexParses(p[1..]);
          DropDotRender(p[1..]);
          RenderParses(p[1..]);
          assert ([p[0]] + []) + p[1..] == p;
        }
      }
    }
  }

  lemma SomeRendered(seg: Segment, sep: string, tail: string)
    ensures RenderOne(seg, sep) + tail != ""
  {
  }

  // ---- Paths outside the notation never parse back. ----

  /** The first step that is read for a step the notation cannot carry is a different one. */
  predicate Misread(s: string, seg: Segment) {
    match Round(s) case Malformed => true case Found(segs, _) => segs != [] && segs[0] != seg
  }

  lemma QuotedMisread(name: string, original: string, tail: string)
    requires '"' in name && '.' in name && '"' in original
    ensures Misread(RenderOne(Field(name), "") + tail, Field(original))
  {
    hide IndexPart;
    var s := RenderOne(Field(name), "") + tail;
    QuotedRendered(name, tail);
    hide RenderOne;
    assert QuotedField(s).Found? ==> '"' !in QuotedField(s).value;
  }

  lemma PlainMisread(name: string, tail: string)
    requires '[' in name && '.' !in name
    requires tail == "" || tail[0] == '.' || tail[0] == '['
    ensures Misread(name + tail, Field(name))
  {
    var s := name + tail;
    if s[0] != '[' {
      hide IndexPart;
      var n := Span(s, {'.', '['});
      var k :| 0 <= k < |name| && name[k] == '[';
      assert n <= k by {
        assert s[k] == '[';
      }
      assert UnquotedField(s).Found? ==> UnquotedField(s).value != name;
    } else if StartsQuoted(s) {
      hide IndexPart;
      assert |name| > 1 && name[1] == '"';
      assert QuotedField(s).Found? ==> '"' !in QuotedField(s).value;
    } else {
      assert FieldPart(s) == Found([], s);
      hide ArrayIndex;
      assert ArrayIndex(s).Found? ==> IndexPart(s).value == [IndexSegment(ArrayIndex(s).value)];
    }
  }

  lemma LargeIndexMalformed(i: nat, sep: string, tail: string)
    requires i > MAX_INT
    ensures IndexPart(RenderOne(Index(i), sep) + tail).Malformed?
    ensures FieldPart(RenderOne(Index(i), sep) + tail) == Found([], RenderOne(Index(i), sep) + tail)
  {
    hide Atoi, Itoa, Span;
    AtoiTooLarge(i);
    IndexRendered(i, sep, tail);
  }

  /** How a rendered index starts, and where its brackets close. */
  lemma IndexRendered(i: nat, sep: string, tail: string)
    ensures var s, digits := RenderOne(Index(i), sep) + tail, Itoa(i);
            && s != "" && s[0] == '[' && !StartsQuoted(s) && Span(s[1..], {']'}) == |digits| < |s[1..]|
            && s[1..][..|digits|] == digits && s[1..][|digits| + 1..] == tail
  {
    hide Itoa, Span;
    var digits, s := Itoa(i), RenderOne(Index(i), sep) + tail;
    assert IsDigit(digits[0]);
    assert s[1..] == digits + ("]" + tail);
    SpanOfPrefix(digits, "]" + tail, {']'});
  }

  lemma FieldMisread(name: string, p: Path)
    requires !Carriable(Field(name))
    ensures Misread(RenderOne(Field(name), "") + Render(p, "."), Field(name))
  {
    hide Misread, Render;
    if '.' in name {
      QuotedMisread(name, name, Render(p, "."));
    } else {
      RenderStart(p);
      assert "" + name == name;
      PlainMisread(name, Render(p, "."));
    }
  }

  // A path may also be printed with the names that are quoted escaped, as Go's `%q` does.

  predicate IsQuoted(seg: Segment) {
    seg.Field? && (seg.name == "" || '.' in seg.name)
  }

  function Escape(seg: Segment): Segment {
    if IsQuoted(seg) then Field(Scanner.Escaped(seg.name)) else seg
  }

  function Escapes(p: Path): (r: Path)
    ensures |r| == |p|
  {
    seq(|p|, i requires 0 <= i < |p| => Escape(p[i]))
  }

  /** `q` is `p` as it is or with some names escaped. */
  predicate Alike(q: Path, p: Path) {
    |q| == |p| && forall k | 0 <= k < |p| :: q[k] == p[k] || q[k] == Escape(p[k])
  }

  lemma {:induction false} EscapedKeeps(s: string)
    ensures '.' in Scanner.Escaped(s) <==> '.' in s
    ensures Scanner.Escaped(s) == "" <==> s == ""
    ensures '"' in Scanner.Escaped(s) ==> '"' in s
  {
    if s != "" {
      var head, tail := Scanner.EscapedChar(s[0]), Scanner.Escaped(s[1..]);
      EscapedKeeps(s[1..]);
      assert s == [s[0]] + s[1..];
      assert forall c :: c in head + tail <==> c in head || c in tail;
    }
  }

  /** A name that was changed or cannot be carried is not what is read. */
  lemma FirstMisread(q: Segment, seg: Segment, p: Path)
    requires seg.Field? && (q == seg || q == Escape(seg)) && !(q == seg && Carriable(seg))
    ensures q.Field? && Misread(RenderOne(q, "") + Render(p, "."), seg)
  {
    if q == seg {
      FieldMisread(seg.name, p);
    } else {
      EscapedKeeps(seg.name);
      hide Render;
      if '"' in q.name {
        QuotedMisread(q.name, seg.name, Render(p, "."));
      } else {
        QuotedParses(q.name, Render(p, "."));
        hide FieldPart, RenderOne, IndexPart;
      }
    }
  }

  lemma AlikeTail(q: Path, p: Path)
    requires Alike(q, p) && p != []
    ensures |q| == |p| && Alike(q[1..], p[1..]) && (q[0] == p[0] || q[0] == Escape(p[0])) && (q[0].Index? <==> p[0].Index?)
    ensures q == p <==> q[0] == p[0] && q[1..] == p[1..]
    ensures p == [p[0]] + p[1..]
  {
    assert q == [q[0]] + q[1..];
  }

  lemma {:induction false} RenderParsesOnlyIf(q: Path, p: Path)
    requires Alike(q, p)
    ensures Parsed(Render(q, "")) == Ok(p) ==> q == p && AllCarriable(p)
    decreases |p|
  {
    hide FieldPart, IndexPart, DropDot, RenderOne, AllCarriable, Escape, Alike;
    if p == [] {
      NoneCarriable();
      NothingAlike(q, p);
    } else {
      AlikeTail(q, p);
      var tail := Render(q[1..], ".");
      SomeRendered(q[0], "", tail);
      FirstCarriable(p);
      if q[0].Index? {
        IndexAlike(q[0], p[0]);
        if Carriable(p[0]) {
          IndexParses(p[0].i, "", tail);
          DropDotRender(q[1..]);
          RenderParsesOnlyIf(q[1..], p[1..]);
          PrependedTail([p[0]], p[1..], Parsed(Render(q[1..], "")));
        } else {
          LargeIndexMalformed(p[0].i, "", tail);
        }
      } else if q[0] != p[0] || !Carriable(p[0]) {
        FirstMisread(q[0], p[0], q[1..]);
        PrependedHead(p, Render(q, ""));
      } else {
        FieldParses(p[0].name, q[1..]);
        if |p| > 1 && p[1].Index? {
          AlikeTail(q[1..], p[1..]);
          assert p[1..][1..] == p[2..] && q[1..][1..] == q[2..];
          IndexAlike(q[1], p[1]);
          FirstCarriable(p[1..]);
          if Carriable(p[1]) {
            IndexParses(p[1].i, ".", Render(q[2..], "."));
            DropDotRender(q[2..]);
            RenderParsesOnlyIf(q[2..], p[2..]);
            assert [p[0]] + [p[1]] + p[2..] == p;
            PrependedTail([p[0]] + [p[1]], p[2..], Parsed(Render(q[2..], "")));
          } else {
            LargeIndexMalformed(p[1].i, ".", Render(q[2..], "."));
          }
        } else {
          if |p| > 1 {
            AlikeTail(q[1..], p[1..]);
          }
          NoIndexParses(q[1..]);
          DropDotRender(q[1..]);
          RenderParsesOnlyIf(q[1..], p[1..]);
          PrependedTail([p[0]], p[1..], Parsed(Render(q[1..], "")));
        }
      }
    }
  }

  lemma NothingAlike(q: Path, p: Path)
    requires Alike(q, p) && p == []
    ensures q == p
  {
  }

  lemma IndexAlike(q: Segment, p: Segment)
    requires (q == p || q == Escape(p)) && p.Index?
    ensures q == p
  {
  }

  /** What starts with a segment that is misread is not read as a whole. */
  lemma PrependedHead(p: Path, s: string)
    requires p != [] && s != "" && Misread(s, p[0])
    ensures Parsed(s) != Ok(p)
  {
  }

  lemma NoneCarriable()
    ensures AllCarriable([])
  {
  }

  lemma FirstCarriable(p: Path)
    requires p != []
    ensures AllCarriable(p) <==> Carriable(p[0]) && AllCarriable(p[1..])
  {
    assert p == [p[0]] + p[1..];
  }

  lemma PrependedTail(a: Path, b: Path, r: Result<Path>)
    ensures Prepend(a, r) == Ok(a + b) ==> r == Ok(b)
    ensures Prepend([] + a, r) == Prepend(a + [], r) == Prepend(a, r)
  {
    assert [] + a == a == a + [];
    if r.Ok? && a + r.value == a + b {
      assert r.value == (a + r.value)[|a|..] == b;
    }
  }

  /** A grown path parses back to its steps exactly when the notation can carry every one of them. */
  lemma PrintParsesIff(p: Path)
    ensures Parsed(Print(p)) == Ok(p) <==> AllCarriable(p)
  {
    PrintIsRender(p);
    RenderParsesOnlyIf(p, p);
    if AllCarriable(p) {
      RenderParses(p);
    }
  }

  /** A bracket in a name is taken for an index. */
  lemma BracketLost()
    ensures Parsed(Print([Field("a[b")])) != Ok([Field("a[b")])
  {
    var p := [Field("a[b")];
    assert "a[b"[1] == '[';
    assert forall k | 0 <= k < 3 :: "a[b"[k] != '.';
    assert !Carriable(p[0]);
    PrintParsesIff(p);
  }

  /** A negative index selects the field with the empty name. */
  lemma NegativeIndexIsField()
    ensures Parsed("a[-1]") == Ok([Field("a"), Field("")])
  {
    var s := "a[-1]";
    SpanOf(s, {'.', '['}, 1);
    assert s[..1] == "a" && s[1..] == "[-1]";
    assert UnquotedField(s) == Found("a", "[-1]");
    assert FieldPart(s) == Found([Field("a")], "[-1]");
    var body := "[-1]"[1..];
    assert body == "-1]";
    SpanOf(body, {']'}, 2);
    assert body[..2] == "-1" && body[3..] == "";
    MinusOne();
    assert ArrayIndex("[-1]") == Found(-1, "");
    assert IndexPart("[-1]") == Found([Field("")], "");
    assert [Field("a")] + [Field("")] == [Field("a"), Field("")];
    assert Round(s) == Found([Field("a"), Field("")], "");
    assert Parsed("") == Ok([]);
    assert [Field("a"), Field("")] + [] == [Field("a"), Field("")];
  }

  lemma MinusOne()
    ensures Atoi("-1") == Ok(-1)
  {
    assert "-1"[1..] == "1" && AllDigits("1") && "1"[..0] == "";
    assert DigitValue("1") == 1;
  }

  /** If the names that are quoted are escaped too, none of them may need it. */
  lemma EscapesParseIff(p: Path)
    ensures Parsed(Print(Escapes(p))) == Ok(p) <==>
            AllCarriable(p) && forall k | 0 <= k < |p| && IsQuoted(p[k]) :: Scanner.Escaped(p[k].name) == p[k].name
  {
    PrintIsRender(Escapes(p));
    RenderParsesOnlyIf(Escapes(p), p);
    if AllCarriable(p) && forall k | 0 <= k < |p| && IsQuoted(p[k]) :: Scanner.Escaped(p[k].name) == p[k].name {
      assert Escapes(p) == p;
      RenderParses(p);
    }
    assert Escapes(p) == p ==> forall k | 0 <= k < |p| && IsQuoted(p[k]) :: Escapes(p)[k] == p[k];
  }

  lemma PrintGrows(p: Path, i: nat)
    requires i < |p|
    ensures Print(p[..i + 1]) == Grow(Print(p[..i]), p[i]) && (Print(p[..i]) == "" <==> i == 0)
  {
    assert p[..i + 1][..i] == p[..i];
    PrintIsRender(p[..i]);
    hide Render, Grow;
  }

  lemma QuotedInBrackets(path: string, name: string)
    ensures path + "[" + ("\"" + name + "\"") + "]" == path + "[\"" + name + "\"]"
  {
    assert "[" + "\"" == "[\"" && "\"" + "]" == "\"]";
    assert path + "[" + ("\"" + name + "\"") + "]" == path + ("[" + "\"") + name + ("\"" + "]");
  }

  lemma PlainJoined(path: string, name: string)
    ensures path + "" + name == path + name && "" + name == name
  {
  }

  /** The other printer of paths: as they are grown, but with the names that are quoted escaped. */
  method Build(segments: Path) returns (path: string)
    ensures path == Print(Escapes(segments))
    ensures Parsed(path) == Ok(segments) <==>
            && AllCarriable(segments)
            && forall k | 0 <= k < |segments| && IsQuoted(segments[k]) :: Scanner.Escaped(segments[k].name) == segments[k].name
  {
    hide Print, Itoa, Parsed, Scanner.Escaped;
    ghost var all := Escapes(segments);
    path := "";
    assert all[..0] == [];
    NothingPrinted();
    for i := 0 to |segments|
      invariant path == Print(all[..i])
    {
      PrintGrows(all, i);
      match segments[i] {
        case Index(n) =>
          path := path + "[" + Itoa(n) + "]";
        case Field(name) =>
          if '.' in name || name == "" {
            EscapedKeeps(name);
            QuotedInBrackets(path, Scanner.Escaped(name));
            path := path + "[" + Scanner.Quote(name) + "]";
          } else {
            PlainJoined(path, name);
            path := path + (if i > 0 then "." else "") + name;
          }
      }
    }
    assert all[..|segments|] == all;
    EscapesParseIff(segments);
  }

  lemma NothingPrinted()
    ensures Print([]) == ""
  {
  }
}
