/** Which strings are paths: the notation that the parser reads, as a list of what is written one after the other. */
module PathSyntax {
  import opened Text
  import opened Trees
  import opened FieldPath

  /** A name in quotes and brackets, a bare name, or a number in brackets. */
  datatype Form = Quoted(name: string) | Bare(name: string) | Numbered(text: string)

  /** What is written, and whether a dot follows it. */
  datatype Part = Part(form: Form, dot: bool)

  function SpellForm(f: Form): string {
    match f
    case Quoted(name) => "[\"" + name + "\"]"
    case Bare(name) => name
    case Numbered(text) => "[" + text + "]"
  }

  function SpellPart(p: Part): string {
    SpellForm(p.form) + if p.dot then "." else ""
  }

  function Spell(parts: seq<Part>): string {
    if parts == [] then "" else SpellPart(parts[0]) + Spell(parts[1..])
  }

  /** Quotes hold no quotation mark, bare names neither dots nor opening brackets, and numbers are numbers. */
  predicate ProperForm(f: Form) {
    match f
    case Quoted(name) => '"' !in name
    case Bare(name) => name != "" && '.' !in name && '[' !in name
    case Numbered(text) => Atoi(text).Ok? && ']' !in text
  }

  /** Bare names do not run into each other. */
  predicate Proper(parts: seq<Part>) {
    parts != [] ==>
      && ProperForm(parts[0].form) && Proper(parts[1..])
      && (parts[0].form.Bare? && !parts[0].dot && |parts| > 1 ==> !parts[1].form.Bare?)
  }

  function Meant(f: Form): Segment {
    match f
    case Quoted(name) => Field(name)
    case Bare(name) => Field(name)
    case Numbered(text) => if Atoi(text).Ok? && Atoi(text).value >= 0 then Index(Atoi(text).value) else Field("")
  }

  function AllMeant(parts: seq<Part>): (r: Path)
    ensures |r| == |parts| && forall i | 0 <= i < |parts| :: r[i] == Meant(parts[i].form)
  {
    seq(|parts|, i requires 0 <= i < |parts| => Meant(parts[i].form))
  }

  // ---- What is written is read. ----

  lemma NumberStart(text: string)
    requires Atoi(text).Ok?
    ensures text != "" && text[0] != '"'
  {
  }

  lemma QuotedRead(name: string, tail: string)
    requires '"' !in name
    ensures var s := SpellForm(Quoted(name)) + tail; StartsQuoted(s) && QuotedField(s) == Found(name, tail)
  {
    var s := SpellForm(Quoted(name)) + tail;
    assert s[2..] == name + ("\"]" + tail);
    SpanOfPrefix(name, "\"]" + tail, {'"'});
    assert s[2..][|name| + 2..] == tail;
  }

  lemma BareRead(name: string, tail: string)
    requires ProperForm(Bare(name)) && (tail == "" || tail[0] in {'.', '['})
    ensures UnquotedField(name + tail) == Found(name, tail)
  {
    SpanOfPrefix(name, tail, {'.', '['});
  }

  lemma NumberRead(text: string, tail: string)
    requires ProperForm(Numbered(text))
    ensures var s := SpellForm(Numbered(text)) + tail;
            s[0] == '[' && !StartsQuoted(s) && ArrayIndex(s) == Found(Atoi(text).value, tail)
  {
    hide Atoi;
    var s := SpellForm(Numbered(text)) + tail;
    NumberStart(text);
    assert s[1..] == text + ("]" + tail);
    SpanOfPrefix(text, "]" + tail, {']'});
    assert s[1..][|text| + 1..] == tail && s[1..][..|text|] == text;
    assert s[1] == text[0];
  }

  /** A field and what follows it are read one after the other. */
  lemma FieldFirst(s: string, seg: Segment, rest: string)
    requires s != "" && FieldPart(s) == Found([seg], rest) && (rest == "" || rest[0] != '.')
    ensures Parsed(s) == Prepend([seg], Parsed(rest))
  {
    hide FieldPart, ArrayIndex;
    NoFieldBefore(rest);
    match IndexPart(rest) {
      case Found(index, more) =>
        PrependTwice([seg], index, Parsed(DropDot(more)));
        if index == [] {
          assert more == rest && DropDot(rest) == rest && [seg] + [] == [seg];
        }
      case Malformed =>
    }
  }

  /** Where an index can be read, no field stands before it. */
  lemma NoFieldBefore(rest: string)
    ensures IndexPart(rest).Malformed? || (IndexPart(rest).Found? && IndexPart(rest).value != []) ==>
              rest != "" && FieldPart(rest) == Found([], rest)
    ensures IndexPart(rest).Found? && IndexPart(rest).value == [] ==> IndexPart(rest).rest == rest
    ensures IndexPart(rest).Found? && IndexPart(rest).value != [] ==>
              forall x: Path :: [] + x == x
  {
    hide ArrayIndex, QuotedField, UnquotedField;
  }

  lemma FieldAndDot(s: string, seg: Segment, tail: string)
    requires s != "" && FieldPart(s) == Found([seg], "." + tail)
    ensures Parsed(s) == Prepend([seg], Parsed(tail))
  {
    hide FieldPart, ArrayIndex;
    assert ("." + tail)[1..] == tail && [seg] + [] == [seg];
  }

  lemma IndexFirst(s: string, seg: Segment, rest: string)
    requires s != "" && FieldPart(s) == Found([], s) && IndexPart(s) == Found([seg], rest)
    ensures Parsed(s) == Prepend([seg], Parsed(DropDot(rest)))
  {
    hide FieldPart, ArrayIndex;
    assert [] + [seg] == [seg];
  }

  /** One part and what follows it; a bare name needs a dot before another one. */
  lemma PartRead(p: Part, tail: string)
    requires ProperForm(p.form) && (!p.dot ==> tail == "" || tail[0] != '.')
    requires p.form.Bare? && !p.dot ==> tail == "" || tail[0] == '['
    ensures Parsed(SpellPart(p) + tail) == Prepend([Meant(p.form)], Parsed(tail))
  {
    hide ProperForm, Parsed, Atoi;
    var rest := (if p.dot then "." else "") + tail;
    var s := SpellForm(p.form) + rest;
    assert SpellPart(p) + tail == s;
    assert !p.dot ==> rest == tail;
    FormFirst(p.form, rest);
    if p.form.Numbered? {
      IndexFirst(s, Meant(p.form), rest);
      assert DropDot(rest) == tail;
    } else if p.dot {
      FieldAndDot(s, Meant(p.form), tail);
    } else {
      FieldFirst(s, Meant(p.form), tail);
    }
  }

  lemma FormFirst(f: Form, rest: string)
    requires ProperForm(f) && (f.Bare? ==> rest == "" || rest[0] in {'.', '['})
    ensures var s := SpellForm(f) + rest;
            && s != ""
            && (f.Numbered? ==> FieldPart(s) == Found([], s) && IndexPart(s) == Found([Meant(f)], rest))
            && (!f.Numbered? ==> FieldPart(s) == Found([Meant(f)], rest))
  {
    match f {
      case Quoted(name) => QuotedRead(name, rest);
      case Bare(name) => BareRead(name, rest); BareStart(name, rest);
      case Numbered(text) => NumberRead(text, rest);
    }
  }

  lemma BareStart(name: string, rest: string)
    requires ProperForm(Bare(name))
    ensures (name + rest)[0] != '[' && !StartsQuoted(name + rest)
  {
    assert (name + rest)[0] == name[0];
  }

  lemma SpellStart(parts: seq<Part>)
    requires Proper(parts)
    ensures parts != [] ==> Spell(parts) != "" && Spell(parts)[0] != '.' && (Spell(parts)[0] != '[' <==> parts[0].form.Bare?)
  {
    if parts != [] {
      var f := parts[0].form;
      assert SpellForm(f) != "" && Spell(parts)[0] == SpellForm(f)[0];
    }
  }

  lemma MeantFirst(parts: seq<Part>)
    requires parts != []
    ensures AllMeant(parts) == [Meant(parts[0].form)] + AllMeant(parts[1..])
  {
  }

  lemma {:induction false} SpelledParses(parts: seq<Part>)
    requires Proper(parts)
    ensures Parsed(Spell(parts)) == Ok(AllMeant(parts))
    decreases |parts|
  {
    hide Parsed;
    if parts == [] {
      NothingParsed();
    } else {
      SpelledParses(parts[1..]);
      SpellStart(parts[1..]);
      PartRead(parts[0], Spell(parts[1..]));
      MeantFirst(parts);
    }
  }

  lemma NothingParsed()
    ensures Parsed("") == Ok([]) && AllMeant([]) == []
  {
  }

  // ---- What is read was written. ----

  lemma RoundFound(s: string)
    requires s != "" && Parsed(s).Ok?
    ensures FieldPart(s).Found? && (FieldPart(s) == Found([], s) ==> IndexPart(s).Found?)
  {
    hide FieldPart, IndexPart;
  }

  lemma QuotedOf(s: string) returns (name: string, rest: string)
    requires StartsQuoted(s) && QuotedField(s).Found?
    ensures '"' !in name && s == SpellForm(Quoted(name)) + rest && |rest| < |s|
  {
    var body := s[2..];
    var n := Span(body, {'"'});
    name, rest := body[..n], body[n + 2..];
    assert s == "[\"" + body;
    assert body[n..n + 2] == "\"]";
    Cut(body, n, n + 2);
    hide QuotedField;
    assert "[\"" + (name + "\"]" + rest) == "[\"" + name + "\"]" + rest;
  }

  lemma Cut(s: string, i: nat, j: nat)
    requires i <= j <= |s|
    ensures s == s[..i] + s[i..j] + s[j..]
  {
  }

  lemma NumberOf(s: string) returns (text: string, rest: string)
    requires s != "" && s[0] == '[' && ArrayIndex(s).Found?
    ensures ProperForm(Numbered(text)) && s == SpellForm(Numbered(text)) + rest && |rest| < |s|
  {
    hide Atoi;
    var body := s[1..];
    var n := Span(body, {']'});
    text, rest := body[..n], body[n + 1..];
    assert s == "[" + body;
    assert body[n..n + 1] == "]";
    Cut(body, n, n + 1);
    hide ArrayIndex;
    assert "[" + (text + "]" + rest) == "[" + text + "]" + rest;
  }

  /** What a round starts with. */
  lemma FormOf(s: string) returns (f: Form, rest: string)
    requires s != "" && Parsed(s).Ok?
    ensures ProperForm(f) && s == SpellForm(f) + rest && |rest| < |s|
    ensures f.Bare? ==> rest == "" || rest[0] in {'.', '['}
  {
    RoundFound(s);
    hide Parsed, Atoi, ArrayIndex, QuotedField;
    if StartsQuoted(s) {
      var name;
      name, rest := QuotedOf(s);
      f := Quoted(name);
    } else if s[0] != '[' {
      var n := Span(s, {'.', '['});
      f, rest := Bare(s[..n]), s[n..];
    } else {
      var text;
      text, rest := NumberOf(s);
      f := Numbered(text);
    }
  }

  lemma PrependedOk(seg: Segment, r: Result<Path>)
    requires Prepend([seg], r).Ok?
    ensures r.Ok? && Prepend([seg], r) == Ok([seg] + r.value)
  {
  }

  lemma {:induction false} ParsedIsSpelled(s: string) returns (parts: seq<Part>)
    requires Parsed(s).Ok?
    ensures Proper(parts) && Spell(parts) == s && AllMeant(parts) == Parsed(s).value
    decreases |s|
  {
    if s == "" {
      parts := [];
      NothingParsed();
    } else {
      var f, rest := FormOf(s);
      hide Parsed, Proper, Spell, ProperForm, AllMeant;
      var dot := rest != "" && rest[0] == '.';
      var tail := if dot then rest[1..] else rest;
      FormParsed(s, f, rest, tail);
      PrependedOk(Meant(f), Parsed(tail));
      var more := ParsedIsSpelled(tail);
      parts := [Part(f, dot)] + more;
      PartAdded(s, f, rest, more);
    }
  }

  lemma PartAdded(s: string, f: Form, rest: string, more: seq<Part>)
    requires ProperForm(f) && s == SpellForm(f) + rest && (f.Bare? ==> rest == "" || rest[0] in {'.', '['})
    requires Proper(more) && Spell(more) == if rest != "" && rest[0] == '.' then rest[1..] else rest
    ensures var parts := [Part(f, rest != "" && rest[0] == '.')] + more;
            Proper(parts) && Spell(parts) == s && AllMeant(parts) == [Meant(f)] + AllMeant(more)
  {
    hide ProperForm, Meant;
    var dot := rest != "" && rest[0] == '.';
    var parts := [Part(f, dot)] + more;
    assert parts[1..] == more;
    SpellStart(more);
    MeantFirst(parts);
    hide SpellForm;
    if dot {
      assert rest == "." + Spell(more);
    }
  }

  lemma FormParsed(s: string, f: Form, rest: string, tail: string)
    requires ProperForm(f) && s == SpellForm(f) + rest && tail == (if rest != "" && rest[0] == '.' then rest[1..] else rest)
    requires f.Bare? ==> rest == "" || rest[0] in {'.', '['}
    ensures Parsed(s) == Prepend([Meant(f)], Parsed(tail))
  {
    hide Parsed, ProperForm;
    FormFirst(f, rest);
    if f.Numbered? {
      IndexFirst(s, Meant(f), rest);
    } else if rest != "" && rest[0] == '.' {
      assert rest == "." + tail;
      FieldAndDot(s, Meant(f), tail);
    } else {
      FieldFirst(s, Meant(f), rest);
    }
  }

  /** A string is a path exactly if it can be written in this notation, and then it means what is written. */
  lemma ParsedIff(s: string, p: Path)
    ensures Parsed(s) == Ok(p) <==> exists parts :: Proper(parts) && Spell(parts) == s && AllMeant(parts) == p
  {
    hide Parsed, Spell, Proper;
    if Parsed(s) == Ok(p) {
      var parts := ParsedIsSpelled(s);
    }
    if parts :| Proper(parts) && Spell(parts) == s && AllMeant(parts) == p {
      SpelledParses(parts);
    }
  }
}
