/** Finding `${...}` expressions in strings and compiling string templates: `kro/graph/parser/cel.go`. */
module Scanner {
  import opened Text
  import opened Tokens

  /** An expression, where its `${` starts and where its closing brace ends. */
  datatype Match = Match(expr: string, start: nat, end: nat)

  datatype Scan = Nested | Unclosed | Closed(brace: nat)

  predicate OpensAt(s: string, i: nat) {
    i + 1 < |s| && s[i] == '$' && s[i + 1] == '{'
  }

  /** Looks for the brace that closes the `depth` braces open at `i`, minding string literals. */
  function ScanFrom(s: string, i: nat, depth: nat, inString: bool, escaped: bool): (r: Scan)
    requires 0 < i
    ensures r.Closed? ==> i <= r.brace < |s| && s[r.brace] == '}'
    decreases |s| - i
  {
    if i >= |s| then Unclosed
    else if escaped then ScanFrom(s, i + 1, depth, inString, false)
    else if inString && s[i] == '\\' then ScanFrom(s, i + 1, depth, inString, true)
    else if s[i] == '"' then ScanFrom(s, i + 1, depth, !inString, false)
    else if inString then ScanFrom(s, i + 1, depth, inString, false)
    else if s[i] == '{' then ScanFrom(s, i + 1, depth + 1, inString, false)
    else if s[i] == '}' then
      if depth <= 1 then Closed(i) else ScanFrom(s, i + 1, depth - 1, inString, false)
    else if OpensAt(s, i) && s[i - 1] != '"' then Nested
    else ScanFrom(s, i + 1, depth, inString, false)
  }

  /** The first `${` at or after `from`. */
  function FindOpen(s: string, from: nat): (r: Result<nat>)
    ensures r.Ok? ==> from <= r.value && OpensAt(s, r.value) && forall k | from <= k < r.value :: !OpensAt(s, k)
    ensures r.Err? ==> forall k | from <= k :: !OpensAt(s, k)
    decreases |s| - from
  {
    if from >= |s| then Err else if OpensAt(s, from) then Ok(from) else FindOpen(s, from + 1)
  }

  /** The expressions found from `start` on; an error if one of them contains another. */
  function Extract(s: string, start: nat): Result<seq<Match>>
    decreases |s| - start
  {
    match FindOpen(s, start)
    case Err => Ok([])
    case Ok(open) =>
      match ScanFrom(s, open + 2, 1, false, false)
      case Nested => Err
      case Unclosed => Extract(s, open + 1)
      case Closed(brace) => Prepend([Match(s[open + 2..brace], open, brace + 1)], Extract(s, brace + 1))
  }

  /** Starting further on makes no difference as long as no `${` is skipped. */
  lemma {:induction false} ExtractSkips(s: string, start: nat, later: nat)
    requires start <= later && forall k | start <= k < later :: !OpensAt(s, k)
    ensures Extract(s, start) == Extract(s, later)
  {
    FindOpenUnique(s, start, later);
  }

  lemma {:induction false} FindOpenUnique(s: string, start: nat, later: nat)
    requires start <= later && forall k | start <= k < later :: !OpensAt(s, k)
    ensures FindOpen(s, start) == FindOpen(s, later)
    decreases later - start
  {
    if start < later {
      FindOpenUnique(s, start + 1, later);
      if start >= |s| {
        assert FindOpen(s, later) == Err;
      }
    }
  }

  /** The scanning loop. */
  method ScanExpression(s: string, open: nat) returns (r: Scan)
    requires OpensAt(s, open)
    ensures r == ScanFrom(s, open + 2, 1, false, false)
  {
    var bracketCount := 1;
    var endIdx := open + 2;
    var inStringLiteral, escapeNext := false, false;
    while endIdx < |s|
      invariant open + 2 <= endIdx <= |s| && bracketCount > 0
      invariant ScanFrom(s, endIdx, bracketCount, inStringLiteral, escapeNext) == ScanFrom(s, open + 2, 1, false, false)
    {
      var c := s[endIdx];
      if escapeNext {
        escapeNext := false;
        endIdx := endIdx + 1;
        continue;
      }
      if inStringLiteral && c == '\\' {
        escapeNext := true;
        endIdx := endIdx + 1;
        continue;
      }
      if c == '"' {
        inStringLiteral := !inStringLiteral;
      } else if !inStringLiteral {
        if c == '{' {
          bracketCount := bracketCount + 1;
        } else if c == '}' {
          if bracketCount == 1 {
            return Closed(endIdx);
          }
          bracketCount := bracketCount - 1;
        } else if endIdx + 1 < |s| && s[endIdx..endIdx + 2] == "${" {
          if s[endIdx - 1] != '"' {
            return Nested;
          }
        }
      }
      endIdx := endIdx + 1;
    }
    return Unclosed;
  }

  /** One iteration of `Extract`. */
  lemma ExtractStep(s: string, start: nat)
    requires FindOpen(s, start).Ok?
    ensures var open := FindOpen(s, start).value;
            Extract(s, start) ==
            match ScanFrom(s, open + 2, 1, false, false)
            case Nested => Err
            case Unclosed => Extract(s, start + 1)
            case Closed(brace) => Prepend([Match(s[open + 2..brace], open, brace + 1)], Extract(s, brace + 1))
  {
    var open := FindOpen(s, start).value;
    if ScanFrom(s, open + 2, 1, false, false) == Unclosed && start < open {
      ExtractSkips(s, start, start + 1);
    }
  }

  lemma NothingExtracted(s: string, start: nat, matches: seq<Match>)
    requires start >= |s| || FindOpen(s, start).Err?
    ensures Prepend(matches, Extract(s, start)) == Ok(matches)
  {
    assert matches + [] == matches;
  }

  /** Finds all expressions of a string; after an unclosed one it moves on by one character. */
  method ExtractExpressions(s: string) returns (r: Result<seq<Match>>)
    ensures r == Extract(s, 0)
  {
    hide ScanFrom, Extract, FindOpen;
    var matches: seq<Match> := [];
    var start := 0;
    PrependNothing(Extract(s, 0));
    while start < |s|
      invariant 0 <= start <= |s|
      invariant Extract(s, 0) == Prepend(matches, Extract(s, start))
      decreases |s| - start
    {
      var found := FindOpen(s, start);
      if found.Err? {
        NothingExtracted(s, start, matches);
        return Ok(matches);
      }
      ExtractStep(s, start);
      var startIdx := found.value;
      var scan := ScanExpression(s, startIdx);
      match scan {
        case Nested =>
          return Err;
        case Unclosed =>
          start := start + 1;
        case Closed(endIdx) =>
          var m := Match(s[startIdx + 2..endIdx], startIdx, endIdx + 1);
          PrependTwice(matches, [m], Extract(s, endIdx + 1));
          matches := matches + [m];
          start := endIdx + 1;
      }
    }
    NothingExtracted(s, start, matches);
    return Ok(matches);
  }

  predicate IsStandalone(s: string, ms: seq<Match>) {
    |ms| == 1 && ms[0].start == 0 && ms[0].end == |s|
  }

  // ---- Strings as texts and expressions. ----

  datatype Piece = Text(text: string) | Code(expr: string)

  function RenderPiece(p: Piece): string {
    match p case Text(t) => t case Code(e) => "${" + e + "}"
  }

  function Render(ps: seq<Piece>): string {
    if ps == [] then "" else RenderPiece(ps[0]) + Render(ps[1..])
  }

  /** The matches lie one after the other from `from` on, each around its own `${expr}`. */
  predicate Spread(s: string, ms: seq<Match>, from: nat) {
    ms == [] ||
    (&& from <= ms[0].start < ms[0].end <= |s|
     && s[ms[0].start..ms[0].end] == "${" + ms[0].expr + "}"
     && Spread(s, ms[1..], ms[0].end))
  }

  /** The text before a match, if there is any. */
  function Gap(s: string, from: nat, to: nat): seq<Piece>
    requires to <= |s|
  {
    if from < to then [Text(s[from..to])] else []
  }

  /** The matched expressions of `s` from `from` on and the gaps that are not empty. */
  function Pieces(s: string, ms: seq<Match>, from: nat): seq<Piece>
    requires Spread(s, ms, from) && from <= |s|
  {
    if ms == [] then Gap(s, from, |s|)
    else Gap(s, from, ms[0].start) + [Code(ms[0].expr)] + Pieces(s, ms[1..], ms[0].end)
  }

  lemma RenderGap(s: string, from: nat, m: Match, rest: seq<Piece>)
    requires from <= m.start < m.end <= |s| && s[m.start..m.end] == "${" + m.expr + "}" && Render(rest) == s[m.end..]
    ensures Render(Gap(s, from, m.start) + [Code(m.expr)] + rest) == s[from..]
  {
    var code := [Code(m.expr)] + rest;
    assert code[1..] == rest;
    assert Render(code) == s[m.start..m.end] + s[m.end..] == s[m.start..];
    if from < m.start {
      var all := [Text(s[from..m.start])] + [Code(m.expr)] + rest;
      assert all[1..] == code;
      assert s[from..m.start] + s[m.start..] == s[from..];
    } else {
      assert [] + [Code(m.expr)] + rest == code;
    }
  }

  /** `from` lies before the first match, and what follows that match is rebuilt. */
  predicate Rebuilt(s: string, ms: seq<Match>, from: nat) {
    && from <= |s| && Spread(s, ms, from)
    && (ms != [] ==> Render(Pieces(s, ms[1..], ms[0].end)) == s[ms[0].end..])
  }

  lemma RebuiltRenders(s: string, ms: seq<Match>, from: nat)
    requires Rebuilt(s, ms, from)
    ensures Render(Pieces(s, ms, from)) == s[from..]
  {
    if ms == [] {
      assert s[from..|s|] == s[from..];
    } else {
      RenderGap(s, from, ms[0], Pieces(s, ms[1..], ms[0].end));
    }
  }

  lemma RebuiltPrepend(s: string, from: nat, m: Match, ms: seq<Match>)
    requires from <= m.start < m.end <= |s| && s[m.start..m.end] == "${" + m.expr + "}"
    requires Rebuilt(s, ms, m.end)
    ensures Rebuilt(s, [m] + ms, from)
  {
    assert ([m] + ms)[1..] == ms;
    RebuiltRenders(s, ms, m.end);
  }

  lemma {:induction false} ExtractRebuilt(s: string, from: nat)
    requires from <= |s| && Extract(s, from).Ok?
    ensures Rebuilt(s, Extract(s, from).value, from)
    decreases |s| - from
  {
    hide ScanFrom, FindOpen, Extract, Rebuilt;
    ExtractUnfolds(s, from);
    var found := FindOpen(s, from);
    if found.Err? {
      NothingRebuilt(s, from);
    } else {
      var open := found.value;
      match ScanFrom(s, open + 2, 1, false, false) {
        case Unclosed =>
          ExtractRebuilt(s, open + 1);
          RebuiltEarlier(s, Extract(s, from).value, from, open + 1);
        case Closed(brace) =>
          ExtractRebuilt(s, brace + 1);
          MatchText(s, open, brace);
          RebuiltPrepend(s, from, Match(s[open + 2..brace], open, brace + 1), Extract(s, brace + 1).value);
      }
    }
  }

  lemma ExtractUnfolds(s: string, start: nat)
    ensures Extract(s, start) ==
            match FindOpen(s, start)
            case Err => Ok([])
            case Ok(open) =>
              match ScanFrom(s, open + 2, 1, false, false)
              case Nested => Err
              case Unclosed => Extract(s, open + 1)
              case Closed(brace) => Prepend([Match(s[open + 2..brace], open, brace + 1)], Extract(s, brace + 1))
  {
    hide FindOpen, ScanFrom;
  }

  lemma MatchText(s: string, open: nat, brace: nat)
    requires OpensAt(s, open) && open + 2 <= brace < |s| && s[brace] == '}'
    ensures s[open..brace + 1] == "${" + s[open + 2..brace] + "}"
  {
  }

  lemma NothingRebuilt(s: string, from: nat)
    requires from <= |s|
    ensures Rebuilt(s, [], from)
  {
  }

  lemma RebuiltEarlier(s: string, ms: seq<Match>, from: nat, later: nat)
    requires from <= later && Rebuilt(s, ms, later)
    ensures Rebuilt(s, ms, from)
  {
  }

  /** Matches are in bounds, in order and apart, and together with the gaps they rebuild the string. */
  lemma ExtractRebuilds(s: string)
    requires Extract(s, 0).Ok?
    ensures Spread(s, Extract(s, 0).value, 0)
    ensures Render(Pieces(s, Extract(s, 0).value, 0)) == s
  {
    ExtractRebuilt(s, 0);
    RebuiltRenders(s, Extract(s, 0).value, 0);
  }

  // ---- Where expressions end. ----

  predicate Spelled(s: string, i: nat, part: string) {
    i + |part| <= |s| && s[i..i + |part|] == part
  }

  lemma SpelledPart(s: string, i: nat, a: string, b: string)
    requires Spelled(s, i, a + b)
    ensures Spelled(s, i, a) && Spelled(s, i + |a|, b)
  {
    var n := |a + b|;
    assert s[i..i + n][..|a|] == a && s[i..i + n][|a|..] == b;
  }

  /** A literal ends at no character of its own. */
  lemma {:induction false} ScanUnits(s: string, i: nat, units: seq<Unit>, depth: nat)
    requires 0 < i && Spelled(s, i, SpellUnits(units)) && forall u | u in units :: u.Bare? ==> u.c !in {'"', '\\'}
    ensures ScanFrom(s, i, depth, true, false) == ScanFrom(s, i + |SpellUnits(units)|, depth, true, false)
    decreases |units|
  {
    if units != [] {
      var head := match units[0] case Bare(c) => [c] case Escape(c) => ['\\', c];
      SpelledPart(s, i, head, SpellUnits(units[1..]));
      assert units[0] in units;
      assert s[i] == head[0] && (units[0].Escape? ==> s[i + 1] == head[1]);
      if units[0].Escape? {
        assert ScanFrom(s, i, depth, true, false) == ScanFrom(s, i + 1, depth, true, true);
      }
      ScanUnits(s, i + |head|, units[1..], depth);
    }
  }

  /** One step outside string literals. */
  lemma ScanStep(s: string, i: nat, depth: nat)
    requires 0 < i < |s|
    ensures var r := ScanFrom(s, i, depth, false, false);
            && (s[i] == '"' ==> r == ScanFrom(s, i + 1, depth, true, false))
            && (s[i] == '{' ==> r == ScanFrom(s, i + 1, depth + 1, false, false))
            && (s[i] == '}' && depth > 1 ==> r == ScanFrom(s, i + 1, depth - 1, false, false))
            && (s[i] !in {'"', '{', '}'} && (!OpensAt(s, i) || s[i - 1] == '"') ==> r == ScanFrom(s, i + 1, depth, false, false))
    ensures s[i] == '"' ==> ScanFrom(s, i, depth, true, false) == ScanFrom(s, i + 1, depth, false, false)
  {
  }

  lemma ScanLiteral(s: string, i: nat, units: seq<Unit>, depth: nat)
    requires 0 < i && Spelled(s, i, SpellToken(Literal(units))) && ProperToken(Literal(units))
    ensures ScanFrom(s, i, depth, false, false) == ScanFrom(s, i + |SpellToken(Literal(units))|, depth, false, false)
  {
    hide ScanFrom;
    var body := SpellUnits(units);
    SpelledPart(s, i, "\"" + body, "\"");
    SpelledPart(s, i, "\"", body);
    assert s[i] == '"' && s[i + 1 + |body|] == '"';
    ScanStep(s, i, depth);
    ScanUnits(s, i + 1, units, depth);
    ScanStep(s, i + 1 + |body|, depth);
  }

  lemma SpelledBraces(s: string, i: nat, inner: seq<Token>)
    requires Spelled(s, i, SpellToken(Braces(inner)))
    ensures |SpellToken(Braces(inner))| == |Spell(inner)| + 2 && i + 1 + |Spell(inner)| < |s|
    ensures s[i] == '{' && Spelled(s, i + 1, Spell(inner)) && s[i + 1 + |Spell(inner)|] == '}'
  {
    SpelledPart(s, i, "{" + Spell(inner), "}");
    SpelledPart(s, i, "{", Spell(inner));
  }

  lemma {:induction false} ScanToken(s: string, i: nat, t: Token, depth: nat)
    requires 0 < i && 0 < depth && ProperToken(t) && Spelled(s, i, SpellToken(t))
    requires t == Char('$') ==> s[i - 1] == '"' || i + 1 == |s| || s[i + 1] != '{'
    ensures ScanFrom(s, i, depth, false, false) == ScanFrom(s, i + |SpellToken(t)|, depth, false, false)
    decreases t, 0
  {
    hide ScanFrom;
    match t {
      case Char(c) =>
        assert s[i..i + 1][0] == c;
        ScanStep(s, i, depth);
      case Literal(units) =>
        ScanLiteral(s, i, units, depth);
      case Braces(inner) =>
        SpelledBraces(s, i, inner);
        hide Spelled, SpellToken;
        ScanStep(s, i, depth);
        ScanTokens(s, i + 1, inner, false, depth + 1);
        ScanStep(s, i + 1 + |Spell(inner)|, depth + 1);
    }
  }

  /** Braces and literals that are closed do not change the depth. */
  lemma {:induction false} ScanTokens(s: string, i: nat, ts: seq<Token>, quoted: bool, depth: nat)
    requires 0 < i && 0 < depth && Proper(ts, quoted) && Spelled(s, i, Spell(ts)) && (quoted ==> s[i - 1] == '"')
    requires DollarLast(ts, quoted) ==> i + |Spell(ts)| == |s| || s[i + |Spell(ts)|] != '{'
    ensures ScanFrom(s, i, depth, false, false) == ScanFrom(s, i + |Spell(ts)|, depth, false, false)
    decreases ts, 1
  {
    hide ScanFrom;
    if ts != [] {
      var n := |SpellToken(ts[0])|;
      SpelledPart(s, i, SpellToken(ts[0]), Spell(ts[1..]));
      NextStarts(s, i + n, ts[1..]);
      ScanToken(s, i, ts[0], depth);
      assert ts[0].Literal? ==> s[i + n - 1] == '"';
      ScanTokens(s, i + n, ts[1..], ts[0].Literal?, depth);
    }
  }

  /** Only braces start with a brace. */
  lemma NextStarts(s: string, i: nat, ts: seq<Token>)
    requires Spelled(s, i, Spell(ts)) && Proper(ts, true)
    ensures ts != [] ==> i < |s| && (s[i] == '{' <==> ts[0].Braces?)
  {
    if ts != [] {
      SpelledPart(s, i, SpellToken(ts[0]), Spell(ts[1..]));
      assert s[i] == SpellToken(ts[0])[0];
    }
  }

  /** What is closed at a greater depth closes the innermost braces first. */
  lemma {:induction false} InnerCloses(s: string, i: nat, inner: nat, outer: nat, inString: bool, escaped: bool)
    requires 0 < i && 0 < inner && 0 < outer && ScanFrom(s, i, inner + outer, inString, escaped).Closed?
    ensures var r := ScanFrom(s, i, inner, inString, escaped);
            && r.Closed? && r.brace < ScanFrom(s, i, inner + outer, inString, escaped).brace
            && ScanFrom(s, r.brace + 1, outer, false, false) == ScanFrom(s, i, inner + outer, inString, escaped)
    decreases |s| - i
  {
    var esc := !escaped && inString && s[i] == '\\';
    var quote := !escaped && !esc && s[i] == '"';
    var opens := !escaped && !esc && !quote && !inString && s[i] == '{';
    var closes := !escaped && !esc && !quote && !inString && s[i] == '}';
    if !(closes && inner == 1) {
      InnerCloses(s, i + 1, if opens then inner + 1 else if closes then inner - 1 else inner, outer, if quote then !inString else inString, esc);
    }
  }

  /** A literal that is scanned to its end. */
  lemma {:induction false} LiteralOf(s: string, i: nat, depth: nat) returns (units: seq<Unit>)
    requires 0 < i && ScanFrom(s, i, depth, true, false).Closed?
    ensures ProperToken(Literal(units)) && Spelled(s, i, SpellUnits(units) + "\"")
    ensures ScanFrom(s, i, depth, true, false) == ScanFrom(s, i + |SpellUnits(units)| + 1, depth, false, false)
    decreases |s| - i
  {
    if s[i] == '"' {
      units := [];
    } else {
      var u := if s[i] == '\\' then Escape(s[i + 1]) else Bare(s[i]);
      if u.Escape? {
        assert ScanFrom(s, i, depth, true, false) == ScanFrom(s, i + 1, depth, true, true);
      }
      var rest := LiteralOf(s, i + if u.Escape? then 2 else 1, depth);
      hide ScanFrom;
      units := [u] + rest;
      UnitSpelled(s, i, u, rest);
    }
  }

  lemma UnitSpelled(s: string, i: nat, u: Unit, rest: seq<Unit>)
    requires i < |s| && (if u.Escape? then i + 1 < |s| && s[i] == '\\' && s[i + 1] == u.c else s[i] == u.c)
    requires Spelled(s, i + if u.Escape? then 2 else 1, SpellUnits(rest) + "\"")
    ensures Spelled(s, i, SpellUnits([u] + rest) + "\"") && |SpellUnits([u] + rest)| == |SpellUnits(rest)| + if u.Escape? then 2 else 1
  {
    var head := if u.Escape? then ['\\', u.c] else [u.c];
    assert Spelled(s, i, head);
    SpelledMore(s, i, head, SpellUnits(rest) + "\"");
    assert ([u] + rest)[1..] == rest;
    assert head + SpellUnits(rest) + "\"" == head + (SpellUnits(rest) + "\"");
  }

  lemma SpelledMore(s: string, i: nat, a: string, b: string)
    requires Spelled(s, i, a) && Spelled(s, i + |a|, b)
    ensures Spelled(s, i, a + b)
  {
    var n := |a| + |b|;
    assert s[i..i + n] == s[i..i + |a|] + s[i + |a|..i + n];
  }

  /** What is scanned up to the closing brace is made of tokens. */
  lemma {:induction false} TokensOf(s: string, i: nat) returns (ts: seq<Token>)
    requires 0 < i && ScanFrom(s, i, 1, false, false).Closed?
    ensures Proper(ts, s[i - 1] == '"') && Spelled(s, i, Spell(ts)) && ScanFrom(s, i, 1, false, false) == Closed(i + |Spell(ts)|)
    decreases |s| - i
  {
    if s[i] == '}' {
      ts := [];
    } else {
      var t := TokenAt(s, i);
      hide ScanFrom;
      var rest := TokensOf(s, i + |SpellToken(t)|);
      ts := [t] + rest;
      TokenAdded(s, i, t, rest);
    }
  }

  lemma TokenAdded(s: string, i: nat, t: Token, rest: seq<Token>)
    requires 0 < i && ProperToken(t) && Spelled(s, i, SpellToken(t)) && |SpellToken(t)| > 0
    requires var n := |SpellToken(t)|; Spelled(s, i + n, Spell(rest)) && Proper(rest, s[i + n - 1] == '"')
    requires t == Char('$') && s[i - 1] != '"' ==> i + 1 < |s| && s[i + 1] != '{'
    ensures Proper([t] + rest, s[i - 1] == '"') && Spelled(s, i, Spell([t] + rest))
    ensures |Spell([t] + rest)| == |SpellToken(t)| + |Spell(rest)|
  {
    SpelledMore(s, i, SpellToken(t), Spell(rest));
    assert ([t] + rest)[1..] == rest;
    LastOf(s, i, t);
    NextStarts(s, i + |SpellToken(t)|, rest);
  }

  lemma LastOf(s: string, i: nat, t: Token)
    requires Spelled(s, i, SpellToken(t)) && ProperToken(t)
    ensures s[i + |SpellToken(t)| - 1] == '"' <==> t.Literal?
  {
    var part := SpellToken(t);
    assert s[i + |part| - 1] == part[|part| - 1];
  }

  lemma {:induction false} TokenAt(s: string, i: nat) returns (t: Token)
    requires 0 < i < |s| && ScanFrom(s, i, 1, false, false).Closed? && s[i] != '}'
    ensures ProperToken(t) && Spelled(s, i, SpellToken(t)) && |SpellToken(t)| > 0
    ensures ScanFrom(s, i, 1, false, false) == ScanFrom(s, i + |SpellToken(t)|, 1, false, false)
    ensures t == Char('$') && s[i - 1] != '"' ==> i + 1 < |s| && s[i + 1] != '{'
    decreases |s| - i, 0
  {
    hide ScanFrom, Spelled;
    if s[i] == '"' {
      ScanStep(s, i, 1);
      var units := LiteralOf(s, i + 1, 1);
      t := Literal(units);
      LiteralSpelled(s, i, units);
    } else if s[i] == '{' {
      BraceInside(s, i);
      var inner := TokensOf(s, i + 1);
      t := Braces(inner);
      BracesSpelled(s, i, inner);
    } else {
      t := Char(s[i]);
      CharScanned(s, i);
    }
  }

  lemma BraceInside(s: string, i: nat)
    requires 0 < i < |s| && ScanFrom(s, i, 1, false, false).Closed? && s[i] == '{'
    ensures var r := ScanFrom(s, i + 1, 1, false, false);
            r.Closed? && ScanFrom(s, i, 1, false, false) == ScanFrom(s, r.brace + 1, 1, false, false)
  {
    hide ScanFrom;
    ScanStep(s, i, 1);
    InnerCloses(s, i + 1, 1, 1, false, false);
  }

  lemma CharScanned(s: string, i: nat)
    requires 0 < i < |s| && ScanFrom(s, i, 1, false, false).Closed? && s[i] !in {'"', '{', '}'}
    ensures Spelled(s, i, [s[i]]) && ScanFrom(s, i, 1, false, false) == ScanFrom(s, i + 1, 1, false, false)
    ensures s[i] == '$' && s[i - 1] != '"' ==> i + 1 < |s| && s[i + 1] != '{'
  {
  }

  lemma LiteralSpelled(s: string, i: nat, units: seq<Unit>)
    requires i < |s| && s[i] == '"' && Spelled(s, i + 1, SpellUnits(units) + "\"")
    ensures Spelled(s, i, SpellToken(Literal(units))) && |SpellToken(Literal(units))| == |SpellUnits(units)| + 2
  {
    SpelledMore(s, i, "\"", SpellUnits(units) + "\"");
    assert SpellToken(Literal(units)) == "\"" + (SpellUnits(units) + "\"");
  }

  lemma BracesSpelled(s: string, i: nat, inner: seq<Token>)
    requires Spelled(s, i + 1, Spell(inner)) && s[i] == '{' && i + 1 + |Spell(inner)| < |s| && s[i + 1 + |Spell(inner)|] == '}'
    ensures Spelled(s, i, SpellToken(Braces(inner))) && |SpellToken(Braces(inner))| == |Spell(inner)| + 2
  {
    SpelledMore(s, i, "{", Spell(inner));
    SpelledMore(s, i, "{" + Spell(inner), "}");
  }

  /** Scanning a text as an expression ends at the brace that is put after it. */
  predicate Complete(e: string) {
    ScanFrom("${" + e + "}", 2, 1, false, false) == Closed(|e| + 2)
  }

  /** That is so exactly for texts that close their own string literals and braces and have no `${` in them. */
  lemma CompleteIff(e: string)
    ensures Complete(e) <==> IsExpression(e)
  {
    hide ScanFrom;
    var code := "${" + e + "}";
    assert code[1] == '{' && code[2 + |e|] == '}' && code[2..2 + |e|] == e;
    if IsExpression(e) {
      var ts :| Proper(ts, false) && Spell(ts) == e;
      ScanTokens(code, 2, ts, false, 1);
      ClosesAt(code, 2 + |e|);
    }
    if Complete(e) {
      var ts := TokensOf(code, 2);
      assert Spell(ts) == e;
    }
  }

  lemma ClosesAt(s: string, i: nat)
    requires 0 < i < |s| && s[i] == '}'
    ensures ScanFrom(s, i, 1, false, false) == Closed(i)
  {
  }

  /** Everything that is extracted closes its own string literals and braces, so it ends at the first brace that closes it. */
  lemma {:induction false} ExtractedAreExpressions(s: string, from: nat)
    requires Extract(s, from).Ok?
    ensures forall m | m in Extract(s, from).value :: IsExpression(m.expr)
    decreases |s| - from
  {
    hide ScanFrom, FindOpen, Extract, IsExpression;
    ExtractUnfolds(s, from);
    if FindOpen(s, from).Ok? {
      var open := FindOpen(s, from).value;
      match ScanFrom(s, open + 2, 1, false, false) {
        case Unclosed =>
          ExtractedAreExpressions(s, open + 1);
        case Closed(brace) =>
          ExtractedAreExpressions(s, brace + 1);
          ScannedIsExpression(s, open, brace);
      }
    }
  }

  lemma ScannedIsExpression(s: string, open: nat, brace: nat)
    requires OpensAt(s, open) && ScanFrom(s, open + 2, 1, false, false) == Closed(brace)
    ensures IsExpression(s[open + 2..brace])
  {
    hide ScanFrom;
    var ts := TokensOf(s, open + 2);
    assert Spell(ts) == s[open + 2..brace];
  }

  // ---- Expressions that do not end. ----

  /** Every brace that is left open is one more to close. */
  lemma {:induction false} ScanOpen(s: string, i: nat, levels: seq<seq<Token>>, depth: nat)
    requires 0 < i && 0 < depth && levels != [] && ProperOpen(levels) && Spelled(s, i, SpellOpen(levels))
    requires DollarLast(levels[|levels| - 1], false) ==> i + |SpellOpen(levels)| == |s| || s[i + |SpellOpen(levels)|] != '{'
    ensures ScanFrom(s, i, depth, false, false) == ScanFrom(s, i + |SpellOpen(levels)|, depth + |levels| - 1, false, false)
    decreases |levels|
  {
    hide ScanFrom, ProperOpen, Spell, Proper, Spelled, DollarLast;
    OpenTail(levels);
    if |levels| == 1 {
      assert SpellOpen(levels) == Spell(levels[0]);
      ScanTokens(s, i, levels[0], false, depth);
    } else {
      var n := |Spell(levels[0])|;
      assert SpellOpen(levels) == Spell(levels[0]) + "{" + SpellOpen(levels[1..]);
      hide SpellOpen;
      BraceSpelled(s, i, Spell(levels[0]), SpellOpen(levels[1..]));
      ScanTokens(s, i, levels[0], false, depth);
      ScanStep(s, i + n, depth);
      ScanOpen(s, i + n + 1, levels[1..], depth + 1);
    }
  }

  lemma OpenTail(levels: seq<seq<Token>>)
    requires levels != [] && ProperOpen(levels)
    ensures Proper(levels[0], false) && ProperOpen(levels[1..]) && (|levels| > 1 ==> !DollarLast(levels[0], false))
  {
    assert ProperOpen(levels[..1]);
  }

  lemma BraceSpelled(s: string, i: nat, first: string, rest: string)
    requires Spelled(s, i, first + "{" + rest)
    ensures var n := |first|; i + n < |s| && Spelled(s, i, first) && s[i + n] == '{' && Spelled(s, i + n + 1, rest)
  {
    SpelledPart(s, i, first + "{", rest);
    SpelledPart(s, i, first, "{");
  }

  /** A `${` inside an expression is an error, whatever braces are open and whatever comes after it; not so after a literal. */
  lemma NestedRefused(levels: seq<seq<Token>>, more: string)
    requires levels != [] && ProperOpen(levels) && !LiteralLast(levels[|levels| - 1])
    ensures Extract("${" + SpellOpen(levels) + "${" + more, 0) == Err
  {
    hide ScanFrom;
    var inner := SpellOpen(levels);
    var s, n := "${" + inner + "${" + more, |inner|;
    assert Spelled(s, 2, inner) && OpensAt(s, 0) && OpensAt(s, n + 2) && s[n + 2] == '$';
    ScanOpen(s, 2, levels, 1);
    OpenLast(levels);
    assert n > 0 ==> s[n + 1] == inner[n - 1];
    NestedAt(s, n + 2, |levels|);
  }

  lemma NestedAt(s: string, i: nat, depth: nat)
    requires 0 < i && OpensAt(s, i) && s[i - 1] != '"'
    ensures ScanFrom(s, i, depth, false, false) == Nested
  {
  }

  predicate LiteralLast(ts: seq<Token>) {
    ts != [] && ts[|ts| - 1].Literal?
  }

  lemma {:induction false} LastSpelled(ts: seq<Token>, quoted: bool)
    requires Proper(ts, quoted) && ts != []
    ensures Spell(ts) != "" && (Spell(ts)[|Spell(ts)| - 1] == '"' <==> LiteralLast(ts))
  {
    var first := SpellToken(ts[0]);
    assert first[|first| - 1] == '"' <==> ts[0].Literal?;
    if |ts| > 1 {
      LastSpelled(ts[1..], ts[0].Literal?);
    } else {
      assert Spell(ts) == first + "";
    }
  }

  lemma {:induction false} OpenLast(levels: seq<seq<Token>>)
    requires levels != [] && ProperOpen(levels)
    ensures var inner := SpellOpen(levels); inner != "" && inner[|inner| - 1] == '"' ==> LiteralLast(levels[|levels| - 1])
    decreases |levels|
  {
    assert Proper(levels[0], false);
    if |levels| > 1 {
      assert ProperOpen(levels[1..]);
      OpenLast(levels[1..]);
    } else if levels[0] != [] {
      LastSpelled(levels[0], false);
    }
  }

  /** Where braces are never closed, scanning starts again behind the first dollar sign. */
  lemma OpenRescans(levels: seq<seq<Token>>)
    requires levels != [] && ProperOpen(levels)
    ensures Extract("${" + SpellOpen(levels), 0) == Extract("${" + SpellOpen(levels), 1)
  {
    hide ScanFrom;
    var s := "${" + SpellOpen(levels);
    assert Spelled(s, 2, SpellOpen(levels)) && OpensAt(s, 0);
    ScanOpen(s, 2, levels, 1);
    EndReached(s, |s|, |levels|);
    ExtractStep(s, 0);
  }

  lemma EndReached(s: string, i: nat, depth: nat)
    requires 0 < i && |s| <= i
    ensures forall inString :: ScanFrom(s, i, depth, inString, false) == Unclosed
  {
  }

  lemma LiteralBegins(inner: string, last: string)
    ensures var s, n := "${" + inner + "\"" + last, |inner|;
            Spelled(s, 2, inner) && OpensAt(s, 0) && s[n + 2] == '"' && Spelled(s, n + 3, last) && |s| == n + 3 + |last|
  {
  }

  lemma FirstOpens(s: string)
    requires OpensAt(s, 0)
    ensures FindOpen(s, 0) == Ok(0)
  {
  }

  /** So it does where a literal is never closed: expressions that were in the literal are found then. */
  lemma OpenLiteralRescans(levels: seq<seq<Token>>, units: seq<Unit>)
    requires levels != [] && ProperOpen(levels) && forall u | u in units :: u.Bare? ==> u.c !in {'"', '\\'}
    ensures var s := "${" + SpellOpen(levels) + "\"" + SpellUnits(units); Extract(s, 0) == Extract(s, 1)
  {
    hide ScanFrom, Extract, SpellOpen, SpellUnits, ProperOpen;
    var inner, last := SpellOpen(levels), SpellUnits(units);
    var s, n := "${" + inner + "\"" + last, |inner|;
    LiteralBegins(inner, last);
    FirstOpens(s);
    hide Spelled;
    ScanOpen(s, 2, levels, 1);
    ScanStep(s, n + 2, |levels|);
    ScanUnits(s, n + 3, units, |levels|);
    EndReached(s, |s|, |levels|);
    ExtractStep(s, 0);
  }

  // ---- Rendered pieces are found again. ----

  /**
    Texts are not empty, have no `${` in them and do not follow each other; expressions close their own literals and
    braces and have no `${` in them.
   */
  ghost predicate WellFormedAt(ps: seq<Piece>, k: nat)
    requires k < |ps|
  {
    match ps[k]
    case Text(t) => t != "" && (forall i | 0 <= i < |t| :: !OpensAt(t, i)) && (k + 1 < |ps| ==> ps[k + 1].Code?)
    case Code(e) => IsExpression(e)
  }

  ghost predicate WellFormed(ps: seq<Piece>) {
    forall k | 0 <= k < |ps| :: WellFormedAt(ps, k)
  }

  function Shift(ms: seq<Match>, n: nat): (r: seq<Match>)
    ensures |r| == |ms|
    ensures forall k | 0 <= k < |ms| :: r[k] == Match(ms[k].expr, ms[k].start + n, ms[k].end + n)
  {
    seq(|ms|, k requires 0 <= k < |ms| => Match(ms[k].expr, ms[k].start + n, ms[k].end + n))
  }

  function ShiftScan(r: Scan, n: nat): Scan {
    if r.Closed? then Closed(r.brace + n) else r
  }

  lemma {:induction false} ScanShifts(a: string, b: string, i: nat, depth: nat, inString: bool, escaped: bool)
    requires 0 < i
    ensures ScanFrom(a + b, |a| + i, depth, inString, escaped) == ShiftScan(ScanFrom(b, i, depth, inString, escaped), |a|)
    decreases |b| - i
  {
    if i < |b| {
      assert (a + b)[|a| + i] == b[i] && (a + b)[|a| + i - 1] == b[i - 1];
      assert OpensAt(a + b, |a| + i) == OpensAt(b, i);
      var esc := !escaped && inString && b[i] == '\\';
      var quote := !escaped && !esc && b[i] == '"';
      var opens := !escaped && !esc && !quote && !inString && b[i] == '{';
      var closes := !escaped && !esc && !quote && !inString && b[i] == '}';
      if !(closes && depth <= 1) {
        ScanShifts(a, b, i + 1, if opens then depth + 1 else if closes then depth - 1 else depth, if quote then !inString else inString, esc);
      }
    }
  }

  /** Once the closing brace is found, what follows it does not matter. */
  lemma {:induction false} ScanExtends(a: string, b: string, i: nat, depth: nat, inString: bool, escaped: bool)
    requires 0 < i && ScanFrom(a, i, depth, inString, escaped).Closed?
    ensures ScanFrom(a + b, i, depth, inString, escaped) == ScanFrom(a, i, depth, inString, escaped)
    decreases |a| - i
  {
    assert (a + b)[i] == a[i] && (a + b)[i - 1] == a[i - 1];
    assert i + 1 < |a| ==> OpensAt(a + b, i) == OpensAt(a, i);
    var esc := !escaped && inString && a[i] == '\\';
    var quote := !escaped && !esc && a[i] == '"';
    var opens := !escaped && !esc && !quote && !inString && a[i] == '{';
    var closes := !escaped && !esc && !quote && !inString && a[i] == '}';
    if !(closes && depth <= 1) {
      ScanExtends(a, b, i + 1, if opens then depth + 1 else if closes then depth - 1 else depth, if quote then !inString else inString, esc);
    }
  }

  lemma {:induction false} FindOpenShifts(a: string, b: string, k: nat)
    ensures FindOpen(a + b, |a| + k) == match FindOpen(b, k) case Ok(i) => Ok(|a| + i) case Err => Err
    decreases |b| - k
  {
    if k < |b| {
      assert OpensAt(a + b, |a| + k) == OpensAt(b, k);
      FindOpenShifts(a, b, k + 1);
    }
  }

  function ShiftResult(r: Result<seq<Match>>, n: nat): Result<seq<Match>> {
    match r case Ok(ms) => Ok(Shift(ms, n)) case Err => Err
  }

  lemma ShiftPrepend(m: Match, r: Result<seq<Match>>, n: nat)
    ensures ShiftResult(Prepend([m], r), n) == Prepend([Match(m.expr, m.start + n, m.end + n)], ShiftResult(r, n))
  {
    if r.Ok? {
      assert Shift([m] + r.value, n) == [Match(m.expr, m.start + n, m.end + n)] + Shift(r.value, n);
    }
  }

  lemma {:induction false} ExtractShifts(a: string, b: string, k: nat)
    ensures Extract(a + b, |a| + k) == ShiftResult(Extract(b, k), |a|)
    decreases |b| - k
  {
    hide ScanFrom, FindOpen, ShiftResult;
    FindOpenShifts(a, b, k);
    if FindOpen(b, k).Ok? {
      var open := FindOpen(b, k).value;
      ScanShifts(a, b, open + 2, 1, false, false);
      match ScanFrom(b, open + 2, 1, false, false) {
        case Nested =>
          ShiftErr(|a|);
        case Unclosed =>
          ExtractShifts(a, b, open + 1);
        case Closed(brace) =>
          ExtractShifts(a, b, brace + 1);
          assert (a + b)[|a| + open + 2..|a| + brace] == b[open + 2..brace];
          ShiftPrepend(Match(b[open + 2..brace], open, brace + 1), Extract(b, brace + 1), |a|);
      }
    } else {
      ShiftErr(|a|);
    }
  }

  lemma ShiftErr(n: nat)
    ensures ShiftResult(Err, n) == Err && ShiftResult(Ok([]), n) == Ok([])
  {
    assert Shift([], n) == [];
  }

  lemma GapShift(a: string, b: string, from: nat, to: nat)
    requires to <= |b|
    ensures Gap(a + b, |a| + from, |a| + to) == Gap(b, from, to)
  {
    if from < to {
      assert (a + b)[|a| + from..|a| + to] == b[from..to];
    }
  }

  lemma {:induction false} PiecesShift(a: string, b: string, ms: seq<Match>, from: nat)
    requires Spread(b, ms, from) && from <= |b|
    ensures Spread(a + b, Shift(ms, |a|), |a| + from)
    ensures Pieces(a + b, Shift(ms, |a|), |a| + from) == Pieces(b, ms, from)
    decreases |ms|
  {
    hide Gap, Shift;
    if ms == [] {
      GapShift(a, b, from, |b|);
      assert Shift(ms, |a|) == [];
    } else {
      var m := ms[0];
      PiecesShift(a, b, ms[1..], m.end);
      ShiftTail(ms, |a|);
      assert (a + b)[|a| + m.start..|a| + m.end] == b[m.start..m.end];
      GapShift(a, b, from, m.start);
    }
  }

  lemma ShiftTail(ms: seq<Match>, n: nat)
    requires ms != []
    ensures Shift(ms, n)[1..] == Shift(ms[1..], n)
  {
  }

  /** What is extracted from the rendered pieces are these pieces. */
  ghost predicate FoundAgain(ps: seq<Piece>) {
    var s := Render(ps);
    Extract(s, 0).Ok? && Spread(s, Extract(s, 0).value, 0) && Pieces(s, Extract(s, 0).value, 0) == ps
  }

  /** Rendering well-formed pieces and extracting gives exactly those pieces back. */
  lemma {:induction false} ExtractRender(ps: seq<Piece>)
    requires WellFormed(ps)
    ensures FoundAgain(ps)
    decreases |ps|
  {
    if ps == [] {
      assert FoundAgain([]);
    } else {
      hide FoundAgain;
      WellFormedTail(ps);
      ExtractRender(ps[1..]);
      if ps[0].Text? {
        TextFoundAgain(ps);
      } else {
        CodeFoundAgain(ps);
      }
    }
  }

  lemma TextFoundAgain(ps: seq<Piece>)
    requires WellFormed(ps) && ps != [] && ps[0].Text? && FoundAgain(ps[1..])
    ensures FoundAgain(ps)
  {
    hide Extract, Spread, Pieces, OpensAt, Shift;
    var t, rest := ps[0].text, Render(ps[1..]);
    assert Render(ps) == t + rest && |t| + 0 == |t|;
    var ms := Extract(rest, 0).value;
    assert WellFormedAt(ps, 0);
    TextSkipped(ps);
    ExtractShifts(t, rest, 0);
    TextPiece(t, rest, ms);
    assert ps == [ps[0]] + ps[1..];
  }

  lemma CodeFoundAgain(ps: seq<Piece>)
    requires WellFormed(ps) && ps != [] && ps[0].Code? && FoundAgain(ps[1..])
    ensures FoundAgain(ps)
  {
    hide Extract;
    var e, rest := ps[0].expr, Render(ps[1..]);
    var head := "${" + e + "}";
    var ms := Extract(rest, 0).value;
    assert WellFormedAt(ps, 0);
    CompleteIff(e);
    CodeFound(e, rest);
    ExtractShifts(head, rest, 0);
    PiecesShift(head, rest, ms, 0);
    var all := [Match(e, 0, |head|)] + Shift(ms, |head|);
    assert all[1..] == Shift(ms, |head|);
    assert (head + rest)[0..|head|] == head;
    assert ps == [] + [ps[0]] + ps[1..];
  }

  lemma WellFormedTail(ps: seq<Piece>)
    requires WellFormed(ps) && ps != []
    ensures WellFormed(ps[1..])
  {
    forall k | 0 <= k < |ps[1..]| ensures WellFormedAt(ps[1..], k) {
      assert WellFormedAt(ps, k + 1);
    }
  }

  lemma TextSkipped(ps: seq<Piece>)
    requires WellFormed(ps) && ps != [] && ps[0].Text?
    ensures Extract(Render(ps), 0) == Extract(Render(ps), |ps[0].text|)
  {
    hide Extract;
    var t, s := ps[0].text, Render(ps);
    assert WellFormedAt(ps, 0);
    if |ps| > 1 {
      assert Render(ps[1..])[0] == RenderPiece(ps[1])[0] == '$';
    }
    forall k | 0 <= k < |t| ensures !OpensAt(s, k) {
      assert !OpensAt(t, k);
      assert s[k] == t[k] && (k + 1 < |t| ==> s[k + 1] == t[k + 1]);
    }
    ExtractSkips(s, 0, |t|);
  }

  /** A text before the matches of `rest` becomes one more piece, unless it runs into another text. */
  lemma TextPiece(t: string, rest: string, ms: seq<Match>)
    requires t != "" && Spread(rest, ms, 0)
    requires Pieces(rest, ms, 0) == [] || Pieces(rest, ms, 0)[0].Code?
    ensures Spread(t + rest, Shift(ms, |t|), 0)
    ensures Pieces(t + rest, Shift(ms, |t|), 0) == [Text(t)] + Pieces(rest, ms, 0)
  {
    var s, shifted := t + rest, Shift(ms, |t|);
    PiecesShift(t, rest, ms, 0);
    assert s[0..|t|] == t;
    if ms != [] {
      assert Gap(rest, 0, ms[0].start) == [];
      var more := Pieces(s, shifted[1..], shifted[0].end);
      assert Pieces(rest, ms, 0) == [] + [Code(ms[0].expr)] + more;
      assert [Text(t)] + [Code(ms[0].expr)] + more == [Text(t)] + ([] + [Code(ms[0].expr)] + more);
    }
  }

  lemma CodeFound(e: string, rest: string)
    requires Complete(e)
    ensures var s := "${" + e + "}" + rest;
            Extract(s, 0) == Prepend([Match(e, 0, |e| + 3)], Extract(s, |e| + 3))
  {
    var code := "${" + e + "}";
    ScanExtends(code, rest, 2, 1, false, false);
    assert OpensAt(code + rest, 0);
    assert (code + rest)[2..|e| + 2] == e;
  }

  // ---- Compiling string templates. ----

  /** `strconv.Quote`, as far as it concerns quotation marks, backslashes and line breaks. */
  function Quote(s: string): string {
    "\"" + Escaped(s) + "\""
  }

  function Escaped(s: string): string {
    if s == "" then "" else EscapedChar(s[0]) + Escaped(s[1..])
  }

  function EscapedChar(c: char): string {
    match c
    case '"' => "\\\""
    case '\\' => "\\\\"
    case '\n' => "\\n"
    case '\r' => "\\r"
    case '\t' => "\\t"
    case _ => [c]
  }

  /** The value of a CEL string literal, between its quotation marks. */
  function Unescaped(s: string): string {
    if s == "" then ""
    else if s[0] != '\\' || |s| == 1 then [s[0]] + Unescaped(s[1..])
    else [match s[1] case 'n' => '\n' case 'r' => '\r' case 't' => '\t' case c => c] + Unescaped(s[2..])
  }

  /** Quotation keeps a text on one line. */
  lemma {:induction false} EscapedOnOneLine(s: string)
    ensures forall k | 0 <= k < |Escaped(s)| :: Escaped(s)[k] !in {'\n', '\r', '\t'}
  {
    if s != "" {
      EscapedOnOneLine(s[1..]);
    }
  }

  lemma {:induction false} UnescapedEscaped(s: string)
    ensures Unescaped(Escaped(s)) == s
  {
    hide Unescaped, EscapedChar;
    if s != "" {
      UnescapedEscaped(s[1..]);
      UnescapedChar(s[0], Escaped(s[1..]));
      assert s == [s[0]] + s[1..];
    } else {
      UnescapedNothing();
    }
  }

  lemma UnescapedNothing()
    ensures Unescaped("") == ""
  {
  }

  lemma UnescapedChar(c: char, tail: string)
    ensures Unescaped(EscapedChar(c) + tail) == [c] + Unescaped(tail)
  {
    var head := EscapedChar(c);
    assert (head + tail)[|head|..] == tail;
    assert forall k | 0 <= k < |head| :: (head + tail)[k] == head[k];
  }

  function Operand(p: Piece): string {
    match p case Text(t) => Quote(t) case Code(e) => "(" + e + ")"
  }

  function Operands(ps: seq<Piece>): (r: seq<string>)
    ensures |r| == |ps| && forall k | 0 <= k < |ps| :: r[k] == Operand(ps[k])
  {
    seq(|ps|, k requires 0 <= k < |ps| => Operand(ps[k]))
  }

  /** `strings.Join` with " + ". */
  function Joined(parts: seq<string>): string {
    if parts == [] then ""
    else if |parts| == 1 then parts[0]
    else parts[0] + " + " + Joined(parts[1..])
  }

  /** What an operand of the concatenation stands for when `value` gives the values of expressions. */
  function OperandValue(operand: string, value: string -> string): string {
    if |operand| < 2 then ""
    else
      var inner := operand[1..|operand| - 1];
      if operand[0] == '"' then Unescaped(inner) else value(inner)
  }

  function Concatenation(operands: seq<string>, value: string -> string): string {
    if operands == [] then "" else OperandValue(operands[0], value) + Concatenation(operands[1..], value)
  }

  /** The text with each expression replaced by its value. */
  function Filled(ps: seq<Piece>, value: string -> string): string {
    if ps == [] then ""
    else (match ps[0] case Text(t) => t case Code(e) => value(e)) + Filled(ps[1..], value)
  }

  /** The compiled concatenation means the template with its expressions replaced by their values. */
  lemma {:induction false} ConcatenationFills(ps: seq<Piece>, value: string -> string)
    ensures Concatenation(Operands(ps), value) == Filled(ps, value)
  {
    if ps != [] {
      ConcatenationFills(ps[1..], value);
      assert Operands(ps)[1..] == Operands(ps[1..]);
      var o := Operand(ps[0]);
      match ps[0] {
        case Text(t) =>
          assert o[1..|o| - 1] == Escaped(t);
          UnescapedEscaped(t);
        case Code(e) =>
          assert o[1..|o| - 1] == e;
      }
    }
  }

  // ---- Reading the compiled text. ----

  /** Where the literal or the parentheses around `i` close; parentheses inside literals do not count. */
  function CloseFrom(s: string, i: nat, depth: nat, inString: bool, escaped: bool): (r: Result<nat>)
    ensures r.Ok? ==> i <= r.value < |s|
    decreases |s| - i
  {
    if i >= |s| then Err
    else if escaped then CloseFrom(s, i + 1, depth, inString, false)
    else if inString && s[i] == '\\' then CloseFrom(s, i + 1, depth, inString, true)
    else if s[i] == '"' then if inString && depth == 0 then Ok(i) else CloseFrom(s, i + 1, depth, !inString, false)
    else if inString then CloseFrom(s, i + 1, depth, inString, false)
    else if s[i] == '(' then CloseFrom(s, i + 1, depth + 1, inString, false)
    else if s[i] == ')' then if depth <= 1 then Ok(i) else CloseFrom(s, i + 1, depth - 1, inString, false)
    else CloseFrom(s, i + 1, depth, inString, false)
  }

  /** Where the operand at the start of `s` ends. */
  function OperandClose(s: string): (r: Result<nat>)
    ensures r.Ok? ==> r.value < |s|
  {
    if s == "" then Err
    else if s[0] == '"' then CloseFrom(s, 1, 0, true, false)
    else if s[0] == '(' then CloseFrom(s, 1, 1, false, false)
    else Err
  }

  /** A concatenation read from the left: literals and parenthesised expressions with " + " between them. */
  function SplitOperands(s: string): Result<seq<string>> {
    if s == "" then Ok([])
    else match OperandClose(s)
      case Err => Err
      case Ok(k) =>
        var rest := s[k + 1..];
        if rest == "" then Ok([s])
        else if " + " < rest then Prepend([s[..k + 1]], SplitOperands(rest[3..]))
        else Err
  }

  /** An expression closes its own parentheses. */
  predicate ParensClose(p: Piece) {
    p.Code? ==> OperandClose(Operand(p)) == Ok(|Operand(p)| - 1)
  }

  lemma {:induction false} CloseEscaped(a: string, t: string, b: string)
    ensures CloseFrom(a + Escaped(t) + ("\"" + b), |a|, 0, true, false) == Ok(|a| + |Escaped(t)|)
    decreases |t|
  {
    hide EscapedChar;
    var s := a + Escaped(t) + ("\"" + b);
    if t == "" {
      assert s[|a|] == '"';
    } else {
      var head, tail := EscapedChar(t[0]), Escaped(t[1..]);
      CloseEscaped(a + head, t[1..], b);
      assert s == (a + head) + tail + ("\"" + b);
      CharPassed(s, |a|, t[0]) by {
        assert forall k | 0 <= k < |head| :: s[|a| + k] == head[k];
      }
    }
  }

  /** An escaped character does not end a literal. */
  lemma CharPassed(s: string, i: nat, c: char)
    requires i + |EscapedChar(c)| <= |s| && forall k | 0 <= k < |EscapedChar(c)| :: s[i + k] == EscapedChar(c)[k]
    ensures CloseFrom(s, i, 0, true, false) == CloseFrom(s, i + |EscapedChar(c)|, 0, true, false)
  {
    var head := EscapedChar(c);
    assert s[i] == head[0];
    if |head| == 2 {
      assert s[i + 1] == head[1];
      assert CloseFrom(s, i, 0, true, false) == CloseFrom(s, i + 1, 0, true, true);
    }
  }

  lemma LiteralCloses(t: string)
    ensures OperandClose(Quote(t)) == Ok(|Quote(t)| - 1)
  {
    CloseEscaped("\"", t, "");
    assert "\"" + Escaped(t) + ("\"" + "") == Quote(t);
  }

  /** What follows the end of the operand does not matter, and without it nothing else ends there. */
  lemma {:induction false} CloseWithin(s: string, b: string, i: nat, depth: nat, inString: bool, escaped: bool)
    ensures var r := CloseFrom(s + b, i, depth, inString, escaped);
            if r.Ok? && r.value < |s| then CloseFrom(s, i, depth, inString, escaped) == r
            else CloseFrom(s, i, depth, inString, escaped) == Err
    decreases |s| - i
  {
    if i < |s| {
      assert (s + b)[i] == s[i];
      var esc := !escaped && inString && s[i] == '\\';
      var quote := !escaped && !esc && s[i] == '"';
      var opens := !escaped && !esc && !quote && !inString && s[i] == '(';
      var closes := !escaped && !esc && !quote && !inString && s[i] == ')';
      if !(quote && inString && depth == 0) && !(closes && depth <= 1) {
        CloseWithin(s, b, i + 1, if opens then depth + 1 else if closes then depth - 1 else depth,
                    if quote then !inString else inString, esc);
      }
    }
  }

  lemma OperandCloseWithin(s: string, b: string)
    requires s != ""
    ensures var r := OperandClose(s + b);
            if r.Ok? && r.value < |s| then OperandClose(s) == r else OperandClose(s) == Err
  {
    assert (s + b)[0] == s[0];
    CloseWithin(s, b, 1, 0, true, false);
    CloseWithin(s, b, 1, 1, false, false);
  }

  /** The compiled text reads as its operands exactly if every expression closes its own parentheses. */
  lemma {:induction false} JoinedSplitsIff(ps: seq<Piece>)
    ensures SplitOperands(Joined(Operands(ps))) == Ok(Operands(ps)) <==> forall p | p in ps :: ParensClose(p)
  {
    hide OperandClose, Operand, SplitOperands, Joined, Operands;
    if ps != [] {
      var o, rest := Operand(ps[0]), if |ps| == 1 then "" else " + " + Joined(Operands(ps[1..]));
      JoinedSplitsIff(ps[1..]);
      JoinedStarts(ps);
      assert Joined(Operands(ps)) == o + rest;
      AllAndFirst(ps);
      OperandCloseWithin(o, rest);
      if ps[0].Text? {
        TextCloses(ps[0]);
      }
      if OperandClose(o) == Ok(|o| - 1) {
        SplitStep(ps, o, rest);
      } else {
        SplitElsewhere(ps, o, rest);
      }
    } else {
      NothingSplits();
    }
  }

  lemma NothingSplits()
    ensures SplitOperands(Joined(Operands([]))) == Ok(Operands([]))
  {
  }

  lemma AllAndFirst(ps: seq<Piece>)
    requires ps != []
    ensures (forall p | p in ps :: ParensClose(p)) <==> ParensClose(ps[0]) && forall p | p in ps[1..] :: ParensClose(p)
  {
    assert ps == [ps[0]] + ps[1..];
  }

  lemma JoinedStarts(ps: seq<Piece>)
    requires ps != []
    ensures Operand(ps[0]) != ""
    ensures Joined(Operands(ps)) == Operand(ps[0]) + if |ps| == 1 then "" else " + " + Joined(Operands(ps[1..]))
    ensures |ps| > 1 ==> Joined(Operands(ps[1..])) != ""
  {
    assert Operands(ps)[1..] == Operands(ps[1..]);
    if |ps| == 1 {
      assert Operand(ps[0]) + "" == Operand(ps[0]);
    }
  }

  lemma TextCloses(p: Piece)
    requires p.Text?
    ensures OperandClose(Operand(p)) == Ok(|Operand(p)| - 1)
  {
    LiteralCloses(p.text);
  }

  lemma SplitStep(ps: seq<Piece>, o: string, rest: string)
    requires ps != [] && o == Operand(ps[0]) && o != "" && OperandClose(o + rest) == Ok(|o| - 1)
    requires rest == if |ps| == 1 then "" else " + " + Joined(Operands(ps[1..]))
    requires |ps| > 1 ==> Joined(Operands(ps[1..])) != ""
    ensures SplitOperands(o + rest) == Ok(Operands(ps)) <==>
            |ps| == 1 || SplitOperands(Joined(Operands(ps[1..]))) == Ok(Operands(ps[1..]))
  {
    hide OperandClose, Operand, Joined;
    assert (o + rest)[..|o|] == o && (o + rest)[|o|..] == rest;
    assert Operands(ps) == [o] + Operands(ps[1..]);
    if |ps| == 1 {
      assert o + rest == o && Operands(ps) == [o];
    } else {
      assert rest[3..] == Joined(Operands(ps[1..]));
      var r := SplitOperands(rest[3..]);
      if r.Ok? && [o] + r.value == [o] + Operands(ps[1..]) {
        assert r.value == ([o] + r.value)[1..];
      }
    }
  }

  lemma SplitElsewhere(ps: seq<Piece>, o: string, rest: string)
    requires ps != [] && o == Operand(ps[0]) && o != "" && OperandClose(o + rest) != Ok(|o| - 1)
    ensures SplitOperands(o + rest) != Ok(Operands(ps))
  {
    hide OperandClose, Operand;
    var s := o + rest;
    if OperandClose(s).Ok? {
      var k := OperandClose(s).value;
      assert |s[..k + 1]| != |o| && Operands(ps)[0] == o;
      assert s[k + 1..] == "" ==> |s| == k + 1;
    }
  }

  /** One expression that is read as two operands. */
  lemma ParensMisread()
    ensures SplitOperands(Joined(Operands([Code("a) + (b")]))) == Ok(["(a)", "(b)"])
  {
    var s := "(a) + (b)";
    var ps := [Code("a) + (b")];
    assert Operand(ps[0]) == s by {
      assert "(" + "a) + (b" + ")" == s;
    }
    assert Operands(ps) == [s];
    assert CloseFrom(s, 2, 1, false, false) == Ok(2);
    assert OperandClose(s) == Ok(2) && s[..3] == "(a)" && s[3..] == " + (b)";
    var rest := s[3..];
    assert " + " < rest && rest[3..] == "(b)";
    var b := "(b)";
    assert CloseFrom(b, 2, 1, false, false) == Ok(2);
    assert OperandClose(b) == Ok(2) && b[3..] == "";
    assert SplitOperands(b) == Ok([b]);
    assert ["(a)"] + [b] == ["(a)", b];
  }

  /** What the compiled text stands for when `value` gives the values of expressions. */
  function Meaning(text: string, value: string -> string): Result<string> {
    match SplitOperands(text) case Ok(operands) => Ok(Concatenation(operands, value)) case Err => Err
  }

  /** Read as text, too, it is the template with its expressions replaced by their values. */
  lemma CompiledMeans(ps: seq<Piece>, value: string -> string)
    requires forall p | p in ps :: ParensClose(p)
    ensures Meaning(Joined(Operands(ps)), value) == Ok(Filled(ps, value))
  {
    JoinedSplitsIff(ps);
    ConcatenationFills(ps, value);
  }

  function GapOperands(s: string, from: nat, to: nat): seq<string>
    requires to <= |s|
  {
    if from < to then [Quote(s[from..to])] else []
  }

  lemma OperandsStep(s: string, ms: seq<Match>, from: nat)
    requires Spread(s, ms, from) && from <= |s|
    ensures ms == [] ==> Operands(Pieces(s, ms, from)) == GapOperands(s, from, |s|)
    ensures ms != [] ==>
      && from <= ms[0].start < ms[0].end <= |s| && Spread(s, ms[1..], ms[0].end)
      && Operands(Pieces(s, ms, from)) == GapOperands(s, from, ms[0].start) + ["(" + ms[0].expr + ")"]
                                          + Operands(Pieces(s, ms[1..], ms[0].end))
  {
  }

  lemma Regroup(a: seq<string>, b: seq<string>, c: seq<string>, d: seq<string>)
    ensures a + (b + c + d) == a + b + c + d
    ensures b == [] ==> a + b == a
  {
  }

  method BuildStringTemplate(original: string, matches: seq<Match>) returns (cel: string)
    requires Spread(original, matches, 0)
    ensures cel == Joined(Operands(Pieces(original, matches, 0)))
  {
    hide Spread, Pieces, Operands, Quote, Joined;
    var parts: seq<string> := [];
    var pos: nat := 0;
    ghost var all := Operands(Pieces(original, matches, 0));
    assert matches[0..] == matches;
    assert all == [] + all;
    for i := 0 to |matches|
      invariant pos <= |original| && Spread(original, matches[i..], pos)
      invariant all == parts + Operands(Pieces(original, matches[i..], pos))
    {
      var m := matches[i];
      assert matches[i..][1..] == matches[i + 1..];
      OperandsStep(original, matches[i..], pos);
      Regroup(parts, GapOperands(original, pos, m.start), ["(" + m.expr + ")"],
              Operands(Pieces(original, matches[i + 1..], m.end)));
      if m.start > pos {
        parts := parts + [Quote(original[pos..m.start])];
      }
      parts := parts + ["(" + m.expr + ")"];
      pos := m.end;
    }
    assert matches[|matches|..] == [];
    OperandsStep(original, [], pos);
    assert all == parts + GapOperands(original, pos, |original|);
    assert original[pos..|original|] == original[pos..];
    if pos < |original| {
      parts := parts + [Quote(original[pos..])];
    }
    assert all == parts;
    return Joined(parts);
  }

  /** What a string field of a template is. */
  datatype Compiled = Plain | Expression(original: string) | NestedExpression

  /** A lone expression stands for itself; anything else with expressions is a concatenation. */
  function Compile(s: string): Compiled {
    match Extract(s, 0)
    case Err => NestedExpression
    case Ok(ms) =>
      if IsStandalone(s, ms) then Expression(ms[0].expr)
      else if ms == [] || !Spread(s, ms, 0) then Plain
      else Expression(Joined(Operands(Pieces(s, ms, 0))))
  }

  method CompileString(field: string) returns (r: Compiled)
    ensures r == Compile(field)
  {
    var matches := ExtractExpressions(field);
    if matches.Err? {
      return NestedExpression;
    }
    ExtractRebuilds(field);
    if IsStandalone(field, matches.value) {
      var expr := field[2..];
      expr := expr[..|expr| - 1];
      assert field[0..|field|] == field == "${" + matches.value[0].expr + "}";
      return Expression(expr);
    }
    var expressions := ExtractExpressions(field);
    if expressions.value == [] {
      return Plain;
    }
    var cel := BuildStringTemplate(field, expressions.value);
    return Expression(cel);
  }

  /** A string without expressions stays as it is, and only such a string or one that cannot be scanned does. */
  lemma PlainIff(s: string)
    ensures Compile(s) == Plain <==> Extract(s, 0) == Ok([])
  {
    if Extract(s, 0).Ok? {
      ExtractRebuilds(s);
    }
  }

  /** Compiling a rendered template gives its only expression, or the concatenation of all its pieces. */
  lemma CompileRender(ps: seq<Piece>)
    requires WellFormed(ps)
    ensures Compile(Render(ps)) ==
            if ps == [] || (|ps| == 1 && ps[0].Text?) then Plain
            else if |ps| == 1 then Expression(ps[0].expr)
            else Expression(Joined(Operands(ps)))
  {
    ExtractRender(ps);
    hide Extract, Render, Joined, Operands;
    var s := Render(ps);
    var ms := Extract(s, 0).value;
    if ms == [] {
      assert |ps| <= 1;
    } else {
      assert Pieces(s, ms[1..], ms[0].end) == [] <==> |ms| == 1 && ms[0].end == |s|;
    }
  }
}
