/** What the text of an expression is made of, as far as quotation marks and braces are concerned. */
module Tokens {

  /** What stands in a string literal: a character, or a backslash and any character. */
  datatype Unit = Bare(c: char) | Escape(c: char)

  datatype Token = Char(c: char) | Literal(units: seq<Unit>) | Braces(inner: seq<Token>)

  function SpellUnits(units: seq<Unit>): string {
    if units == [] then ""
    else (match units[0] case Bare(c) => [c] case Escape(c) => ['\\', c]) + SpellUnits(units[1..])
  }

  function SpellToken(t: Token): string
    decreases t, 0
  {
    match t
    case Char(c) => [c]
    case Literal(units) => "\"" + SpellUnits(units) + "\""
    case Braces(inner) => "{" + Spell(inner) + "}"
  }

  function Spell(ts: seq<Token>): string
    decreases ts, 1
  {
    if ts == [] then "" else SpellToken(ts[0]) + Spell(ts[1..])
  }

  /** Characters are neither quotation marks nor braces, and in literals neither quotation marks nor backslashes. */
  predicate ProperToken(t: Token)
    decreases t, 0
  {
    match t
    case Char(c) => c !in {'"', '{', '}'}
    case Literal(units) => forall u | u in units :: u.Bare? ==> u.c !in {'"', '\\'}
    case Braces(inner) => Proper(inner, false)
  }

  /** No dollar sign stands right before a brace, except right after a literal; `quoted` says that one has just ended. */
  predicate Proper(ts: seq<Token>, quoted: bool)
    decreases ts, 1
  {
    ts != [] ==>
      && ProperToken(ts[0]) && Proper(ts[1..], ts[0].Literal?)
      && (ts[0] == Char('$') && |ts| > 1 && ts[1].Braces? ==> quoted)
  }

  /** The text closes its own string literals and braces, and has no `${` in it. */
  ghost predicate IsExpression(e: string) {
    exists ts :: Proper(ts, false) && Spell(ts) == e
  }

  /** Braces that are still open, with what comes before each. */
  function SpellOpen(levels: seq<seq<Token>>): string {
    if levels == [] then ""
    else if |levels| == 1 then Spell(levels[0])
    else Spell(levels[0]) + "{" + SpellOpen(levels[1..])
  }

  /** The text ends in a dollar sign that does not come right after a literal. */
  predicate DollarLast(ts: seq<Token>, quoted: bool) {
    if ts == [] then false
    else if |ts| == 1 then ts[0] == Char('$') && !quoted
    else DollarLast(ts[1..], ts[0].Literal?)
  }

  /** No dollar sign stands right before an open brace, either. */
  predicate ProperOpen(levels: seq<seq<Token>>) {
    forall i | 0 <= i < |levels| :: Proper(levels[i], false) && (i + 1 < |levels| ==> !DollarLast(levels[i], false))
  }
}
