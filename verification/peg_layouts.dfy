/** How rules may be laid out as grammar text: with comments, blank lines and blanks, with either
    quote, and with parentheses that need not be there. A layout is a tree that keeps all this;
    its text is what stands in the file, its meaning the rules. */
module PegLayouts {
  import opened PegSyntax
  import opened PegGrammar

  datatype Term =
    | Quoted(quote: char, inside: string)
    | Class(inside: string)
    | AnyChar
    | Name(name: string)
    | Group(alternatives: seq<Alternative>)

  /** What stands before an element, its '&' and '!', the term, and its '?', '*' or '+'. */
  datatype Element = Element(gap: string, prefixes: string, term: Term, suffix: string)

  datatype Alternative = Alternative(elements: seq<Element>, gap: string)

  /** What may stand between rules: whitespace, and comments without their line end. */
  datatype Piece = Space(c: char) | Comment(inside: string)

  datatype RuleLayout = RuleLayout(before: seq<Piece>, name: string, gap: string, alternatives: seq<Alternative>)

  datatype Layout = Layout(rules: seq<RuleLayout>, after: seq<Piece>)

  // ----- the text

  function TermText(t: Term): string
    decreases t
  {
    match t
    case Quoted(quote, inside) => [quote] + inside + [quote]
    case Class(inside) => ['['] + inside + [']']
    case AnyChar => "."
    case Name(name) => name
    case Group(alternatives) => "(" + (AlternativesText(alternatives, 0) + ")")
  }

  /** An element without the gap before it. */
  function BareText(e: Element): string
    decreases e
  {
    e.prefixes + (TermText(e.term) + e.suffix)
  }

  /** The elements from the i-th on, and the gap behind the last one. */
  function ElementsText(es: seq<Element>, i: nat, gap: string): string
    decreases es, |es| - i
  {
    if i >= |es| then gap else es[i].gap + (BareText(es[i]) + ElementsText(es, i + 1, gap))
  }

  function AlternativeText(a: Alternative): string
    decreases a
  {
    ElementsText(a.elements, 0, a.gap)
  }

  function AlternativesText(alternatives: seq<Alternative>, i: nat): string
    decreases alternatives, |alternatives| - i
  {
    if i >= |alternatives| then ""
    else AlternativeText(alternatives[i]) +
         (if i + 1 < |alternatives| then "/" + AlternativesText(alternatives, i + 1) else "")
  }

  function PieceText(p: Piece): string {
    match p
    case Space(c) => [c]
    case Comment(inside) => "#" + inside
  }

  function PiecesText(pieces: seq<Piece>, i: nat): string
    decreases |pieces| - i
  {
    if i >= |pieces| then "" else PieceText(pieces[i]) + PiecesText(pieces, i + 1)
  }

  function RuleText(r: RuleLayout): string {
    r.name + (r.gap + ("<-" + AlternativesText(r.alternatives, 0)))
  }

  function RulesText(l: Layout, i: nat): string
    decreases |l.rules| - i
  {
    if i >= |l.rules| then PiecesText(l.after, 0)
    else PiecesText(l.rules[i].before, 0) + (RuleText(l.rules[i]) + RulesText(l, i + 1))
  }

  function Text(l: Layout): string { RulesText(l, 0) }

  // ----- the meaning

  function TermMeaning(t: Term): Expr
    decreases t
  {
    match t
    case Quoted(_, inside) => Literal(inside)
    case Class(inside) => CharClass(inside)
    case AnyChar => Dot
    case Name(name) => Reference(name)
    case Group(alternatives) => ChoiceOf(AlternativeMeanings(alternatives, 0))
  }

  function Suffixed(e: Expr, suffix: string): Expr {
    if suffix == "?" then Optional(e) else if suffix == "*" then Star(e) else if suffix == "+" then Plus(e) else e
  }

  function Prefixed(prefixes: string, e: Expr): Expr {
    if prefixes == "" then e
    else if prefixes[0] == '&' then AndPredicate(Prefixed(prefixes[1..], e))
    else NotPredicate(Prefixed(prefixes[1..], e))
  }

  function ElementMeaning(e: Element): Expr
    decreases e
  {
    Prefixed(e.prefixes, Suffixed(TermMeaning(e.term), e.suffix))
  }

  function ElementMeanings(es: seq<Element>, i: nat): seq<Expr>
    decreases es, |es| - i
  {
    if i >= |es| then [] else [ElementMeaning(es[i])] + ElementMeanings(es, i + 1)
  }

  /** A single part stands for itself. */
  function SequenceOf(es: seq<Expr>): Expr { if |es| == 1 then es[0] else Sequence(es) }

  function ChoiceOf(es: seq<Expr>): Expr { if |es| == 1 then es[0] else Choice(es) }

  function AlternativeMeaning(a: Alternative): Expr
    decreases a
  {
    SequenceOf(ElementMeanings(a.elements, 0))
  }

  function AlternativeMeanings(alternatives: seq<Alternative>, i: nat): seq<Expr>
    decreases alternatives, |alternatives| - i
  {
    if i >= |alternatives| then []
    else [AlternativeMeaning(alternatives[i])] + AlternativeMeanings(alternatives, i + 1)
  }

  function RuleMeaning(r: RuleLayout): Rule {
    Rule(r.name, ChoiceOf(AlternativeMeanings(r.alternatives, 0)))
  }

  function RuleMeanings(l: Layout, i: nat): seq<Rule>
    decreases |l.rules| - i
  {
    if i >= |l.rules| then [] else [RuleMeaning(l.rules[i])] + RuleMeanings(l, i + 1)
  }

  function Meaning(l: Layout): seq<Rule> { RuleMeanings(l, 0) }

  // ----- what may be written where

  /** Blanks, tabs and carriage returns, any number of them. */
  predicate IsGap(s: string) {
    forall k :: 0 <= k < |s| ==> s[k] == ' ' || s[k] == '\t' || s[k] == '\r'
  }

  predicate FitsTerm(t: Term)
    decreases t
  {
    match t
    case Quoted(quote, inside) => (quote == '\'' || quote == '"') && quote !in inside
    case Class(inside) => ']' !in inside
    case AnyChar => true
    case Name(name) => IsIdentifier(name)
    case Group(alternatives) => FitsAlternatives(alternatives)
  }

  predicate FitsElement(e: Element)
    decreases e
  {
    && IsGap(e.gap)
    && (forall k :: 0 <= k < |e.prefixes| ==> e.prefixes[k] == '&' || e.prefixes[k] == '!')
    && FitsTerm(e.term)
    && (e.suffix == "" || e.suffix == "?" || e.suffix == "*" || e.suffix == "+")
  }

  /** Two names must not run together. */
  predicate Apart(e: Element, next: Element) {
    e.term.Name? && e.suffix == "" ==> next.gap != "" || next.prefixes != "" || !next.term.Name?
  }

  predicate FitsElements(es: seq<Element>)
    decreases es
  {
    && (forall i :: 0 <= i < |es| ==> FitsElement(es[i]))
    && (forall i :: 0 <= i < |es| - 1 ==> Apart(es[i], es[i + 1]))
  }

  predicate FitsAlternative(a: Alternative)
    decreases a
  {
    a.elements != [] && FitsElements(a.elements) && IsGap(a.gap)
  }

  predicate FitsAlternatives(alternatives: seq<Alternative>)
    decreases alternatives
  {
    alternatives != [] && forall i :: 0 <= i < |alternatives| ==> FitsAlternative(alternatives[i])
  }

  /** A comment ends with its line, or with the text. */
  predicate FitsPiece(pieces: seq<Piece>, i: nat, atEnd: bool)
    requires i < |pieces|
  {
    match pieces[i]
    case Space(c) => IsSpace(c)
    case Comment(inside) => '\n' !in inside && if i + 1 < |pieces| then pieces[i + 1] == Space('\n') else atEnd
  }

  predicate FitsPieces(pieces: seq<Piece>, atEnd: bool) {
    forall i :: 0 <= i < |pieces| ==> FitsPiece(pieces, i, atEnd)
  }

  /** A rule ends at a line end or a comment. */
  predicate EndsRule(pieces: seq<Piece>) {
    pieces != [] && (pieces[0] == Space('\n') || pieces[0].Comment?)
  }

  predicate FitsRule(r: RuleLayout) {
    IsIdentifier(r.name) && IsGap(r.gap) && FitsAlternatives(r.alternatives) && FitsPieces(r.before, false)
  }

  predicate Fits(l: Layout) {
    && l.rules != []
    && (forall i :: 0 <= i < |l.rules| ==> FitsRule(l.rules[i]) && (i > 0 ==> EndsRule(l.rules[i].before)))
    && FitsPieces(l.after, true) && (l.after == [] || EndsRule(l.after))
  }
}
