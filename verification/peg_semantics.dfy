/** What a grammar means: matching without a memo table, as a function of the grammar and
    the input. Every clause is what one case of the engine's matcher does when the memo
    table is left out. */
module PegSemantics {
  import opened Common
  import opened PegSyntax

  /** The result of matching one expression at one position. 'far' is the rightmost
      position at which a terminal failed on the way (0 if none did). */
  datatype Outcome =
    | UnknownRule(name: string)
    | NoMatch(far: nat)
    | Matched(end: nat, nodes: seq<Ast>, far: nat)

  function SkipWhitespace(input: string, pos: nat): (r: nat)
    requires pos <= |input|
    ensures pos <= r <= |input|
    ensures forall i :: pos <= i < r ==> IsSpace(input[i])
    ensures r < |input| ==> !IsSpace(input[r])
    decreases |input| - pos
  {
    if pos < |input| && IsSpace(input[pos]) then SkipWhitespace(input, pos + 1) else pos
  }

  method SkipSpaces(input: string, pos0: nat) returns (pos: nat)
    requires pos0 <= |input|
    ensures pos == SkipWhitespace(input, pos0)
  {
    pos := pos0;
    while pos < |input| && IsSpace(input[pos])
      invariant pos0 <= pos <= |input|
      invariant SkipWhitespace(input, pos0) == SkipWhitespace(input, pos)
    {
      pos := pos + 1;
    }
  }

  /** Case-insensitive, and a literal that ends in a word character must not be followed
      by another one. */
  predicate LiteralAt(input: string, text: string, pos: nat)
    requires text != []
  {
    var end := pos + |text|;
    && end <= |input|
    && (forall i :: 0 <= i < |text| ==> ToLower(input[pos + i]) == ToLower(text[i]))
    && !(IsIdentifierChar(text[|text| - 1]) && end < |input| && IsIdentifierChar(input[end]))
  }

  /** Does one of the items of spec, from k on, cover c? An item is a range x-y or a
      single character; a '-' without a character after it stands for itself. */
  predicate ItemCovers(spec: string, k: nat, c: char)
    decreases |spec| - k
  {
    if k >= |spec| then false
    else if k + 2 < |spec| && spec[k + 1] == '-' then
      (spec[k] <= c <= spec[k + 2]) || ItemCovers(spec, k + 3, c)
    else
      c == spec[k] || ItemCovers(spec, k + 1, c)
  }

  predicate ClassCovers(spec: string, c: char) {
    if spec != [] && spec[0] == '^' then !ItemCovers(spec, 1, c) else ItemCovers(spec, 0, c)
  }

  /** Record earlier failures and earlier nodes in front of a later result. */
  function After(nodes: seq<Ast>, far: nat, r: Outcome): Outcome {
    match r
    case UnknownRule(name) => r
    case NoMatch(f) => NoMatch(Max(far, f))
    case Matched(end, ns, f) => Matched(end, nodes + ns, Max(far, f))
  }

  ghost predicate Sane(g: Grammar, input: string, pos: nat, r: Outcome, nullable: bool) {
    && (!r.UnknownRule? ==> r.far <= |input|)
    && (r.Matched? ==> pos <= r.end <= |input| && (r.end == pos ==> nullable))
  }

  function Eval(g: Grammar, input: string, e: Expr, pos: nat): (r: Outcome)
    requires WellFormed(g) && WellShaped(e) && pos <= |input|
    ensures Sane(g, input, pos, r, Nullable(g, Cert(g), e))
    decreases |input| - pos, 2 * LeftRank(g, Cert(g), e), e, 1
  {
    match e
    case Literal(text) =>
      if LiteralAt(input, text, pos) then Matched(pos + |text|, [], 0) else NoMatch(pos)
    case CharClass(spec) =>
      if pos < |input| && ClassCovers(spec, input[pos]) then Matched(pos + 1, [], 0) else NoMatch(pos)
    case Dot =>
      if pos < |input| then Matched(pos + 1, [], 0) else NoMatch(0)
    case Reference(name) =>
      (match Lookup(g, name)
       case None => UnknownRule(name)
       case Some(i) => EvalRule(g, input, i, pos))
    case Sequence(children) => EvalSequence(g, input, children, 0, pos)
    case Choice(children) => EvalChoice(g, input, children, 0, pos)
    case AndPredicate(inner) =>
      (match Eval(g, input, inner, pos)
       case Matched(_, _, far) => Matched(pos, [], far)
       case r => r)
    case NotPredicate(inner) =>
      (match Eval(g, input, inner, pos)
       case Matched(_, _, far) => NoMatch(far)
       case NoMatch(far) => Matched(pos, [], far)
       case r => r)
    case Optional(inner) =>
      (match Eval(g, input, inner, pos)
       case NoMatch(far) => Matched(pos, [], far)
       case r => r)
    case Star(inner) => EvalRepeat(g, input, inner, pos)
    case Plus(inner) =>
      (match EvalRepeat(g, input, inner, pos)
       case Matched(end, nodes, far) => if end > pos then Matched(end, nodes, far) else NoMatch(far)
       case r => r)
  }

  /** A rule wraps what its expression matched in one node. */
  function EvalRule(g: Grammar, input: string, i: nat, pos: nat): (r: Outcome)
    requires WellFormed(g) && i < |g| && pos <= |input|
    ensures Sane(g, input, pos, r, Cert(g).nullable[i])
    ensures r.Matched? ==> |r.nodes| == 1
    decreases |input| - pos, 2 * Cert(g).rank[i] + 1
  {
    assert RuleCertified(g, Cert(g), i);
    match Eval(g, input, g[i].expression, pos)
    case Matched(end, nodes, far) =>
      Matched(end, [Ast(g[i].name, input[pos..end], nodes, pos, end)], far)
    case r => r
  }

  /** An element of a sequence: whitespace first, unless the element is a raw character
      class. */
  function Element(g: Grammar, input: string, e: Expr, pos: nat): (r: Outcome)
    requires WellFormed(g) && WellShaped(e) && pos <= |input|
    ensures Sane(g, input, pos, r, Nullable(g, Cert(g), e))
    decreases |input| - pos, 2 * LeftRank(g, Cert(g), e), e, 2
  {
    Eval(g, input, e, if StartsWithCharClass(e) then pos else SkipWhitespace(input, pos))
  }

  /** The elements of a sequence, and the alternatives of a choice, from the i-th on. */
  function EvalSequence(g: Grammar, input: string, es: seq<Expr>, i: nat, pos: nat): (r: Outcome)
    requires WellFormed(g) && AllWellShaped(es) && i <= |es| && pos <= |input|
    ensures Sane(g, input, pos, r, forall j :: i <= j < |es| ==> Nullable(g, Cert(g), es[j]))
    decreases |input| - pos, 2 * SequenceLeftRank(g, Cert(g), es, i), es, |es| - i
  {
    if i == |es| then Matched(pos, [], 0)
    else
      match Element(g, input, es[i], pos)
      case Matched(end, nodes, far) => After(nodes, far, EvalSequence(g, input, es, i + 1, end))
      case r => r
  }

  function EvalChoice(g: Grammar, input: string, es: seq<Expr>, i: nat, pos: nat): (r: Outcome)
    requires WellFormed(g) && AllWellShaped(es) && i <= |es| && pos <= |input|
    ensures Sane(g, input, pos, r, exists j :: i <= j < |es| && Nullable(g, Cert(g), es[j]))
    decreases |input| - pos, 2 * ChoiceLeftRank(g, Cert(g), es, i), es, |es| - i
  {
    if i == |es| then NoMatch(0)
    else
      match Eval(g, input, es[i], pos)
      case NoMatch(far) => After([], far, EvalChoice(g, input, es, i + 1, pos))
      case r => r
  }

  /** Iterate until the expression fails or matches without advancing; such an empty last
      iteration is dropped together with its nodes. */
  function EvalRepeat(g: Grammar, input: string, e: Expr, pos: nat): (r: Outcome)
    requires WellFormed(g) && WellShaped(e) && pos <= |input|
    ensures Sane(g, input, pos, r, true)
    ensures !r.NoMatch?
    decreases |input| - pos, 2 * LeftRank(g, Cert(g), e), e, 2
  {
    match Eval(g, input, e, pos)
    case UnknownRule(name) => UnknownRule(name)
    case NoMatch(far) => Matched(pos, [], far)
    case Matched(end, nodes, far) =>
      if end == pos then Matched(pos, [], far)
      else After(nodes, far, EvalRepeat(g, input, e, end))
  }
}
