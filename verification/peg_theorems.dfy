/** What holds of every match: the shape of the trees it builds, how far repetition goes,
    which alternative is taken, and where the engine departs from textbook PEG. */
module PegTheorems {
  import opened Common
  import opened PegSyntax
  import opened PegSemantics
  import opened PegPackrat

  // ----- the geometry of parse trees

  /** The node is what its rule yields at the node's own start. */
  ghost predicate IsParse(g: Grammar, input: string, n: Ast)
    requires WellFormed(g)
  {
    && n.start <= n.end <= |input|
    && n.token == input[n.start..n.end]
    && exists i: nat :: i < |g| && g[i].name == n.name && Yields(g, input, i, n)
  }

  ghost predicate Yields(g: Grammar, input: string, i: nat, n: Ast)
    requires WellFormed(g) && i < |g| && n.start <= |input|
  {
    var r := EvalRule(g, input, i, n.start);
    r.Matched? && r.end == n.end && r.nodes == [n]
  }

  /** A tree all of whose nodes are parses, each node's children lying inside it. */
  ghost predicate Tree(g: Grammar, input: string, n: Ast)
    requires WellFormed(g)
    decreases n, 0
  {
    && IsParse(g, input, n)
    && Ordered(n.children, n.start, n.end)
    && forall i :: 0 <= i < |n.children| ==> Tree(g, input, n.children[i])
  }

  /** The nodes lie in lo..hi one after the other without overlap. */
  ghost predicate Ordered(nodes: seq<Ast>, lo: nat, hi: nat) {
    && (forall i :: 0 <= i < |nodes| ==> lo <= nodes[i].start <= nodes[i].end <= hi)
    && (forall i, j :: 0 <= i < j < |nodes| ==> nodes[i].end <= nodes[j].start)
  }

  ghost predicate Forest(g: Grammar, input: string, nodes: seq<Ast>, lo: nat, hi: nat)
    requires WellFormed(g)
  {
    Ordered(nodes, lo, hi) && forall i :: 0 <= i < |nodes| ==> Tree(g, input, nodes[i])
  }

  ghost predicate Shaped(g: Grammar, input: string, pos: nat, r: Outcome)
    requires WellFormed(g)
  {
    r.Matched? ==> Forest(g, input, r.nodes, pos, r.end)
  }

  /** Every match, of any expression on any input, appends an ordered run of trees that lies
      inside the text it consumed. */
  lemma {:induction false} MatchBuildsForest(g: Grammar, input: string, e: Expr, pos: nat)
    requires WellFormed(g) && WellShaped(e) && pos <= |input|
    ensures Shaped(g, input, pos, Eval(g, input, e, pos))
    decreases |input| - pos, 2 * LeftRank(g, Cert(g), e), e, 1
  {
    match e
    case Reference(name) =>
      if Lookup(g, name).Some? {
        RuleBuildsTree(g, input, Lookup(g, name).value, pos);
      }
    case Sequence(children) => SequenceBuildsForest(g, input, children, 0, pos);
    case Choice(children) => ChoiceBuildsForest(g, input, children, 0, pos);
    case Optional(inner) => MatchBuildsForest(g, input, inner, pos);
    case Star(inner) => RepeatBuildsForest(g, input, inner, pos);
    case Plus(inner) => RepeatBuildsForest(g, input, inner, pos);
    case _ =>
  }

  lemma {:induction false} RuleBuildsTree(g: Grammar, input: string, i: nat, pos: nat)
    requires WellFormed(g) && i < |g| && pos <= |input|
    ensures Shaped(g, input, pos, EvalRule(g, input, i, pos))
    decreases |input| - pos, 2 * Cert(g).rank[i] + 1
  {
    assert RuleCertified(g, Cert(g), i);
    MatchBuildsForest(g, input, g[i].expression, pos);
    var r := EvalRule(g, input, i, pos);
    if r.Matched? {
      assert Yields(g, input, i, r.nodes[0]);
      assert IsParse(g, input, r.nodes[0]);
    }
  }

  lemma {:induction false} SequenceBuildsForest(g: Grammar, input: string, es: seq<Expr>, i: nat, pos: nat)
    requires WellFormed(g) && AllWellShaped(es) && i <= |es| && pos <= |input|
    ensures Shaped(g, input, pos, EvalSequence(g, input, es, i, pos))
    decreases |input| - pos, 2 * SequenceLeftRank(g, Cert(g), es, i), es, |es| - i
  {
    if i == |es| {
    } else {
      var start := if StartsWithCharClass(es[i]) then pos else SkipWhitespace(input, pos);
      MatchBuildsForest(g, input, es[i], start);
      var first := Eval(g, input, es[i], start);
      if first.Matched? {
        SequenceBuildsForest(g, input, es, i + 1, first.end);
        var rest := EvalSequence(g, input, es, i + 1, first.end);
        if rest.Matched? {
        }
      }
    }
  }

  lemma {:induction false} ChoiceBuildsForest(g: Grammar, input: string, es: seq<Expr>, i: nat, pos: nat)
    requires WellFormed(g) && AllWellShaped(es) && i <= |es| && pos <= |input|
    ensures Shaped(g, input, pos, EvalChoice(g, input, es, i, pos))
    decreases |input| - pos, 2 * ChoiceLeftRank(g, Cert(g), es, i), es, |es| - i
  {
    if i == |es| {
    } else {
      MatchBuildsForest(g, input, es[i], pos);
      if Eval(g, input, es[i], pos).NoMatch? {
        ChoiceBuildsForest(g, input, es, i + 1, pos);
        var rest := EvalChoice(g, input, es, i + 1, pos);
        assert rest.Matched? ==> [] + rest.nodes == rest.nodes;
      }
    }
  }

  lemma {:induction false} RepeatBuildsForest(g: Grammar, input: string, e: Expr, pos: nat)
    requires WellFormed(g) && WellShaped(e) && pos <= |input|
    ensures Shaped(g, input, pos, EvalRepeat(g, input, e, pos))
    decreases |input| - pos, 2 * LeftRank(g, Cert(g), e), e, 2
  {
    MatchBuildsForest(g, input, e, pos);
    var first := Eval(g, input, e, pos);
    if first.Matched? && first.end > pos {
      RepeatBuildsForest(g, input, e, first.end);
      var rest := EvalRepeat(g, input, e, first.end);
      if rest.Matched? {
      }
    }
  }

  /** The tree that Parse returns is a tree of rule parses whose root is the first rule, and
      the root covers the whole input but for whitespace at either end. */
  lemma ParsedTreeCoversInput(g: Grammar, input: string)
    requires WellFormed(g) && g != [] && ParseMeaning(g, input).Parsed?
    ensures var root := ParseMeaning(g, input).tree;
      && Tree(g, input, root)
      && root.name == g[0].name
      && (forall k :: 0 <= k < root.start ==> IsSpace(input[k]))
      && (forall k :: root.end <= k < |input| ==> IsSpace(input[k]))
  {
    RuleBuildsTree(g, input, 0, SkipWhitespace(input, 0));
  }

  // ----- repetition and choice

  /** A star stops only where one more turn would fail or stand still. */
  lemma {:induction false} StarIsMaximal(g: Grammar, input: string, e: Expr, pos: nat)
    requires WellFormed(g) && WellShaped(e) && pos <= |input|
    ensures var r := Eval(g, input, Star(e), pos);
      r.Matched? ==> var next := Eval(g, input, e, r.end); next.NoMatch? || (next.Matched? && next.end == r.end)
    decreases |input| - pos
  {
    var first := Eval(g, input, e, pos);
    if first.Matched? && first.end > pos {
      StarIsMaximal(g, input, e, first.end);
    }
  }

  /** '+' matches exactly when its operand matches and advances; textbook PEG asks only that
      it match. The two agree at a position unless the operand matches the empty string
      there. */
  lemma PlusNeedsProgress(g: Grammar, input: string, e: Expr, pos: nat)
    requires WellFormed(g) && WellShaped(e) && pos <= |input|
    requires !Eval(g, input, Plus(e), pos).UnknownRule?
    ensures var one := Eval(g, input, e, pos);
      && (Eval(g, input, Plus(e), pos).Matched? <==> one.Matched? && one.end > pos)
      && ((Eval(g, input, Plus(e), pos).Matched? <==> one.Matched?) <==> !(one.Matched? && one.end == pos))
  {
  }

  /** So for an operand that is not nullable, which the grammar alone tells, '+' is the
      textbook one everywhere. */
  lemma PlusOfNonNullable(g: Grammar, input: string, e: Expr, pos: nat)
    requires WellFormed(g) && WellShaped(e) && pos <= |input|
    requires !Nullable(g, Cert(g), e)
    requires !Eval(g, input, Plus(e), pos).UnknownRule?
    ensures Eval(g, input, Plus(e), pos).Matched? <==> Eval(g, input, e, pos).Matched?
  {
  }

  /** An input on which they differ: ('a'?)+ on the empty string fails, although 'a'? and
      'a'? ('a'?)* both match there. */
  lemma PlusDeparture()
    ensures WellFormed([])
    ensures var e := Optional(Literal("a"));
      && Eval([], "", Plus(e), 0) == NoMatch(0)
      && Eval([], "", e, 0).Matched?
      && Eval([], "", Sequence([e, Star(e)]), 0).Matched?
  {
    assert Certifies([], Certificate([], []));
    var e := Optional(Literal("a"));
    var es := [e, Star(e)];
    assert !LiteralAt("", "a", 0);
    assert Eval([], "", Literal("a"), 0) == NoMatch(0);
    assert Eval([], "", e, 0) == Matched(0, [], 0);
    assert EvalRepeat([], "", e, 0) == Matched(0, [], 0);
    assert es[0] == e && es[1] == Star(e);
    assert SkipWhitespace("", 0) == 0;
    assert EvalSequence([], "", es, 2, 0) == Matched(0, [], 0);
    assert EvalSequence([], "", es, 1, 0) == Matched(0, [], 0);
    assert EvalSequence([], "", es, 0, 0).Matched?;
  }

  /** An ordered choice commits to its first alternative that matches, whatever follows. */
  lemma {:induction false} ChoiceTakesFirst(g: Grammar, input: string, es: seq<Expr>, i: nat, k: nat, pos: nat)
    requires WellFormed(g) && AllWellShaped(es) && i <= k < |es| && pos <= |input|
    requires forall j :: i <= j < k ==> Eval(g, input, es[j], pos).NoMatch?
    requires Eval(g, input, es[k], pos).Matched?
    ensures var r, one := EvalChoice(g, input, es, i, pos), Eval(g, input, es[k], pos);
      r.Matched? && r.end == one.end && r.nodes == one.nodes
    decreases k - i
  {
    if i >= k {
    } else {
      ChoiceTakesFirst(g, input, es, i + 1, k, pos);
      var rest := EvalChoice(g, input, es, i + 1, pos);
      assert [] + rest.nodes == rest.nodes;
    }
  }
}
