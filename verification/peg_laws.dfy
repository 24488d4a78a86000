/** The laws of matching: what each kind of expression means in terms of the others, of its
    parts, or of the characters themselves. Together they leave no freedom in PegSemantics. */
module PegLaws {
  import opened Common
  import opened PegSyntax
  import opened PegSemantics
  import opened PegPackrat

  // ----- characters

  /** The character tests, as codes. */
  lemma CharacterTable(c: char)
    ensures IsSpace(c) <==> c as int == 32 || 9 <= c as int <= 13
    ensures IsAlpha(c) <==> 65 <= c as int <= 90 || 97 <= c as int <= 122
    ensures IsIdentifierChar(c) <==> IsAlpha(c) || 48 <= c as int <= 57 || c as int == 95
  {
  }

  /** The same character, or one letter in upper and in lower case. */
  predicate SameLetter(c: char, d: char) {
    || c == d
    || (65 <= c as int <= 90 && d as int == c as int + 32)
    || (65 <= d as int <= 90 && c as int == d as int + 32)
  }

  lemma ToLowerIff(c: char, d: char)
    ensures ToLower(c) == ToLower(d) <==> SameLetter(c, d)
  {
  }

  // ----- terminals

  /** A literal matches its own text in any case, but not a part of a longer word. */
  lemma LiteralLaw(g: Grammar, input: string, text: string, pos: nat)
    requires WellFormed(g) && text != [] && pos <= |input|
    ensures var end := pos + |text|;
      var same := end <= |input| && forall i :: 0 <= i < |text| ==> SameLetter(input[pos + i], text[i]);
      var splitsWord := IsIdentifierChar(text[|text| - 1]) && end < |input| && IsIdentifierChar(input[end]);
      Eval(g, input, Literal(text), pos) == if same && !splitsWord then Matched(end, [], 0) else NoMatch(pos)
  {
    if pos + |text| <= |input| {
      forall i | 0 <= i < |text| ensures ToLower(input[pos + i]) == ToLower(text[i]) <==> SameLetter(input[pos + i], text[i]) {
        ToLowerIff(input[pos + i], text[i]);
      }
    }
  }

  /** '.' takes any one character. */
  lemma DotLaw(g: Grammar, input: string, pos: nat)
    requires WellFormed(g) && pos <= |input|
    ensures Eval(g, input, Dot, pos) == if pos == |input| then NoMatch(0) else Matched(pos + 1, [], 0)
  {
  }

  /** What a character class is written as: single characters and ranges. */
  datatype Item = Single(c: char) | Range(low: char, high: char)

  function Written(items: seq<Item>): string {
    if items == [] then ""
    else (match items[0] case Single(c) => [c] case Range(low, high) => [low, '-', high]) + Written(items[1..])
  }

  /** No single character is taken for the start of a range: a '-' behind it is the last
      character of the class. */
  predicate Unambiguous(items: seq<Item>) {
    items != [] ==>
      && Unambiguous(items[1..])
      && (items[0].Single? ==> var rest := Written(items[1..]); |rest| >= 2 ==> rest[0] != '-')
  }

  predicate Includes(item: Item, c: char) {
    match item
    case Single(d) => c == d
    case Range(low, high) => low <= c <= high
  }

  ghost predicate SomeIncludes(items: seq<Item>, c: char) {
    exists i :: 0 <= i < |items| && Includes(items[i], c)
  }

  lemma {:induction false} ItemsCover(items: seq<Item>, before: string, c: char)
    requires Unambiguous(items)
    ensures ItemCovers(before + Written(items), |before|, c) <==> SomeIncludes(items, c)
    decreases |items|
  {
    var spec := before + Written(items);
    if items == [] {
    } else {
      var rest := Written(items[1..]);
      var more := before + (match items[0] case Single(d) => [d] case Range(low, high) => [low, '-', high]);
      assert spec == more + rest;
      ItemsCover(items[1..], more, c);
      match items[0] {
        case Single(d) =>
          assert spec[|before|] == d;
          assert |rest| > 0 ==> spec[|before| + 1] == rest[0];
        case Range(low, high) =>
          assert spec[|before|] == low && spec[|before| + 1] == '-' && spec[|before| + 2] == high;
      }
      assert items == [items[0]] + items[1..];
    }
  }

  /** Every class text is written by some items. */
  lemma {:induction false} EveryTextHasItems(text: string) returns (items: seq<Item>)
    ensures Unambiguous(items) && Written(items) == text
    decreases |text|
  {
    if text == [] {
      items := [];
    } else if |text| > 2 && text[1] == '-' {
      var rest := EveryTextHasItems(text[3..]);
      items := [Range(text[0], text[2])] + rest;
      assert items[1..] == rest;
    } else {
      var rest := EveryTextHasItems(text[1..]);
      items := [Single(text[0])] + rest;
      assert items[1..] == rest;
    }
  }

  /** A class covers the characters of its items, and with a '^' in front all the others. */
  lemma ClassLaw(g: Grammar, input: string, items: seq<Item>, pos: nat)
    requires WellFormed(g) && Unambiguous(items) && pos <= |input|
    ensures var text := Written(items);
      var included := pos < |input| && SomeIncludes(items, input[pos]);
      && ((text != [] ==> text[0] != '^') ==>
           Eval(g, input, CharClass(text), pos) == if included then Matched(pos + 1, [], 0) else NoMatch(pos))
      && Eval(g, input, CharClass("^" + text), pos) ==
           if pos < |input| && !included then Matched(pos + 1, [], 0) else NoMatch(pos)
  {
    if pos < |input| {
      ItemsCover(items, "", input[pos]);
      ItemsCover(items, "^", input[pos]);
      assert "" + Written(items) == Written(items);
    }
  }

  // ----- predicates and options

  ghost predicate SameMatch(a: Outcome, b: Outcome) {
    match a
    case UnknownRule(_) => a == b
    case NoMatch(_) => b.NoMatch?
    case Matched(end, nodes, _) => b.Matched? && b.end == end && b.nodes == nodes
  }

  /** A not-predicate matches, taking nothing, exactly where its operand fails. */
  lemma NotLaw(g: Grammar, input: string, e: Expr, pos: nat)
    requires WellFormed(g) && WellShaped(e) && pos <= |input|
    ensures var one, r := Eval(g, input, e, pos), Eval(g, input, NotPredicate(e), pos);
      && (one.UnknownRule? <==> r.UnknownRule?) && (one.NoMatch? <==> r.Matched?)
      && (r.Matched? ==> r == Matched(pos, [], one.far)) && (r.NoMatch? ==> r == NoMatch(one.far))
      && (r.UnknownRule? ==> r == one)
  {
  }

  /** An and-predicate is a double negation. */
  lemma AndIsNotNot(g: Grammar, input: string, e: Expr, pos: nat)
    requires WellFormed(g) && WellShaped(e) && pos <= |input|
    ensures Eval(g, input, AndPredicate(e), pos) == Eval(g, input, NotPredicate(NotPredicate(e)), pos)
  {
  }

  /** The empty match, as an expression: a class that covers nothing, any number of times. */
  const EMPTY: Expr := Star(CharClass(""))

  lemma EmptyMatches(g: Grammar, input: string, pos: nat)
    requires WellFormed(g) && pos <= |input|
    ensures Eval(g, input, EMPTY, pos) == Matched(pos, [], pos)
  {
    ClassLaw(g, input, [], pos);
    assert Eval(g, input, CharClass(""), pos) == NoMatch(pos);
  }

  /** An option is a choice between its operand and nothing. */
  lemma OptionIsChoice(g: Grammar, input: string, e: Expr, pos: nat)
    requires WellFormed(g) && WellShaped(e) && pos <= |input|
    ensures SameMatch(Eval(g, input, Optional(e), pos), Eval(g, input, Choice([e, EMPTY]), pos))
    ensures var one, r := Eval(g, input, e, pos), Eval(g, input, Optional(e), pos);
      !one.UnknownRule? ==> r.Matched? && r.far == one.far
  {
    EmptyMatches(g, input, pos);
    var es := [e, EMPTY];
    ChoiceUnfolds(g, input, es, 0, pos);
    ChoiceUnfolds(g, input, es, 1, pos);
    hide Eval, EvalChoice, EMPTY;
    OptionUnfolds(g, input, e, pos);
  }

  lemma OptionUnfolds(g: Grammar, input: string, e: Expr, pos: nat)
    requires WellFormed(g) && WellShaped(e) && pos <= |input|
    ensures var one := Eval(g, input, e, pos);
      Eval(g, input, Optional(e), pos) == if one.NoMatch? then Matched(pos, [], one.far) else one
  {
  }

  lemma ChoiceUnfolds(g: Grammar, input: string, es: seq<Expr>, i: nat, pos: nat)
    requires WellFormed(g) && AllWellShaped(es) && i < |es| && pos <= |input|
    ensures var one := Eval(g, input, es[i], pos);
      EvalChoice(g, input, es, i, pos) ==
      if one.NoMatch? then After([], one.far, EvalChoice(g, input, es, i + 1, pos)) else one
  {
  }

  // ----- results of parts, put together

  function Far(r: Outcome): nat { if r.UnknownRule? then 0 else r.far }

  /** The rightmost failure among several results. */
  function FarOf(outs: seq<Outcome>): (far: nat)
    ensures forall r :: r in outs ==> Far(r) <= far
    ensures far == 0 || exists r :: r in outs && Far(r) == far
  {
    if outs == [] then 0 else Max(Far(outs[0]), FarOf(outs[1..]))
  }

  /** The nodes of several matches, in order. */
  function NodesOf(outs: seq<Outcome>): seq<Ast> {
    if outs == [] then [] else (if outs[0].Matched? then outs[0].nodes else []) + NodesOf(outs[1..])
  }

  lemma OneResult(r: Outcome)
    ensures FarOf([r]) == Far(r) && (r.Matched? ==> NodesOf([r]) == r.nodes == r.nodes + [])
  {
    assert [r][1..] == [];
  }

  function Last<T>(s: seq<T>): T
    requires s != []
  {
    s[|s| - 1]
  }

  // ----- choices

  /** The alternatives from the i-th on that are tried at pos, with their results: all but the
      last one tried fail, and that one fails only if there are no more. */
  ghost predicate Tried(g: Grammar, input: string, es: seq<Expr>, i: nat, pos: nat, outs: seq<Outcome>)
    requires WellFormed(g) && AllWellShaped(es) && pos <= |input|
  {
    && 0 < |outs| <= |es| - i
    && (forall j :: 0 <= j < |outs| ==> outs[j] == Eval(g, input, es[i + j], pos))
    && (forall j :: 0 <= j < |outs| - 1 ==> outs[j].NoMatch?)
    && (Last(outs).NoMatch? ==> |outs| == |es| - i)
  }

  function ChoiceResult(outs: seq<Outcome>): Outcome
    requires outs != []
  {
    match Last(outs)
    case UnknownRule(name) => UnknownRule(name)
    case NoMatch(_) => NoMatch(FarOf(outs))
    case Matched(end, nodes, _) => Matched(end, nodes, FarOf(outs))
  }

  lemma {:induction false} ChoiceOfTried(g: Grammar, input: string, es: seq<Expr>, i: nat, pos: nat, outs: seq<Outcome>)
    requires WellFormed(g) && AllWellShaped(es) && pos <= |input| && Tried(g, input, es, i, pos, outs)
    ensures EvalChoice(g, input, es, i, pos) == ChoiceResult(outs)
    decreases |outs|
  {
    ChoiceUnfolds(g, input, es, i, pos);
    hide Eval, EvalChoice;
    assert outs[0] == Eval(g, input, es[i + 0], pos);
    if |outs| == 1 {
      assert outs == [outs[0]];
      OneResult(outs[0]);
      if i + 1 == |es| {
        NoAlternatives(g, input, es, pos);
      }
    } else {
      TriedBehind(g, input, es, i, pos, outs);
      ChoiceOfTried(g, input, es, i + 1, pos, outs[1..]);
      assert Last(outs[1..]) == Last(outs);
      assert Last(outs).Matched? ==> [] + Last(outs).nodes == Last(outs).nodes;
    }
  }

  lemma NoAlternatives(g: Grammar, input: string, es: seq<Expr>, pos: nat)
    requires WellFormed(g) && AllWellShaped(es) && pos <= |input|
    ensures EvalChoice(g, input, es, |es|, pos) == NoMatch(0)
  {
  }

  lemma TriedBehind(g: Grammar, input: string, es: seq<Expr>, i: nat, pos: nat, outs: seq<Outcome>)
    requires WellFormed(g) && AllWellShaped(es) && pos <= |input| && Tried(g, input, es, i, pos, outs) && |outs| > 1
    ensures outs[0].NoMatch? && Tried(g, input, es, i + 1, pos, outs[1..])
  {
    hide Eval;
    var rest := outs[1..];
    assert forall j :: 0 <= j < |rest| ==> rest[j] == outs[j + 1] && es[i + 1 + j] == es[i + (j + 1)];
    assert Last(rest) == Last(outs);
  }

  lemma {:induction false} ChoiceTries(g: Grammar, input: string, es: seq<Expr>, i: nat, pos: nat) returns (outs: seq<Outcome>)
    requires WellFormed(g) && AllWellShaped(es) && i < |es| && pos <= |input|
    ensures Tried(g, input, es, i, pos, outs)
    decreases |es| - i
  {
    hide Eval;
    outs := [Eval(g, input, es[i], pos)];
    if outs[0].NoMatch? && i + 1 < |es| {
      var rest := ChoiceTries(g, input, es, i + 1, pos);
      outs := outs + rest;
      assert forall j :: 0 < j < |outs| ==> outs[j] == rest[j - 1] && es[i + j] == es[i + 1 + (j - 1)];
    }
  }

  /** A choice tries its alternatives in order, all at the same place, and answers as the first
      that does not fail. */
  lemma ChoiceLaw(g: Grammar, input: string, es: seq<Expr>, pos: nat, r: Outcome)
    requires WellFormed(g) && WellShaped(Choice(es)) && pos <= |input|
    ensures Eval(g, input, Choice(es), pos) == r <==>
            exists outs :: Tried(g, input, es, 0, pos, outs) && r == ChoiceResult(outs)
  {
    var tried := ChoiceTries(g, input, es, 0, pos);
    assert Eval(g, input, Choice(es), pos) == EvalChoice(g, input, es, 0, pos);
    hide Eval, EvalChoice;
    ChoiceOfTried(g, input, es, 0, pos, tried);
    forall outs | Tried(g, input, es, 0, pos, outs) ensures EvalChoice(g, input, es, 0, pos) == ChoiceResult(outs) {
      ChoiceOfTried(g, input, es, 0, pos, outs);
    }
  }

  /** So it fails exactly when all alternatives fail. */
  lemma ChoiceFailsIff(g: Grammar, input: string, es: seq<Expr>, pos: nat)
    requires WellFormed(g) && WellShaped(Choice(es)) && pos <= |input|
    ensures Eval(g, input, Choice(es), pos).NoMatch? <==>
            forall j :: 0 <= j < |es| ==> Eval(g, input, es[j], pos).NoMatch?
  {
    var tried := ChoiceTries(g, input, es, 0, pos);
    assert Eval(g, input, Choice(es), pos) == EvalChoice(g, input, es, 0, pos);
    hide Eval, EvalChoice;
    ChoiceOfTried(g, input, es, 0, pos, tried);
    assert forall j :: 0 <= j < |tried| ==> tried[j] == Eval(g, input, es[0 + j], pos);
    if Last(tried).NoMatch? {
      forall j | 0 <= j < |es| ensures Eval(g, input, es[j], pos).NoMatch? {
        assert tried[j].NoMatch?;
      }
    } else {
      assert !Eval(g, input, es[|tried| - 1], pos).NoMatch?;
    }
  }

  // ----- sequences

  /** Where an element that is met at pos starts: behind the whitespace, unless it starts with
      a character class. */
  ghost predicate StartsAt(input: string, e: Expr, pos: nat, start: nat)
    requires WellShaped(e)
  {
    && pos <= start <= |input|
    && if StartsWithCharClass(e) then start == pos
       else (forall k :: pos <= k < start ==> IsSpace(input[k])) && (start < |input| ==> !IsSpace(input[start]))
  }

  lemma StartsOnce(input: string, e: Expr, pos: nat, a: nat, b: nat)
    requires WellShaped(e) && StartsAt(input, e, pos, a) && StartsAt(input, e, pos, b)
    ensures a <= b
  {
  }

  /** One element, met at pos. */
  ghost predicate ElementGives(g: Grammar, input: string, e: Expr, pos: nat, r: Outcome)
    requires WellFormed(g) && WellShaped(e)
  {
    exists start: nat :: StartsAt(input, e, pos, start) && r == Eval(g, input, e, start)
  }

  lemma ElementIff(g: Grammar, input: string, e: Expr, pos: nat, r: Outcome)
    requires WellFormed(g) && WellShaped(e) && pos <= |input|
    ensures ElementGives(g, input, e, pos, r) <==> r == Element(g, input, e, pos)
  {
    var start := if StartsWithCharClass(e) then pos else SkipWhitespace(input, pos);
    hide Eval;
    assert StartsAt(input, e, pos, start);
    forall other: nat | StartsAt(input, e, pos, other) ensures other == start {
      StartsOnce(input, e, pos, start, other);
      StartsOnce(input, e, pos, other, start);
    }
  }

  /** The elements from the i-th on that are matched one behind the other, cuts[j] being where
      the j-th of them is met; all but the last one match. */
  ghost predicate Cuts(g: Grammar, input: string, es: seq<Expr>, i: nat, pos: nat, cuts: seq<nat>, outs: seq<Outcome>)
    requires WellFormed(g) && AllWellShaped(es)
  {
    && 0 < |outs| == |cuts| <= |es| - i && cuts[0] == pos
    && (forall j :: 0 <= j < |outs| ==> ElementGives(g, input, es[i + j], cuts[j], outs[j]))
    && (forall j :: 0 <= j < |outs| - 1 ==> outs[j].Matched? && outs[j].end == cuts[j + 1])
    && (Last(outs).Matched? ==> |outs| == |es| - i)
  }

  function SequenceResult(outs: seq<Outcome>): Outcome
    requires outs != []
  {
    match Last(outs)
    case UnknownRule(name) => UnknownRule(name)
    case NoMatch(_) => NoMatch(FarOf(outs))
    case Matched(end, _, _) => Matched(end, NodesOf(outs), FarOf(outs))
  }

  lemma SequenceUnfolds(g: Grammar, input: string, es: seq<Expr>, i: nat, pos: nat)
    requires WellFormed(g) && AllWellShaped(es) && i < |es| && pos <= |input|
    ensures var one := Element(g, input, es[i], pos);
      && (one.Matched? ==> one.end <= |input|)
      && EvalSequence(g, input, es, i, pos) ==
         (if one.Matched? then After(one.nodes, one.far, EvalSequence(g, input, es, i + 1, one.end)) else one)
    ensures EvalSequence(g, input, es, |es|, pos) == Matched(pos, [], 0)
  {
    hide Eval;
  }

  lemma {:induction false} SequenceOfCuts(g: Grammar, input: string, es: seq<Expr>, i: nat, pos: nat, cuts: seq<nat>,
                                          outs: seq<Outcome>)
    requires WellFormed(g) && AllWellShaped(es) && pos <= |input| && Cuts(g, input, es, i, pos, cuts, outs)
    ensures EvalSequence(g, input, es, i, pos) == SequenceResult(outs)
    decreases |outs|
  {
    hide Eval, EvalSequence, Element, ElementGives;
    SequenceUnfolds(g, input, es, i, pos);
    assert ElementGives(g, input, es[i + 0], cuts[0], outs[0]);
    ElementIff(g, input, es[i], pos, outs[0]);
    if |outs| == 1 {
      assert outs == [outs[0]];
      OneResult(outs[0]);
      if outs[0].Matched? {
        SequenceUnfolds(g, input, es, i, outs[0].end);
      }
    } else {
      CutsBehind(g, input, es, i, pos, cuts, outs);
      SequenceOfCuts(g, input, es, i + 1, outs[0].end, cuts[1..], outs[1..]);
      assert Last(outs[1..]) == Last(outs);
    }
  }

  lemma CutsBehind(g: Grammar, input: string, es: seq<Expr>, i: nat, pos: nat, cuts: seq<nat>, outs: seq<Outcome>)
    requires WellFormed(g) && AllWellShaped(es) && Cuts(g, input, es, i, pos, cuts, outs) && |outs| > 1
    ensures outs[0].Matched? && Cuts(g, input, es, i + 1, outs[0].end, cuts[1..], outs[1..])
  {
    hide Eval, ElementGives;
    var rest, later := outs[1..], cuts[1..];
    forall j | 0 <= j < |rest| ensures ElementGives(g, input, es[i + 1 + j], later[j], rest[j]) {
      assert ElementGives(g, input, es[i + (j + 1)], cuts[j + 1], outs[j + 1]);
    }
    assert Last(rest) == Last(outs);
  }

  lemma {:induction false} SequenceCuts(g: Grammar, input: string, es: seq<Expr>, i: nat, pos: nat)
    returns (cuts: seq<nat>, outs: seq<Outcome>)
    requires WellFormed(g) && AllWellShaped(es) && i < |es| && pos <= |input|
    ensures Cuts(g, input, es, i, pos, cuts, outs)
    decreases |es| - i
  {
    hide Eval, Element, ElementGives;
    var one := Element(g, input, es[i], pos);
    ElementIff(g, input, es[i], pos, one);
    SequenceUnfolds(g, input, es, i, pos);
    cuts, outs := [pos], [one];
    if one.Matched? && i + 1 < |es| {
      var later, rest := SequenceCuts(g, input, es, i + 1, one.end);
      cuts, outs := cuts + later, outs + rest;
      forall j | 0 <= j < |outs| ensures ElementGives(g, input, es[i + j], cuts[j], outs[j]) {
        if j > 0 {
          assert ElementGives(g, input, es[i + 1 + (j - 1)], later[j - 1], rest[j - 1]);
        }
      }
      assert Last(outs) == Last(rest);
    }
  }

  /** A sequence matches its elements one behind the other between cut points, each behind the
      whitespace it skips; its nodes are theirs in order; and it fails, and reports an unknown
      rule, as the first element that does not match. */
  lemma SequenceLaw(g: Grammar, input: string, es: seq<Expr>, pos: nat, r: Outcome)
    requires WellFormed(g) && WellShaped(Sequence(es)) && pos <= |input|
    ensures Eval(g, input, Sequence(es), pos) == r <==>
            exists cuts, outs :: Cuts(g, input, es, 0, pos, cuts, outs) && r == SequenceResult(outs)
  {
    assert Eval(g, input, Sequence(es), pos) == EvalSequence(g, input, es, 0, pos);
    hide Eval, EvalSequence, Cuts;
    var someCuts, someOuts := SequenceCuts(g, input, es, 0, pos);
    SequenceOfCuts(g, input, es, 0, pos, someCuts, someOuts);
    forall cuts, outs | Cuts(g, input, es, 0, pos, cuts, outs)
      ensures outs != [] && EvalSequence(g, input, es, 0, pos) == SequenceResult(outs)
    {
      SequenceOfCuts(g, input, es, 0, pos, cuts, outs);
    }
  }

  // ----- which elements are met without skipping whitespace

  /** The leaf is one that e may meet first: it is reached through first elements, alternatives
      and operands. */
  ghost predicate IsFirst(e: Expr, leaf: Expr)
    requires WellShaped(e)
  {
    match e
    case Sequence(children) => IsFirst(children[0], leaf)
    case Choice(children) => exists i :: 0 <= i < |children| && IsFirst(children[i], leaf)
    case AndPredicate(inner) => IsFirst(inner, leaf)
    case NotPredicate(inner) => IsFirst(inner, leaf)
    case Optional(inner) => IsFirst(inner, leaf)
    case Star(inner) => IsFirst(inner, leaf)
    case Plus(inner) => IsFirst(inner, leaf)
    case _ => leaf == e
  }

  /** An element is met without skipping whitespace when a character class or '.' may come
      first in it. */
  lemma {:induction false} StartsWithCharClassIff(e: Expr)
    requires WellShaped(e)
    ensures StartsWithCharClass(e) <==> exists leaf :: IsFirst(e, leaf) && (leaf.CharClass? || leaf.Dot?)
  {
    match e
    case Sequence(children) => StartsWithCharClassIff(children[0]);
    case Choice(children) =>
      forall i | 0 <= i < |children|
        ensures StartsWithCharClass(children[i]) <==>
                exists leaf :: IsFirst(children[i], leaf) && (leaf.CharClass? || leaf.Dot?)
      {
        StartsWithCharClassIff(children[i]);
      }
      if StartsWithCharClass(e) {
        var i :| 0 <= i < |children| && StartsWithCharClass(children[i]);
        var leaf :| IsFirst(children[i], leaf) && (leaf.CharClass? || leaf.Dot?);
        assert IsFirst(e, leaf);
      }
    case AndPredicate(inner) => StartsWithCharClassIff(inner);
    case NotPredicate(inner) => StartsWithCharClassIff(inner);
    case Optional(inner) => StartsWithCharClassIff(inner);
    case Star(inner) => StartsWithCharClassIff(inner);
    case Plus(inner) => StartsWithCharClassIff(inner);
    case _ => assert IsFirst(e, e);
  }

  // ----- repetition

  /** One more turn at pos gets on. */
  ghost predicate Advances(r: Outcome, pos: nat) { r.Matched? && r.end > pos }

  /** The turns of a repetition, cuts[j] being where the j-th of them begins: all but the last
      one advance. */
  ghost predicate Turns(g: Grammar, input: string, e: Expr, pos: nat, cuts: seq<nat>, outs: seq<Outcome>)
    requires WellFormed(g) && WellShaped(e)
  {
    && 0 < |outs| == |cuts| && cuts[0] == pos
    && (forall j :: 0 <= j < |outs| ==> TurnGives(g, input, e, cuts[j], outs[j]))
    && (forall j :: 0 <= j < |outs| - 1 ==> Advances(outs[j], cuts[j]) && outs[j].end == cuts[j + 1])
    && !Advances(Last(outs), Last(cuts))
  }

  ghost predicate TurnGives(g: Grammar, input: string, e: Expr, pos: nat, r: Outcome)
    requires WellFormed(g) && WellShaped(e)
  {
    pos <= |input| && r == Eval(g, input, e, pos)
  }

  /** The last turn is undone, whether it failed or stood still. */
  function RepeatResult(cuts: seq<nat>, outs: seq<Outcome>): Outcome
    requires 0 < |outs| == |cuts|
  {
    if Last(outs).UnknownRule? then Last(outs)
    else Matched(Last(cuts), NodesOf(outs[..|outs| - 1]), FarOf(outs))
  }

  function PlusResult(cuts: seq<nat>, outs: seq<Outcome>): Outcome
    requires 0 < |outs| == |cuts|
  {
    if |outs| == 1 && !outs[0].UnknownRule? then NoMatch(outs[0].far) else RepeatResult(cuts, outs)
  }

  lemma RepeatUnfolds(g: Grammar, input: string, e: Expr, pos: nat)
    requires WellFormed(g) && WellShaped(e) && pos <= |input|
    ensures var one := Eval(g, input, e, pos);
      && (one.Matched? ==> one.end <= |input|)
      && EvalRepeat(g, input, e, pos) ==
         if one.UnknownRule? then one
         else if Advances(one, pos) then After(one.nodes, one.far, EvalRepeat(g, input, e, one.end))
         else Matched(pos, [], one.far)
  {
  }

  lemma TurnsBehind(g: Grammar, input: string, e: Expr, pos: nat, cuts: seq<nat>, outs: seq<Outcome>)
    requires WellFormed(g) && WellShaped(e) && Turns(g, input, e, pos, cuts, outs) && |outs| > 1
    ensures Advances(outs[0], pos) && Turns(g, input, e, outs[0].end, cuts[1..], outs[1..])
    ensures Last(outs[1..]) == Last(outs) && Last(cuts[1..]) == Last(cuts)
    ensures NodesOf(outs[..|outs| - 1]) == outs[0].nodes + NodesOf(outs[1..][..|outs| - 2])
  {
    hide Eval;
    var rest, later := outs[1..], cuts[1..];
    assert forall j :: 0 <= j < |rest| ==> rest[j] == outs[j + 1] && later[j] == cuts[j + 1];
    assert outs[..|outs| - 1][1..] == rest[..|outs| - 2];
  }

  lemma {:induction false} RepeatOfTurns(g: Grammar, input: string, e: Expr, pos: nat, cuts: seq<nat>, outs: seq<Outcome>)
    requires WellFormed(g) && WellShaped(e) && pos <= |input| && Turns(g, input, e, pos, cuts, outs)
    ensures EvalRepeat(g, input, e, pos) == RepeatResult(cuts, outs)
    decreases |outs|
  {
    hide Eval, EvalRepeat;
    RepeatUnfolds(g, input, e, pos);
    assert TurnGives(g, input, e, cuts[0], outs[0]);
    if |outs| == 1 {
      assert outs == [outs[0]] && outs[..0] == [];
      OneResult(outs[0]);
    } else {
      TurnsBehind(g, input, e, pos, cuts, outs);
      RepeatOfTurns(g, input, e, outs[0].end, cuts[1..], outs[1..]);
    }
  }

  lemma {:induction false} RepeatTurns(g: Grammar, input: string, e: Expr, pos: nat)
    returns (cuts: seq<nat>, outs: seq<Outcome>)
    requires WellFormed(g) && WellShaped(e) && pos <= |input|
    ensures Turns(g, input, e, pos, cuts, outs)
    decreases |input| - pos
  {
    hide Eval;
    var one := Eval(g, input, e, pos);
    RepeatUnfolds(g, input, e, pos);
    cuts, outs := [pos], [one];
    if Advances(one, pos) {
      var later, rest := RepeatTurns(g, input, e, one.end);
      cuts, outs := cuts + later, outs + rest;
      assert forall j :: 0 < j < |outs| ==> outs[j] == rest[j - 1] && cuts[j] == later[j - 1];
      assert Last(outs) == Last(rest) && Last(cuts) == Last(later);
      forall j | 0 <= j < |outs| ensures TurnGives(g, input, e, cuts[j], outs[j]) {
        if j > 0 {
          assert TurnGives(g, input, e, later[j - 1], rest[j - 1]);
        }
      }
    }
  }

  /** '*' takes turns as long as they advance and keeps their nodes; '+' does the same and needs
      a first turn that advances. */
  lemma RepetitionLaw(g: Grammar, input: string, e: Expr, pos: nat, r: Outcome)
    requires WellFormed(g) && WellShaped(e) && pos <= |input|
    ensures Eval(g, input, Star(e), pos) == r <==>
            exists cuts, outs :: Turns(g, input, e, pos, cuts, outs) && r == RepeatResult(cuts, outs)
    ensures Eval(g, input, Plus(e), pos) == r <==>
            exists cuts, outs :: Turns(g, input, e, pos, cuts, outs) &&
              r == PlusResult(cuts, outs)
  {
    LoopsMean(g, input, e, pos);
    hide Eval, EvalRepeat, Turns;
    var someCuts, someOuts := RepeatTurns(g, input, e, pos);
    forall cuts, outs | Turns(g, input, e, pos, cuts, outs)
      ensures 0 < |outs| == |cuts| && EvalRepeat(g, input, e, pos) == RepeatResult(cuts, outs)
      ensures Eval(g, input, Plus(e), pos) == PlusResult(cuts, outs)
    {
      RepeatOfTurns(g, input, e, pos, cuts, outs);
      TurnsAdvance(g, input, e, pos, cuts, outs);
    }
  }

  lemma {:induction false} TurnsAdvance(g: Grammar, input: string, e: Expr, pos: nat, cuts: seq<nat>, outs: seq<Outcome>)
    requires WellFormed(g) && WellShaped(e) && Turns(g, input, e, pos, cuts, outs)
    ensures 0 < |outs| == |cuts| && Last(cuts) >= pos && (Last(cuts) == pos <==> |outs| == 1)
    ensures |outs| == 1 ==> FarOf(outs) == Far(outs[0])
    decreases |outs|
  {
    if |outs| == 1 {
      assert outs == [outs[0]];
      OneResult(outs[0]);
    } else {
      hide Eval;
      TurnsBehind(g, input, e, pos, cuts, outs);
      TurnsAdvance(g, input, e, outs[0].end, cuts[1..], outs[1..]);
    }
  }

  // ----- rules

  ghost predicate IsFirstNamed(g: Grammar, name: string, i: nat) {
    i < |g| && g[i].name == name && forall j :: 0 <= j < i ==> g[j].name != name
  }

  /** A reference stands for the first rule of its name, which wraps what its expression
      matched in one node; without such a rule it is an error. */
  lemma ReferenceLaw(g: Grammar, input: string, name: string, pos: nat)
    requires WellFormed(g) && pos <= |input|
    ensures var r := Eval(g, input, Reference(name), pos);
      && (r == UnknownRule(name) || exists i: nat :: IsFirstNamed(g, name, i))
      && forall i: nat :: IsFirstNamed(g, name, i) ==> WellShaped(g[i].expression) && r == Wrapped(g, input, i, pos)
    ensures (forall i :: 0 <= i < |g| ==> g[i].name != name) ==> Eval(g, input, Reference(name), pos) == UnknownRule(name)
  {
    LookupIsFirst(g, name);
    if Lookup(g, name).Some? {
      var i := Lookup(g, name).value;
      RuleIsWrapped(g, input, i, pos);
      assert IsFirstNamed(g, name, i);
    }
  }

  ghost function Wrapped(g: Grammar, input: string, i: nat, pos: nat): Outcome
    requires WellFormed(g) && i < |g| && WellShaped(g[i].expression) && pos <= |input|
  {
    match Eval(g, input, g[i].expression, pos)
    case UnknownRule(name) => UnknownRule(name)
    case NoMatch(far) => NoMatch(far)
    case Matched(end, nodes, far) => Matched(end, [Ast(g[i].name, input[pos..end], nodes, pos, end)], far)
  }

  lemma RuleIsWrapped(g: Grammar, input: string, i: nat, pos: nat)
    requires WellFormed(g) && i < |g| && pos <= |input|
    ensures WellShaped(g[i].expression) && EvalRule(g, input, i, pos) == Wrapped(g, input, i, pos)
  {
    assert RuleCertified(g, Cert(g), i);
  }

  // ----- a whole parse

  /** The first character that is no whitespace at or behind pos, or the end. */
  ghost predicate BehindSpaces(input: string, pos: nat, start: nat) {
    && pos <= start <= |input|
    && (forall k :: pos <= k < start ==> IsSpace(input[k])) && (start < |input| ==> !IsSpace(input[start]))
  }

  lemma {:induction false} NewlinesAreCounted(text: string, k: nat)
    requires k <= |text|
    ensures NewlinesBefore(text, k) == multiset(text[..k])['\n']
  {
    if k == 0 {
    } else {
      NewlinesAreCounted(text, k - 1);
      assert text[..k] == text[..k - 1] + [text[k - 1]];
    }
  }

  /** Offset k lies on this line and in this column, both counted from 1. */
  ghost predicate LiesAt(text: string, k: nat, line: nat, column: nat) {
    && k <= |text| && 1 <= column <= k + 1
    && line == 1 + multiset(text[..k])['\n']
    && (forall i :: k + 1 - column <= i < k ==> text[i] != '\n')
    && (column <= k ==> text[k - column] == '\n')
  }

  /** Parsing matches the first rule's expression behind the leading whitespace, and only
      whitespace may follow. A mismatch is reported at the line and column of the rightmost
      failure. */
  lemma ParseLaw(g: Grammar, input: string, start: nat, rest: nat)
    requires WellFormed(g) && g != [] && WellShaped(g[0].expression) && BehindSpaces(input, 0, start)
    requires var r := Eval(g, input, g[0].expression, start); r.Matched? ==> BehindSpaces(input, r.end, rest)
    ensures var r, answer := Eval(g, input, g[0].expression, start), ParseMeaning(g, input);
      && (r.UnknownRule? ==> answer == UnknownReference(r.name))
      && (r.NoMatch? ==> answer.SyntaxError? && LiesAt(input, r.far, answer.line, answer.column))
      && (r.Matched? ==> answer == if rest < |input| then TrailingInput(rest)
                                   else Parsed(Ast(g[0].name, input[start..r.end], r.nodes, start, r.end)))
  {
    var r := Eval(g, input, g[0].expression, start);
    SpacesEndOnce(input, 0, start);
    RuleIsWrapped(g, input, 0, start);
    hide Eval, EvalRule, SkipWhitespace;
    if r.Matched? {
      SpacesEndOnce(input, r.end, rest);
    } else if r.NoMatch? {
      NewlinesAreCounted(input, r.far);
    }
  }

  lemma SpacesEndOnce(input: string, pos: nat, start: nat)
    requires BehindSpaces(input, pos, start)
    ensures SkipWhitespace(input, pos) == start
  {
  }
}
