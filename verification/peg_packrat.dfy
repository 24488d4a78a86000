/** The packrat matcher: the same recursion as PegSemantics, run over a memo table that is
    filled in place, with a running farthest-failure mark. Each method is one case of the
    engine's matcher; 'pos' and 'nodes' are the source's reference parameters. */
module PegPackrat {
  import opened Common
  import opened PegSyntax
  import opened PegSemantics

  datatype Status = Success | Failure | Thrown(name: string)

  datatype MemoEntry = MemoEntry(success: bool, end: nat, node: Option<Ast>)

  datatype ParseResult =
    | Parsed(tree: Ast)
    | SyntaxError(line: nat, column: nat)
    | TrailingInput(offset: nat)
    | UnknownReference(name: string)

  // ----- memo keys

  /** Rule index and position packed in one number, for an input of length n: rule * (n + 1)
      + pos, spelled as a recursion so that its properties are plain inductions. */
  ghost function Key(n: nat, rule: nat, pos: nat): nat {
    if rule == 0 then pos else n + 1 + Key(n, rule - 1, pos)
  }

  lemma {:induction false} KeyIsPacked(n: nat, rule: nat, pos: nat)
    ensures Key(n, rule, pos) == rule * (n + 1) + pos
  {
    if rule == 0 {
    } else {
      KeyIsPacked(n, rule - 1, pos);
      assert rule * (n + 1) == (rule - 1) * (n + 1) + (n + 1);
    }
  }

  lemma {:induction false} KeyInjective(n: nat, r1: nat, p1: nat, r2: nat, p2: nat)
    requires p1 <= n && p2 <= n && Key(n, r1, p1) == Key(n, r2, p2)
    ensures r1 == r2 && p1 == p2
  {
    if r1 > 0 && r2 > 0 {
      KeyInjective(n, r1 - 1, p1, r2 - 1, p2);
    }
  }

  /** Keys of the given number of rules lie below this. */
  ghost function Capacity(rules: nat, n: nat): nat {
    Key(n, rules, 0)
  }

  lemma {:induction false} KeyInRange(rules: nat, n: nat, rule: nat, pos: nat)
    requires rule < rules && pos <= n
    ensures Key(n, rule, pos) < Capacity(rules, n)
  {
    if rule == 0 {
    } else {
      KeyInRange(rules - 1, n, rule - 1, pos);
    }
  }

  /** The log of a run in which no key occurs twice and every key is below the bound. */
  ghost predicate Once(log: seq<nat>, bound: nat) {
    && (forall i :: 0 <= i < |log| ==> log[i] < bound)
    && (forall i, j :: 0 <= i < j < |log| ==> log[i] != log[j])
  }

  ghost function Keys(log: seq<nat>): set<nat> {
    set k | k in log
  }

  /** Pigeonhole: such a log is no longer than the bound. */
  lemma OnceIsShort(log: seq<nat>, bound: nat)
    requires Once(log, bound)
    ensures |log| <= bound
  {
    var below := Below(bound);
    DistinctSize(log);
    assert below == Keys(log) + (below - Keys(log));
  }

  ghost function Below(count: nat): (s: set<nat>)
    ensures |s| == count
    ensures forall k :: k in s <==> 0 <= k < count
  {
    if count == 0 then {} else Below(count - 1) + {count - 1}
  }

  lemma {:induction false} DistinctSize(log: seq<nat>)
    requires forall i, j :: 0 <= i < j < |log| ==> log[i] != log[j]
    ensures |Keys(log)| == |log|
  {
    if log != [] {
      var n := |log| - 1;
      DistinctSize(log[..n]);
      assert Keys(log) == Keys(log[..n]) + {log[n]};
    } else {
      assert Keys(log) == {};
    }
  }

  /** Always true; naming a rule and a position with it brings up what the table's
      invariants say about them. */
  ghost predicate At(rule: nat, pos: nat) { true }

  // ----- farthest failure as line and column

  ghost function NewlinesBefore(text: string, k: nat): nat
    requires k <= |text|
  {
    if k == 0 then 0 else NewlinesBefore(text, k - 1) + (if text[k - 1] == '\n' then 1 else 0)
  }

  /** The start of the line that offset k lies on. */
  ghost function LineStart(text: string, k: nat): (s: nat)
    requires k <= |text|
    ensures s <= k
    ensures s == 0 || text[s - 1] == '\n'
    ensures forall i :: s <= i < k ==> text[i] != '\n'
  {
    if k == 0 || text[k - 1] == '\n' then k else LineStart(text, k - 1)
  }

  lemma AfterAfter(n1: seq<Ast>, f1: nat, n2: seq<Ast>, f2: nat, r: Outcome)
    ensures After(n1, f1, After(n2, f2, r)) == After(n1 + n2, Max(f1, f2), r)
  {
  }

  /** One more turn of a '*' or '+' loop. */
  lemma RepeatStep(g: Grammar, input: string, e: Expr, start: nat, found: seq<Ast>, far: nat, pos: nat, r: Outcome)
    requires WellFormed(g) && WellShaped(e) && start <= |input| && pos <= |input|
    requires EvalRepeat(g, input, e, start) == After(found, far, EvalRepeat(g, input, e, pos))
    requires r == Eval(g, input, e, pos) && r.Matched? && r.end > pos
    ensures EvalRepeat(g, input, e, start) ==
            After(found + r.nodes, Max(far, r.far), EvalRepeat(g, input, e, r.end))
  {
    AfterAfter(found, far, r.nodes, r.far, EvalRepeat(g, input, e, r.end));
  }

  /** The last turn. */
  lemma RepeatStops(g: Grammar, input: string, e: Expr, start: nat, found: seq<Ast>, far: nat, pos: nat, r: Outcome)
    requires WellFormed(g) && WellShaped(e) && start <= |input| && pos <= |input|
    requires EvalRepeat(g, input, e, start) == After(found, far, EvalRepeat(g, input, e, pos))
    requires r == Eval(g, input, e, pos) && !(r.Matched? && r.end > pos)
    ensures EvalRepeat(g, input, e, start) == if r.UnknownRule? then r else Matched(pos, found, Max(far, r.far))
  {
    assert found + [] == found;
  }

  /** '*' is the repetition, and '+' is the repetition if it advances. */
  lemma LoopsMean(g: Grammar, input: string, e: Expr, pos: nat)
    requires WellFormed(g) && WellShaped(e) && pos <= |input|
    ensures Eval(g, input, Star(e), pos) == EvalRepeat(g, input, e, pos)
    ensures Eval(g, input, Plus(e), pos) ==
            var r := EvalRepeat(g, input, e, pos); if r.Matched? && r.end == pos then NoMatch(r.far) else r
  {
  }

  /** Alternative i fails and the choice goes on, or it does not and decides. */
  lemma ChoiceStep(g: Grammar, input: string, es: seq<Expr>, i: nat, pos: nat, far: nat, r: Outcome)
    requires WellFormed(g) && AllWellShaped(es) && i < |es| && pos <= |input|
    requires EvalChoice(g, input, es, 0, pos) == After([], far, EvalChoice(g, input, es, i, pos)) && r == Eval(g, input, es[i], pos)
    ensures r.NoMatch? ==> EvalChoice(g, input, es, 0, pos) == After([], Max(far, r.far), EvalChoice(g, input, es, i + 1, pos))
    ensures r.UnknownRule? ==> EvalChoice(g, input, es, 0, pos) == r
    ensures r.Matched? ==> EvalChoice(g, input, es, 0, pos) == Matched(r.end, r.nodes, Max(far, r.far))
  {
    if r.NoMatch? {
      AfterAfter([], far, [], r.far, EvalChoice(g, input, es, i + 1, pos));
    } else if r.Matched? {
      assert [] + r.nodes == r.nodes;
    }
  }

  lemma NoneLeft(g: Grammar, input: string, es: seq<Expr>, pos: nat, far: nat)
    requires WellFormed(g) && AllWellShaped(es) && pos <= |input|
    ensures After([], far, EvalChoice(g, input, es, |es|, pos)) == NoMatch(far)
  {
  }

  lemma Regroup(a: seq<Ast>, b: seq<Ast>, c: seq<Ast>)
    ensures a + b + c == a + (b + c)
  {
  }

  lemma NothingYet(r: Outcome)
    ensures After([], 0, r) == r
  {
    assert r.Matched? ==> [] + r.nodes == r.nodes;
  }

  /** What a call leaves behind, given the memo-free outcome r: on a match the nodes are
      appended, on a failure position and nodes are as before, and either way the failure
      mark is exactly what the memo-free run would have made it. */
  ghost predicate Reports(r: Outcome, status: Status, pos0: nat, pos: nat, nodes0: seq<Ast>, nodes: seq<Ast>,
                          far0: nat, far: nat)
  {
    match r
    case UnknownRule(name) => status == Thrown(name)
    case NoMatch(f) => status == Failure && pos == pos0 && nodes == nodes0 && far == Max(far0, f)
    case Matched(end, ns, f) => status == Success && pos == end && nodes == nodes0 + ns && far == Max(far0, f)
  }

  method MatchCharClass(spec: string, c: char) returns (r: bool)
    ensures r == ClassCovers(spec, c)
  {
    var negate := false;
    var pos := 0;
    if pos < |spec| && spec[pos] == '^' {
      negate := true;
      pos := pos + 1;
    }
    var matched := false;
    ghost var start := pos;
    while pos < |spec|
      invariant ItemCovers(spec, start, c) == (matched || ItemCovers(spec, pos, c))
    {
      if pos + 2 < |spec| && spec[pos + 1] == '-' {
        if c >= spec[pos] && c <= spec[pos + 2] {
          matched := true;
        }
        pos := pos + 3;
      } else {
        if c == spec[pos] {
          matched := true;
        }
        pos := pos + 1;
      }
    }
    r := if negate then !matched else matched;
  }

  class Matcher {
    const rules: Grammar
    const input: string
    var memo: map<nat, MemoEntry>
    var farthest: nat
    /** Keys whose rule body is being evaluated right now. */
    ghost var active: set<nat>
    /** Keys of all rule bodies entered so far, in order. */
    ghost var log: seq<nat>

    ghost predicate Agrees(entry: MemoEntry, r: Outcome)
      reads this
    {
      match r
      case UnknownRule(_) => false
      case NoMatch(f) => !entry.success && f <= farthest
      case Matched(end, ns, f) =>
        entry.success && entry.end == end && entry.node.Some? && ns == [entry.node.value] && f <= farthest
    }

    /** Every entry repeats what its rule does without a table, failures included. */
    ghost predicate MemoSound()
      requires WellFormed(rules)
      reads this
    {
      forall i: nat, p: nat {:trigger At(i, p)} ::
        At(i, p) && i < |rules| && p <= |input| && Key(|input|, i, p) in memo ==>
        Agrees(memo[Key(|input|, i, p)], EvalRule(rules, input, i, p))
    }

    ghost predicate Bounded()
      reads this
    {
      Once(log, Capacity(|rules|, |input|))
    }

    ghost predicate Valid()
      requires WellFormed(rules)
      reads this
    {
      && MemoSound()
      && Bounded()
      && (forall k :: k in log <==> k in memo || k in active)
      && (forall k :: k in active ==> k !in memo)
    }

    /** Evaluations in progress began further left, or here in a rule of rank at least k. */
    ghost predicate Enclosing(pos: nat, k: nat)
      requires WellFormed(rules)
      reads this
    {
      forall i: nat, p: nat {:trigger At(i, p)} ::
        At(i, p) && i < |rules| && p <= |input| && Key(|input|, i, p) in active ==>
        p < pos || (p == pos && Cert(rules).rank[i] >= k)
    }

    constructor (rules: Grammar, input: string)
      requires WellFormed(rules)
      ensures this.rules == rules && this.input == input && Valid()
      ensures memo == map[] && farthest == 0 && active == {} && log == []
    {
      this.rules := rules;
      this.input := input;
      memo := map[];
      farthest := 0;
      active := {};
      log := [];
    }

    method FailAt(pos: nat)
      requires WellFormed(rules) && Valid()
      modifies this`farthest
      ensures Valid() && farthest == Max(old(farthest), pos)
    {
      if pos > farthest {
        farthest := pos;
      }
    }

    method MatchLiteral(literal: string, pos0: nat, nodes: seq<Ast>) returns (status: Status, pos: nat)
      requires WellFormed(rules) && Valid() && literal != [] && pos0 <= |input|
      modifies this`farthest
      ensures Valid()
      ensures Reports(Eval(rules, input, Literal(literal), pos0), status, pos0, pos, nodes, nodes,
                      old(farthest), farthest)
    {
      pos := pos0;
      var matches := pos + |literal| <= |input|;
      if matches {
        var i := 0;
        while i < |literal| && matches
          invariant 0 <= i <= |literal|
          invariant matches ==> forall j :: 0 <= j < i ==> ToLower(input[pos + j]) == ToLower(literal[j])
          invariant !matches ==> i > 0 && ToLower(input[pos + (i - 1)]) != ToLower(literal[i - 1])
        {
          if ToLower(input[pos + i]) != ToLower(literal[i]) {
            matches := false;
          }
          i := i + 1;
        }
      }
      if matches && IsIdentifierChar(literal[|literal| - 1]) && pos + |literal| < |input| &&
         IsIdentifierChar(input[pos + |literal|]) {
        matches := false;
      }
      if !matches {
        FailAt(pos);
        status := Failure;
        return;
      }
      pos := pos + |literal|;
      status := Success;
    }

    method MatchRule(i: nat, pos0: nat, nodes0: seq<Ast>) returns (status: Status, pos: nat, nodes: seq<Ast>)
      requires WellFormed(rules) && Valid() && i < |rules| && pos0 <= |input|
      requires Enclosing(pos0, Cert(rules).rank[i] + 1)
      modifies this
      ensures if status.Thrown? then Bounded() else Valid() && active == old(active)
      ensures Reports(EvalRule(rules, input, i, pos0), status, pos0, pos, nodes0, nodes, old(farthest), farthest)
      decreases |input| - pos0, 2 * Cert(rules).rank[i] + 1
    {
      pos, nodes := pos0, nodes0;
      var key := i * (|input| + 1) + pos;
      KeyIsPacked(|input|, i, pos);
      assert At(i, pos);
      if key in memo {
        var entry := memo[key];
        if !entry.success {
          status := Failure;
          return;
        }
        pos := entry.end;
        nodes := nodes + [entry.node.value];
        status := Success;
        return;
      }
      Enter(i, pos0);
      assert RuleCertified(rules, Cert(rules), i);
      var children;
      status, pos, children := Match(rules[i].expression, pos, []);
      if status.Thrown? {
        return;
      }
      if status.Success? {
        assert children == Eval(rules, input, rules[i].expression, pos0).nodes;
        var node := Ast(rules[i].name, input[pos0..pos], children, pos0, pos);
        nodes := nodes + [node];
        Leave(i, pos0, key, MemoEntry(true, pos, Some(node)));
        return;
      }
      pos := pos0;
      Leave(i, pos0, key, MemoEntry(false, 0, None));
    }

    /** A rule body is entered: its key was never entered before. */
    ghost method Enter(i: nat, pos: nat)
      requires WellFormed(rules) && Valid() && i < |rules| && pos <= |input|
      requires Key(|input|, i, pos) !in memo
      requires Enclosing(pos, Cert(rules).rank[i] + 1)
      modifies this`active, this`log
      ensures Valid() && Enclosing(pos, Cert(rules).rank[i])
      ensures Key(|input|, i, pos) !in old(active) && active == old(active) + {Key(|input|, i, pos)}
    {
      var key := Key(|input|, i, pos);
      assert At(i, pos) && key !in active;
      KeyInRange(|rules|, |input|, i, pos);
      active := active + {key};
      log := log + [key];
      forall j: nat, p: nat {:trigger At(j, p)} | At(j, p) && j < |rules| && p <= |input| && Key(|input|, j, p) in active
        ensures p < pos || (p == pos && Cert(rules).rank[j] >= Cert(rules).rank[i])
      {
        if Key(|input|, j, p) == key {
          KeyInjective(|input|, i, pos, j, p);
        }
      }
    }

    /** A rule body is left with a result that is then remembered. */
    method Leave(i: nat, pos: nat, key: nat, entry: MemoEntry)
      requires WellFormed(rules) && Valid() && i < |rules| && pos <= |input|
      requires key == Key(|input|, i, pos) && key in active
      requires Agrees(entry, EvalRule(rules, input, i, pos))
      modifies this`memo, this`active
      ensures Valid() && active == old(active) - {key}
    {
      memo := memo[key := entry];
      active := active - {key};
      forall j: nat, p: nat {:trigger At(j, p)} | At(j, p) && j < |rules| && p <= |input| && Key(|input|, j, p) in memo
        ensures Agrees(memo[Key(|input|, j, p)], EvalRule(rules, input, j, p))
      {
        if Key(|input|, j, p) == key {
          KeyInjective(|input|, i, pos, j, p);
        }
      }
    }

    method MatchReference(name: string, pos0: nat, nodes0: seq<Ast>)
      returns (status: Status, pos: nat, nodes: seq<Ast>)
      requires WellFormed(rules) && Valid() && pos0 <= |input|
      requires Enclosing(pos0, LeftRank(rules, Cert(rules), Reference(name)))
      modifies this
      ensures if status.Thrown? then Bounded() else Valid() && active == old(active)
      ensures Reports(Eval(rules, input, Reference(name), pos0), status, pos0, pos, nodes0, nodes,
                      old(farthest), farthest)
      decreases |input| - pos0, 2 * LeftRank(rules, Cert(rules), Reference(name)), Reference(name), 0
    {
      LookupIsFirst(rules, name);
      var i := 0;
      while i < |rules|
        invariant 0 <= i <= |rules|
        invariant forall j :: 0 <= j < i ==> rules[j].name != name
        invariant Valid() && farthest == old(farthest) && active == old(active)
        invariant Enclosing(pos0, LeftRank(rules, Cert(rules), Reference(name)))
      {
        if rules[i].name == name {
          assert Lookup(rules, name) == Some(i);
          status, pos, nodes := MatchRule(i, pos0, nodes0);
          return;
        }
        i := i + 1;
      }
      status, pos, nodes := Thrown(name), pos0, nodes0;
    }

    method Match(e: Expr, pos0: nat, nodes0: seq<Ast>) returns (status: Status, pos: nat, nodes: seq<Ast>)
      requires WellFormed(rules) && Valid() && WellShaped(e) && pos0 <= |input|
      requires Enclosing(pos0, LeftRank(rules, Cert(rules), e))
      modifies this
      ensures if status.Thrown? then Bounded() else Valid() && active == old(active)
      ensures Reports(Eval(rules, input, e, pos0), status, pos0, pos, nodes0, nodes, old(farthest), farthest)
      decreases |input| - pos0, 2 * LeftRank(rules, Cert(rules), e), e, 1
    {
      pos, nodes := pos0, nodes0;
      match e {
        case Literal(text) =>
          status, pos := MatchLiteral(text, pos, nodes);
        case CharClass(spec) =>
          var covered := false;
          if pos < |input| {
            covered := MatchCharClass(spec, input[pos]);
          }
          if !covered {
            FailAt(pos);
            status := Failure;
            return;
          }
          pos := pos + 1;
          status := Success;
        case Dot =>
          if pos >= |input| {
            status := Failure;
            return;
          }
          pos := pos + 1;
          status := Success;
        case Reference(name) =>
          status, pos, nodes := MatchReference(name, pos, nodes);
        case Sequence(children) =>
          status, pos, nodes := MatchSequence(children, pos, nodes);
        case Choice(children) =>
          status, pos, nodes := MatchChoice(children, pos, nodes);
        case AndPredicate(inner) =>
          status, pos, nodes := Match(inner, pos, nodes);
          if !status.Thrown? {
            pos := pos0;
            nodes := nodes[..|nodes0|];
          }
        case NotPredicate(inner) =>
          status, pos, nodes := Match(inner, pos, nodes);
          if !status.Thrown? {
            pos := pos0;
            nodes := nodes[..|nodes0|];
            status := if status.Success? then Failure else Success;
          }
        case Optional(inner) =>
          status, pos, nodes := Match(inner, pos, nodes);
          if status.Failure? {
            pos := pos0;
            nodes := nodes[..|nodes0|];
            status := Success;
          }
        case Star(inner) =>
          status, pos, nodes := MatchStar(inner, pos, nodes);
        case Plus(inner) =>
          status, pos, nodes := MatchPlus(inner, pos, nodes);
      }
    }

    /** One element of a sequence: whitespace first, then the element. */
    method MatchElement(e: Expr, pos0: nat, nodes0: seq<Ast>) returns (status: Status, pos: nat, nodes: seq<Ast>)
      requires WellFormed(rules) && Valid() && WellShaped(e) && pos0 <= |input|
      requires Enclosing(pos0, LeftRank(rules, Cert(rules), e))
      modifies this
      ensures if status.Thrown? then Bounded() else Valid() && active == old(active)
      ensures nodes0 <= nodes
      ensures match Element(rules, input, e, pos0)
              case UnknownRule(name) => status == Thrown(name)
              case NoMatch(f) => status == Failure && farthest == Max(old(farthest), f)
              case Matched(end, ns, f) =>
                status == Success && pos == end && nodes == nodes0 + ns && farthest == Max(old(farthest), f)
      decreases |input| - pos0, 2 * LeftRank(rules, Cert(rules), e), e, 2
    {
      pos := pos0;
      if !StartsWithCharClass(e) {
        pos := SkipSpaces(input, pos);
      }
      status, pos, nodes := Match(e, pos, nodes0);
      if status.Thrown? {
        nodes := nodes0;
      }
    }

    method MatchSequence(es: seq<Expr>, pos0: nat, nodes0: seq<Ast>)
      returns (status: Status, pos: nat, nodes: seq<Ast>)
      requires WellFormed(rules) && Valid() && AllWellShaped(es) && pos0 <= |input|
      requires Enclosing(pos0, SequenceLeftRank(rules, Cert(rules), es, 0))
      modifies this
      ensures if status.Thrown? then Bounded() else Valid() && active == old(active)
      ensures Reports(EvalSequence(rules, input, es, 0, pos0), status, pos0, pos, nodes0, nodes, old(farthest), farthest)
      decreases |input| - pos0, 2 * SequenceLeftRank(rules, Cert(rules), es, 0), es, |es| + 1
    {
      hide Eval, EvalRule, WellFormed, LeftRank;
      pos, nodes, status := pos0, nodes0, Success;
      var i := 0;
      ghost var found: seq<Ast>, far := [], 0;
      while i < |es|
        invariant 0 <= i <= |es| && pos0 <= pos <= |input| && status.Success?
        invariant Valid() && active == old(active)
        invariant pos == pos0 ==>
          SequenceLeftRank(rules, Cert(rules), es, i) <= SequenceLeftRank(rules, Cert(rules), es, 0)
        invariant nodes == nodes0 + found && farthest == Max(old(farthest), far)
        invariant EvalSequence(rules, input, es, 0, pos0) ==
                  After(found, far, EvalSequence(rules, input, es, i, pos))
      {
        ghost var r := Element(rules, input, es[i], pos);
        status, pos, nodes := MatchElement(es[i], pos, nodes);
        if !status.Success? {
          pos := pos0;
          nodes := nodes[..|nodes0|];
          break;
        }
        AfterAfter(found, far, r.nodes, r.far, EvalSequence(rules, input, es, i + 1, pos));
        found, far := found + r.nodes, Max(far, r.far);
        i := i + 1;
      }
    }

    method MatchChoice(es: seq<Expr>, pos0: nat, nodes0: seq<Ast>)
      returns (status: Status, pos: nat, nodes: seq<Ast>)
      requires WellFormed(rules) && Valid() && AllWellShaped(es) && pos0 <= |input|
      requires Enclosing(pos0, ChoiceLeftRank(rules, Cert(rules), es, 0))
      modifies this
      ensures if status.Thrown? then Bounded() else Valid() && active == old(active)
      ensures Reports(EvalChoice(rules, input, es, 0, pos0), status, pos0, pos, nodes0, nodes, old(farthest), farthest)
      decreases |input| - pos0, 2 * ChoiceLeftRank(rules, Cert(rules), es, 0), es, |es| + 1
    {
      hide Eval, EvalRule, EvalChoice, After, WellFormed, LeftRank;
      NothingYet(EvalChoice(rules, input, es, 0, pos0));
      pos, nodes, status := pos0, nodes0, Failure;
      var i := 0;
      ghost var far := 0;
      while i < |es|
        invariant 0 <= i <= |es| && pos == pos0 && nodes == nodes0 && status.Failure?
        invariant Valid() && active == old(active)
        invariant ChoiceLeftRank(rules, Cert(rules), es, i) <= ChoiceLeftRank(rules, Cert(rules), es, 0)
        invariant farthest == Max(old(farthest), far)
        invariant EvalChoice(rules, input, es, 0, pos0) == After([], far, EvalChoice(rules, input, es, i, pos0))
      {
        ghost var r := Eval(rules, input, es[i], pos);
        status, pos, nodes := Match(es[i], pos, nodes);
        ChoiceStep(rules, input, es, i, pos0, far, r);
        if !status.Failure? {
          break;
        }
        pos := pos0;
        nodes := nodes[..|nodes0|];
        far := Max(far, r.far);
        i := i + 1;
      }
      NoneLeft(rules, input, es, pos0, far);
    }

    /** One turn of a '*' or '+' loop: a turn that fails, or that matches without advancing,
        is undone and ends the loop. */
    method Iterate(inner: Expr, pos0: nat, nodes0: seq<Ast>) returns (status: Status, pos: nat, nodes: seq<Ast>)
      requires WellFormed(rules) && Valid() && WellShaped(inner) && pos0 <= |input|
      requires Enclosing(pos0, LeftRank(rules, Cert(rules), inner))
      modifies this
      ensures if status.Thrown? then Bounded() else Valid() && active == old(active)
      ensures match Eval(rules, input, inner, pos0)
              case UnknownRule(name) => status == Thrown(name)
              case NoMatch(f) =>
                status == Failure && pos == pos0 && nodes == nodes0 && farthest == Max(old(farthest), f)
              case Matched(end, ns, f) =>
                && farthest == Max(old(farthest), f)
                && if end > pos0 then status == Success && pos == end && nodes == nodes0 + ns
                   else status == Failure && pos == pos0 && nodes == nodes0
      decreases |input| - pos0, 2 * LeftRank(rules, Cert(rules), inner), inner, 2
    {
      var start, nodeStart := pos0, |nodes0|;
      status, pos, nodes := Match(inner, pos0, nodes0);
      if status.Failure? || (status.Success? && pos == start) {
        pos := start;
        nodes := nodes[..nodeStart];
        status := Failure;
      }
    }

    method MatchStar(inner: Expr, pos0: nat, nodes0: seq<Ast>)
      returns (status: Status, pos: nat, nodes: seq<Ast>)
      requires WellFormed(rules) && Valid() && WellShaped(inner) && pos0 <= |input|
      requires Enclosing(pos0, LeftRank(rules, Cert(rules), inner))
      modifies this
      ensures if status.Thrown? then Bounded() else Valid() && active == old(active)
      ensures Reports(Eval(rules, input, Star(inner), pos0), status, pos0, pos, nodes0, nodes,
                      old(farthest), farthest)
      decreases |input| - pos0, 2 * LeftRank(rules, Cert(rules), inner), inner, 3
    {
      hide Eval, EvalRule, EvalRepeat, After, WellFormed, LeftRank;
      NothingYet(EvalRepeat(rules, input, inner, pos0));
      LoopsMean(rules, input, inner, pos0);
      pos, nodes, status := pos0, nodes0, Success;
      ghost var found: seq<Ast>, far := [], 0;
      while true
        invariant pos0 <= pos <= |input| && status.Success?
        invariant Valid() && active == old(active)
        invariant nodes == nodes0 + found && farthest == Max(old(farthest), far)
        invariant EvalRepeat(rules, input, inner, pos0) ==
                  After(found, far, EvalRepeat(rules, input, inner, pos))
        decreases |input| - pos
      {
        ghost var start := pos;
        ghost var r := Eval(rules, input, inner, pos);
        status, pos, nodes := Iterate(inner, pos, nodes);
        if !status.Success? {
          RepeatStops(rules, input, inner, pos0, found, far, start, r);
          break;
        }
        RepeatStep(rules, input, inner, pos0, found, far, start, r);
        Regroup(nodes0, found, r.nodes);
        found, far := found + r.nodes, Max(far, r.far);
      }
      if status.Failure? {
        status := Success;
      }
    }

    method MatchPlus(inner: Expr, pos0: nat, nodes0: seq<Ast>)
      returns (status: Status, pos: nat, nodes: seq<Ast>)
      requires WellFormed(rules) && Valid() && WellShaped(inner) && pos0 <= |input|
      requires Enclosing(pos0, LeftRank(rules, Cert(rules), inner))
      modifies this
      ensures if status.Thrown? then Bounded() else Valid() && active == old(active)
      ensures Reports(Eval(rules, input, Plus(inner), pos0), status, pos0, pos, nodes0, nodes,
                      old(farthest), farthest)
      decreases |input| - pos0, 2 * LeftRank(rules, Cert(rules), inner), inner, 3
    {
      hide Eval, EvalRule, EvalRepeat, After, WellFormed, LeftRank;
      NothingYet(EvalRepeat(rules, input, inner, pos0));
      LoopsMean(rules, input, inner, pos0);
      pos, nodes, status := pos0, nodes0, Success;
      var matched := 0;
      ghost var found: seq<Ast>, far := [], 0;
      while true
        invariant pos0 <= pos <= |input| && status.Success?
        invariant Valid() && active == old(active)
        invariant if matched == 0 then pos == pos0 && found == [] else pos > pos0
        invariant nodes == nodes0 + found && farthest == Max(old(farthest), far)
        invariant EvalRepeat(rules, input, inner, pos0) ==
                  After(found, far, EvalRepeat(rules, input, inner, pos))
        decreases |input| - pos
      {
        ghost var start := pos;
        ghost var r := Eval(rules, input, inner, pos);
        status, pos, nodes := Iterate(inner, pos, nodes);
        if !status.Success? {
          RepeatStops(rules, input, inner, pos0, found, far, start, r);
          break;
        }
        RepeatStep(rules, input, inner, pos0, found, far, start, r);
        Regroup(nodes0, found, r.nodes);
        found, far := found + r.nodes, Max(far, r.far);
        matched := matched + 1;
      }
      if status.Failure? && matched > 0 {
        status := Success;
      }
    }
  }

  /** What Parse answers, read off the memo-free semantics of the first rule. */
  ghost function ParseMeaning(rules: Grammar, input: string): ParseResult
    requires WellFormed(rules) && rules != []
  {
    match EvalRule(rules, input, 0, SkipWhitespace(input, 0))
    case UnknownRule(name) => UnknownReference(name)
    case NoMatch(far) => SyntaxError(1 + NewlinesBefore(input, far), 1 + far - LineStart(input, far))
    case Matched(end, nodes, _) =>
      if SkipWhitespace(input, end) == |input| then Parsed(nodes[0]) else TrailingInput(SkipWhitespace(input, end))
  }

  /** Parsing with the memo table answers exactly as the memo-free semantics, error
      positions included, and enters each rule body at most once per position. */
  method Parse(rules: Grammar, input: string) returns (r: ParseResult, ghost evaluations: nat)
    requires WellFormed(rules) && rules != []
    ensures r == ParseMeaning(rules, input)
    ensures evaluations <= |rules| * (|input| + 1)
  {
    var context := new Matcher(rules, input);
    var pos := SkipSpaces(input, 0);
    var status, end, nodes := context.MatchRule(0, pos, []);
    OnceIsShort(context.log, Capacity(|rules|, |input|));
    KeyIsPacked(|input|, |rules|, 0);
    evaluations := |context.log|;
    if status.Thrown? {
      return UnknownReference(status.name), evaluations;
    }
    if status.Failure? {
      var line, column, i := 1, 1, 0;
      while i < context.farthest && i < |input|
        invariant 0 <= i <= context.farthest <= |input|
        invariant line == 1 + NewlinesBefore(input, i) && column == 1 + i - LineStart(input, i)
      {
        if input[i] == '\n' {
          line, column := line + 1, 1;
        } else {
          column := column + 1;
        }
        i := i + 1;
      }
      return SyntaxError(line, column), evaluations;
    }
    end := SkipSpaces(input, end);
    if end != |input| {
      return TrailingInput(end), evaluations;
    }
    return Parsed(nodes[|nodes| - 1]), evaluations;
  }
}
