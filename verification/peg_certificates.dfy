/** Whether a grammar is well-formed can be decided before anything is parsed: starting from
    rank 0 and 'not nullable' for every rule, the demands of the rules are raised until they
    settle. */
module PegCertificates {
  import opened Common
  import opened PegSyntax

  predicate Fits(g: Grammar, c: Certificate) { |c.rank| == |c.nullable| == |g| }

  /** What the rules demand when their references are as the certificate says. */
  function Demands(g: Grammar, c: Certificate): (d: Certificate)
    requires Fits(g, c)
    ensures Fits(g, d)
  {
    Certificate(seq(|g|, i requires 0 <= i < |g| => LeftRank(g, c, g[i].expression)),
                seq(|g|, i requires 0 <= i < |g| => Nullable(g, c, g[i].expression)))
  }

  function Raised(g: Grammar, rounds: nat): (c: Certificate)
    ensures Fits(g, c)
  {
    if rounds == 0 then Certificate(seq(|g|, _ => 0), seq(|g|, _ => false)) else Demands(g, Raised(g, rounds - 1))
  }

  function Infer(g: Grammar): (c: Certificate)
    ensures Fits(g, c)
  {
    Raised(g, |g| * (|g| + 1) + 1)
  }

  // ----- demands are monotone

  ghost predicate Below(a: Certificate, b: Certificate) {
    && |a.rank| == |a.nullable| == |b.rank| == |b.nullable|
    && (forall i :: 0 <= i < |a.rank| ==> a.rank[i] <= b.rank[i])
    && (forall i :: 0 <= i < |a.rank| ==> a.nullable[i] ==> b.nullable[i])
  }

  lemma {:induction false} NullableIsMonotone(g: Grammar, a: Certificate, b: Certificate, e: Expr)
    requires Fits(g, a) && Fits(g, b) && forall i :: 0 <= i < |g| && a.nullable[i] ==> b.nullable[i]
    ensures Nullable(g, a, e) ==> Nullable(g, b, e)
  {
    match e
    case Sequence(children) =>
      forall i | 0 <= i < |children| ensures Nullable(g, a, children[i]) ==> Nullable(g, b, children[i]) {
        NullableIsMonotone(g, a, b, children[i]);
      }
    case Choice(children) =>
      forall i | 0 <= i < |children| ensures Nullable(g, a, children[i]) ==> Nullable(g, b, children[i]) {
        NullableIsMonotone(g, a, b, children[i]);
      }
    case _ =>
  }

  /** If ranks below r in b are below s in a, an expression that demands at most r in b demands
      at most s in a. */
  ghost predicate Carries(g: Grammar, a: Certificate, s: nat, b: Certificate, r: nat) {
    && Fits(g, a) && Fits(g, b)
    && (forall i :: 0 <= i < |g| && b.rank[i] < r ==> a.rank[i] < s)
    && (forall i :: 0 <= i < |g| && a.nullable[i] ==> b.nullable[i])
  }

  lemma {:induction false} LeftRankCarries(g: Grammar, a: Certificate, s: nat, b: Certificate, r: nat, e: Expr)
    requires Carries(g, a, s, b, r) && LeftRank(g, b, e) <= r
    ensures LeftRank(g, a, e) <= s
    decreases e
  {
    match e
    case Sequence(children) => SequenceCarries(g, a, s, b, r, children, 0);
    case Choice(children) => ChoiceCarries(g, a, s, b, r, children, 0);
    case AndPredicate(inner) => LeftRankCarries(g, a, s, b, r, inner);
    case NotPredicate(inner) => LeftRankCarries(g, a, s, b, r, inner);
    case Optional(inner) => LeftRankCarries(g, a, s, b, r, inner);
    case Star(inner) => LeftRankCarries(g, a, s, b, r, inner);
    case Plus(inner) => LeftRankCarries(g, a, s, b, r, inner);
    case _ =>
  }

  lemma {:induction false} SequenceCarries(g: Grammar, a: Certificate, s: nat, b: Certificate, r: nat, es: seq<Expr>, i: nat)
    requires Carries(g, a, s, b, r) && i <= |es| && SequenceLeftRank(g, b, es, i) <= r
    ensures SequenceLeftRank(g, a, es, i) <= s
    decreases es, |es| - i
  {
    if i == |es| {
    } else {
      LeftRankCarries(g, a, s, b, r, es[i]);
      NullableIsMonotone(g, a, b, es[i]);
      if Nullable(g, a, es[i]) {
        SequenceCarries(g, a, s, b, r, es, i + 1);
      }
    }
  }

  lemma {:induction false} ChoiceCarries(g: Grammar, a: Certificate, s: nat, b: Certificate, r: nat, es: seq<Expr>, i: nat)
    requires Carries(g, a, s, b, r) && i <= |es| && ChoiceLeftRank(g, b, es, i) <= r
    ensures ChoiceLeftRank(g, a, es, i) <= s
    decreases es, |es| - i
  {
    if i == |es| {
    } else {
      LeftRankCarries(g, a, s, b, r, es[i]);
      ChoiceCarries(g, a, s, b, r, es, i + 1);
    }
  }

  lemma DemandsAreMonotone(g: Grammar, a: Certificate, b: Certificate)
    requires Fits(g, a) && Fits(g, b) && Below(a, b)
    ensures Below(Demands(g, a), Demands(g, b))
  {
    forall i | 0 <= i < |g|
      ensures Demands(g, a).rank[i] <= Demands(g, b).rank[i] && (Demands(g, a).nullable[i] ==> Demands(g, b).nullable[i])
    {
      var e := g[i].expression;
      LeftRankCarries(g, a, LeftRank(g, b, e), b, LeftRank(g, b, e), e);
      NullableIsMonotone(g, a, b, e);
    }
  }

  /** A certificate is one whose rules demand no more than it grants. */
  lemma CertifiesIff(g: Grammar, c: Certificate)
    requires Fits(g, c)
    ensures Certifies(g, c) <==> Below(Demands(g, c), c) && forall i :: 0 <= i < |g| ==> WellShaped(g[i].expression)
  {
    var d := Demands(g, c);
    if Certifies(g, c) {
      forall i | 0 <= i < |g| ensures d.rank[i] <= c.rank[i] && (d.nullable[i] ==> c.nullable[i]) && WellShaped(g[i].expression) {
        assert RuleCertified(g, c, i);
      }
    }
    if Below(d, c) && forall i :: 0 <= i < |g| ==> WellShaped(g[i].expression) {
      forall i | 0 <= i < |g| ensures RuleCertified(g, c, i) {
        assert d.rank[i] <= c.rank[i] && (d.nullable[i] ==> c.nullable[i]);
      }
    }
  }

  // ----- a certificate with small ranks

  function CountBelow(ranks: seq<nat>, bound: nat): (n: nat)
    ensures n <= |ranks|
  {
    if ranks == [] then 0 else CountBelow(ranks[1..], bound) + if ranks[0] < bound then 1 else 0
  }

  lemma {:induction false} CountBelowGrows(ranks: seq<nat>, a: nat, b: nat)
    requires a <= b
    ensures CountBelow(ranks, a) <= CountBelow(ranks, b)
    ensures (exists i :: 0 <= i < |ranks| && a <= ranks[i] < b) ==> CountBelow(ranks, a) < CountBelow(ranks, b)
  {
    if ranks == [] {
    } else {
      CountBelowGrows(ranks[1..], a, b);
      if i :| 0 <= i < |ranks| && a <= ranks[i] < b {
        assert i > 0 ==> ranks[1..][i - 1] == ranks[i];
      }
    }
  }

  /** The rank of a rule counts the rules ranked lower. */
  function Dense(c: Certificate): (d: Certificate)
    ensures |d.rank| == |c.rank| && d.nullable == c.nullable
  {
    Certificate(seq(|c.rank|, i requires 0 <= i < |c.rank| => CountBelow(c.rank, c.rank[i])), c.nullable)
  }

  lemma DenseCertifies(g: Grammar, c: Certificate)
    requires Certifies(g, c)
    ensures Certifies(g, Dense(c))
  {
    var d := Dense(c);
    forall i | 0 <= i < |g| ensures RuleCertified(g, d, i) {
      assert RuleCertified(g, c, i);
      forall j | 0 <= j < |g| && c.rank[j] < c.rank[i] ensures d.rank[j] < d.rank[i] {
        CountBelowGrows(c.rank, c.rank[j], c.rank[i]);
      }
      LeftRankCarries(g, d, d.rank[i], c, c.rank[i], g[i].expression);
      NullableIsMonotone(g, d, c, g[i].expression);
    }
  }

  // ----- raising settles

  lemma {:induction false} RaisedGrows(g: Grammar, k: nat)
    ensures Below(Raised(g, k), Raised(g, k + 1))
  {
    if k == 0 {
    } else {
      RaisedGrows(g, k - 1);
      DemandsAreMonotone(g, Raised(g, k - 1), Raised(g, k));
    }
  }

  lemma {:induction false} RaisedStaysBelow(g: Grammar, d: Certificate, k: nat)
    requires Certifies(g, d)
    ensures Below(Raised(g, k), d)
  {
    if k == 0 {
    } else {
      RaisedStaysBelow(g, d, k - 1);
      DemandsAreMonotone(g, Raised(g, k - 1), d);
      CertifiesIff(g, d);
    }
  }

  /** Grows whenever a certificate does. */
  function Size(c: Certificate, k: nat): nat
    requires k <= |c.rank| == |c.nullable|
  {
    if k == 0 then 0 else Size(c, k - 1) + c.rank[k - 1] + if c.nullable[k - 1] then 1 else 0
  }

  lemma {:induction false} SizeGrows(a: Certificate, b: Certificate, k: nat)
    requires Below(a, b) && k <= |a.rank|
    ensures Size(a, k) <= Size(b, k)
    ensures (exists i :: 0 <= i < k && (a.rank[i] != b.rank[i] || a.nullable[i] != b.nullable[i])) ==> Size(a, k) < Size(b, k)
  {
    if k == 0 {
    } else {
      SizeGrows(a, b, k - 1);
    }
  }

  lemma {:induction false} SizeIsBounded(c: Certificate, n: nat, k: nat)
    requires |c.nullable| == |c.rank| && k <= |c.rank| && forall i :: 0 <= i < |c.rank| ==> c.rank[i] <= n
    ensures Size(c, k) <= k * (n + 1)
  {
    if k == 0 {
    } else {
      SizeIsBounded(c, n, k - 1);
      assert k * (n + 1) == (k - 1) * (n + 1) + (n + 1);
    }
  }

  lemma {:induction false} SettledOrLarge(g: Grammar, k: nat)
    ensures Raised(g, k + 1) == Raised(g, k) || Size(Raised(g, k), |g|) >= k
  {
    if k == 0 {
    } else {
      SettledOrLarge(g, k - 1);
      var a, b := Raised(g, k - 1), Raised(g, k);
      if a != b {
        RaisedGrows(g, k - 1);
        SizeGrows(a, b, |g|);
        assert a.rank != b.rank || a.nullable != b.nullable;
      }
    }
  }

  /** A grammar is well-formed exactly when the inferred certificate certifies it. */
  lemma WellFormedIffInferred(g: Grammar)
    ensures WellFormed(g) <==> Certifies(g, Infer(g))
  {
    if WellFormed(g) {
      var n := |g|;
      var rounds := n * (n + 1) + 1;
      var c, d := Raised(g, rounds), Dense(Cert(g));
      DenseCertifies(g, Cert(g));
      RaisedStaysBelow(g, d, rounds);
      SizeIsBounded(c, n, n);
      SettledOrLarge(g, rounds);
      CertifiesIff(g, d);
      CertifiesIff(g, c);
    }
  }

  // ----- left recursion

  /** May e enter rule j before it has consumed anything? */
  predicate Calls(g: Grammar, c: Certificate, e: Expr, j: nat)
    requires |c.nullable| == |g|
    decreases e
  {
    match e
    case Literal(_) => false
    case CharClass(_) => false
    case Dot => false
    case Reference(name) => Lookup(g, name) == Some(j)
    case Sequence(children) => SequenceCalls(g, c, children, 0, j)
    case Choice(children) => exists i :: 0 <= i < |children| && Calls(g, c, children[i], j)
    case _ => Calls(g, c, e.inner, j)
  }

  predicate SequenceCalls(g: Grammar, c: Certificate, es: seq<Expr>, i: nat, j: nat)
    requires |c.nullable| == |g| && i <= |es|
    decreases es, |es| - i
  {
    i < |es| && (Calls(g, c, es[i], j) || (Nullable(g, c, es[i]) && SequenceCalls(g, c, es, i + 1, j)))
  }

  ghost predicate CalledBelow(g: Grammar, c: Certificate, e: Expr, r: nat)
    requires Fits(g, c)
  {
    forall j :: 0 <= j < |g| && Calls(g, c, e, j) ==> c.rank[j] < r
  }

  /** The left rank bounds exactly the ranks of the rules that may be entered first. */
  lemma {:induction false} LeftRankIff(g: Grammar, c: Certificate, e: Expr, r: nat)
    requires Fits(g, c)
    ensures LeftRank(g, c, e) <= r <==> CalledBelow(g, c, e, r)
    decreases e
  {
    match e
    case Reference(name) =>
      var i := Lookup(g, name);
      if i.Some? {
        assert Calls(g, c, e, i.value);
      }
    case Sequence(children) => SequenceLeftRankIff(g, c, children, 0, r);
    case Choice(children) => ChoiceLeftRankIff(g, c, children, 0, r);
    case AndPredicate(inner) => LeftRankIff(g, c, inner, r);
    case NotPredicate(inner) => LeftRankIff(g, c, inner, r);
    case Optional(inner) => LeftRankIff(g, c, inner, r);
    case Star(inner) => LeftRankIff(g, c, inner, r);
    case Plus(inner) => LeftRankIff(g, c, inner, r);
    case _ =>
  }

  lemma {:induction false} SequenceLeftRankIff(g: Grammar, c: Certificate, es: seq<Expr>, i: nat, r: nat)
    requires Fits(g, c) && i <= |es|
    ensures SequenceLeftRank(g, c, es, i) <= r <==>
            forall j :: 0 <= j < |g| && SequenceCalls(g, c, es, i, j) ==> c.rank[j] < r
    decreases es, |es| - i
  {
    if i == |es| {
    } else {
      LeftRankIff(g, c, es[i], r);
      SequenceLeftRankIff(g, c, es, i + 1, r);
    }
  }

  lemma {:induction false} ChoiceLeftRankIff(g: Grammar, c: Certificate, es: seq<Expr>, i: nat, r: nat)
    requires Fits(g, c) && i <= |es|
    ensures ChoiceLeftRank(g, c, es, i) <= r <==> forall k :: i <= k < |es| ==> CalledBelow(g, c, es[k], r)
    decreases es, |es| - i
  {
    if i == |es| {
    } else {
      LeftRankIff(g, c, es[i], r);
      ChoiceLeftRankIff(g, c, es, i + 1, r);
    }
  }

  lemma {:induction false} CallsIsMonotone(g: Grammar, a: Certificate, b: Certificate, e: Expr, j: nat)
    requires Fits(g, a) && Fits(g, b) && forall i :: 0 <= i < |g| && a.nullable[i] ==> b.nullable[i]
    ensures Calls(g, a, e, j) ==> Calls(g, b, e, j)
    decreases e
  {
    match e
    case Sequence(children) => SequenceCallsIsMonotone(g, a, b, children, 0, j);
    case Choice(children) =>
      forall i | 0 <= i < |children| ensures Calls(g, a, children[i], j) ==> Calls(g, b, children[i], j) {
        CallsIsMonotone(g, a, b, children[i], j);
      }
    case AndPredicate(inner) => CallsIsMonotone(g, a, b, inner, j);
    case NotPredicate(inner) => CallsIsMonotone(g, a, b, inner, j);
    case Optional(inner) => CallsIsMonotone(g, a, b, inner, j);
    case Star(inner) => CallsIsMonotone(g, a, b, inner, j);
    case Plus(inner) => CallsIsMonotone(g, a, b, inner, j);
    case _ =>
  }

  lemma {:induction false} SequenceCallsIsMonotone(g: Grammar, a: Certificate, b: Certificate, es: seq<Expr>, i: nat, j: nat)
    requires Fits(g, a) && Fits(g, b) && forall i :: 0 <= i < |g| && a.nullable[i] ==> b.nullable[i]
    requires i <= |es|
    ensures SequenceCalls(g, a, es, i, j) ==> SequenceCalls(g, b, es, i, j)
    decreases es, |es| - i
  {
    if i == |es| {
    } else {
      CallsIsMonotone(g, a, b, es[i], j);
      NullableIsMonotone(g, a, b, es[i]);
      SequenceCallsIsMonotone(g, a, b, es, i + 1, j);
    }
  }

  // ----- the least nullability

  /** Which rules may match the empty string, as far as 'rounds' rounds tell. */
  function Empties(g: Grammar, rounds: nat): (c: Certificate)
    ensures Fits(g, c)
  {
    if rounds == 0 then Certificate(seq(|g|, _ => 0), seq(|g|, _ => false))
    else Certificate(seq(|g|, _ => 0), Demands(g, Empties(g, rounds - 1)).nullable)
  }

  function Least(g: Grammar): (c: Certificate)
    ensures Fits(g, c)
  {
    Empties(g, |g| + 1)
  }

  lemma {:induction false} EmptiesGrow(g: Grammar, k: nat)
    ensures Below(Empties(g, k), Empties(g, k + 1))
  {
    if k == 0 {
    } else {
      EmptiesGrow(g, k - 1);
      DemandsAreMonotone(g, Empties(g, k - 1), Empties(g, k));
    }
  }

  lemma {:induction false} EmptiesStayBelow(g: Grammar, d: Certificate, k: nat)
    requires Certifies(g, d)
    ensures Below(Empties(g, k), d)
  {
    if k == 0 {
    } else {
      EmptiesStayBelow(g, d, k - 1);
      DemandsAreMonotone(g, Empties(g, k - 1), d);
      CertifiesIff(g, d);
    }
  }

  lemma {:induction false} EmptiesSettleOrGrow(g: Grammar, k: nat)
    ensures Empties(g, k + 1) == Empties(g, k) || Size(Empties(g, k), |g|) >= k
  {
    if k == 0 {
    } else {
      EmptiesSettleOrGrow(g, k - 1);
      var a, b := Empties(g, k - 1), Empties(g, k);
      if a != b {
        EmptiesGrow(g, k - 1);
        SizeGrows(a, b, |g|);
        assert a.rank != b.rank || a.nullable != b.nullable;
      }
    }
  }

  /** The least nullability: what a rule demands of it, it grants. */
  lemma LeastIsSettled(g: Grammar)
    ensures Demands(g, Least(g)).nullable == Least(g).nullable
  {
    var n := |g|;
    EmptiesSettleOrGrow(g, n + 1);
    ZeroRanks(g, n + 1);
    SizeIsBounded(Least(g), 0, n);
  }

  lemma ZeroRanks(g: Grammar, k: nat)
    ensures forall i :: 0 <= i < |g| ==> Empties(g, k).rank[i] == 0
  {
  }

  // ----- cycles

  /** Each rule may enter the next one before it has consumed anything. */
  ghost predicate LeftPath(g: Grammar, path: seq<nat>) {
    && (forall i :: 0 <= i < |path| ==> path[i] < |g|)
    && forall i :: 0 <= i < |path| - 1 ==> Calls(g, Least(g), g[path[i]].expression, path[i + 1])
  }

  ghost predicate Reaches(g: Grammar, i: nat, j: nat) {
    exists path :: LeftPath(g, path) && |path| >= 2 && path[0] == i && path[|path| - 1] == j
  }

  ghost predicate LeftRecursive(g: Grammar) { exists i :: Reaches(g, i, i) }

  lemma {:induction false} RanksFallAlongPath(g: Grammar, c: Certificate, path: seq<nat>, k: nat)
    requires Certifies(g, c) && LeftPath(g, path) && k < |path|
    ensures c.rank[path[k]] + k <= c.rank[path[0]]
  {
    if k == 0 {
    } else {
      RanksFallAlongPath(g, c, path, k - 1);
      var i := path[k - 1];
      EmptiesStayBelow(g, c, |g| + 1);
      CallsIsMonotone(g, Least(g), c, g[i].expression, path[k]);
      assert RuleCertified(g, c, i);
      LeftRankIff(g, c, g[i].expression, c.rank[i]);
    }
  }

  /** A rule that can reach itself before anything is consumed, through however many others
      and past whatever may be empty, has no certificate. */
  lemma LeftRecursionIsNotWellFormed(g: Grammar)
    requires LeftRecursive(g)
    ensures !WellFormed(g)
  {
    var i :| Reaches(g, i, i);
    var path :| LeftPath(g, path) && |path| >= 2 && path[0] == i && path[|path| - 1] == i;
    if WellFormed(g) {
      RanksFallAlongPath(g, Cert(g), path, |path| - 1);
    }
  }

  ghost function Reach(g: Grammar, i: nat): (s: set<nat>)
    ensures forall j: nat :: j in s <==> j < |g| && Reaches(g, i, j)
  {
    set j | 0 <= j < |g| && Reaches(g, i, j)
  }

  lemma ReachesOn(g: Grammar, i: nat, j: nat, k: nat)
    requires i < |g| && j < |g| && Calls(g, Least(g), g[i].expression, j) && Reaches(g, j, k)
    ensures Reaches(g, i, k)
  {
    var path :| LeftPath(g, path) && |path| >= 2 && path[0] == j && path[|path| - 1] == k;
    var longer := [i] + path;
    assert forall l :: 0 <= l < |path| ==> longer[l + 1] == path[l];
    forall l | 0 <= l < |longer| - 1 ensures Calls(g, Least(g), g[longer[l]].expression, longer[l + 1]) {
      if l > 0 {
        assert longer[l] == path[l - 1] && longer[l + 1] == path[l];
      }
    }
    assert LeftPath(g, longer);
  }

  lemma ReachFalls(g: Grammar, i: nat, j: nat)
    requires !LeftRecursive(g) && i < |g| && j < |g| && Calls(g, Least(g), g[i].expression, j)
    ensures |Reach(g, j)| < |Reach(g, i)|
  {
    assert LeftPath(g, [i, j]);
    assert Reaches(g, i, j) && !Reaches(g, j, j);
    forall k | k in Reach(g, j) ensures k in Reach(g, i) {
      ReachesOn(g, i, j, k);
    }
    assert Reach(g, j) <= Reach(g, i) - {j};
    SubsetIsSmaller(Reach(g, j), Reach(g, i) - {j});
  }

  lemma {:induction false} SubsetIsSmaller(a: set<nat>, b: set<nat>)
    requires a <= b
    ensures |a| <= |b|
  {
    if a == {} {
    } else {
      var x :| x in a;
      SubsetIsSmaller(a - {x}, b - {x});
    }
  }

  /** The rank of a rule: how many rules it can reach without consuming anything. */
  ghost function ByReach(g: Grammar): (c: Certificate)
    ensures Fits(g, c)
  {
    Certificate(seq(|g|, i requires 0 <= i < |g| => |Reach(g, i)|), Least(g).nullable)
  }

  lemma ByReachCertifies(g: Grammar)
    requires !LeftRecursive(g) && forall i :: 0 <= i < |g| ==> WellShaped(g[i].expression)
    ensures Certifies(g, ByReach(g))
  {
    var c := ByReach(g);
    LeastIsSettled(g);
    forall i | 0 <= i < |g| ensures RuleCertified(g, c, i) {
      var e := g[i].expression;
      forall j | 0 <= j < |g| && Calls(g, c, e, j) ensures c.rank[j] < c.rank[i] {
        CallsIsMonotone(g, c, Least(g), e, j);
        ReachFalls(g, i, j);
      }
      LeftRankIff(g, c, e, c.rank[i]);
      NullableIsMonotone(g, c, Least(g), e);
      assert Demands(g, Least(g)).nullable[i] == Nullable(g, Least(g), e);
    }
  }

  /** The grammars these results cover are exactly those whose trees have the shape the
      matcher needs and in which no rule reaches itself before anything is consumed. */
  lemma WellFormedIffNotLeftRecursive(g: Grammar)
    ensures WellFormed(g) <==> !LeftRecursive(g) && forall i :: 0 <= i < |g| ==> WellShaped(g[i].expression)
  {
    if WellFormed(g) {
      if LeftRecursive(g) {
        LeftRecursionIsNotWellFormed(g);
      }
      CertifiesIff(g, Cert(g));
    }
    if !LeftRecursive(g) && forall i :: 0 <= i < |g| ==> WellShaped(g[i].expression) {
      ByReachCertifies(g);
    }
  }

  // ----- recursion behind something that consumes

  /** No reference anywhere. */
  predicate IsTerminal(e: Expr) {
    match e
    case Literal(_) => true
    case CharClass(_) => true
    case Dot => true
    case Reference(_) => false
    case Sequence(children) => forall i :: 0 <= i < |children| ==> IsTerminal(children[i])
    case Choice(children) => forall i :: 0 <= i < |children| ==> IsTerminal(children[i])
    case _ => IsTerminal(e.inner)
  }

  lemma {:induction false} TerminalsCallNothing(g: Grammar, c: Certificate, e: Expr, j: nat)
    requires |c.nullable| == |g| && IsTerminal(e)
    ensures !Calls(g, c, e, j)
    decreases e
  {
    match e
    case Sequence(children) => TerminalSequenceCallsNothing(g, c, children, 0, j);
    case Choice(children) =>
      forall i | 0 <= i < |children| ensures !Calls(g, c, children[i], j) {
        TerminalsCallNothing(g, c, children[i], j);
      }
    case AndPredicate(inner) => TerminalsCallNothing(g, c, inner, j);
    case NotPredicate(inner) => TerminalsCallNothing(g, c, inner, j);
    case Optional(inner) => TerminalsCallNothing(g, c, inner, j);
    case Star(inner) => TerminalsCallNothing(g, c, inner, j);
    case Plus(inner) => TerminalsCallNothing(g, c, inner, j);
    case _ =>
  }

  lemma {:induction false} TerminalSequenceCallsNothing(g: Grammar, c: Certificate, es: seq<Expr>, i: nat, j: nat)
    requires |c.nullable| == |g| && i <= |es| && forall k :: 0 <= k < |es| ==> IsTerminal(es[k])
    ensures !SequenceCalls(g, c, es, i, j)
    decreases es, |es| - i
  {
    if i == |es| {
    } else {
      TerminalsCallNothing(g, c, es[i], j);
      TerminalSequenceCallsNothing(g, c, es, i + 1, j);
    }
  }

  /** Whether it may be empty does not depend on a grammar. */
  lemma {:induction false} TerminalsStandAlone(g: Grammar, c: Certificate, e: Expr)
    requires |c.nullable| == |g| && IsTerminal(e)
    ensures Nullable(g, c, e) <==> Nullable([], Certificate([], []), e)
    decreases e
  {
    match e
    case Sequence(children) =>
      forall i | 0 <= i < |children| ensures Nullable(g, c, children[i]) <==> Nullable([], Certificate([], []), children[i]) {
        TerminalsStandAlone(g, c, children[i]);
      }
    case Choice(children) =>
      forall i | 0 <= i < |children| ensures Nullable(g, c, children[i]) <==> Nullable([], Certificate([], []), children[i]) {
        TerminalsStandAlone(g, c, children[i]);
      }
    case _ =>
  }

  lemma NoCallsNoPath(g: Grammar, path: seq<nat>)
    requires forall i, j :: 0 <= i < |g| ==> !Calls(g, Least(g), g[i].expression, j)
    ensures LeftPath(g, path) ==> |path| < 2
  {
    if |path| >= 2 && path[0] < |g| {
      assert !Calls(g, Least(g), g[path[0]].expression, path[0 + 1]);
    }
  }

  /** S <- guard S rest / other, for any guard that consumes something, any rest and any other
      way out. */
  lemma GuardedRecursionIsWellFormed(name: string, guard: Expr, rest: seq<Expr>, other: Expr)
    requires IsTerminal(guard) && IsTerminal(other)
    requires WellShaped(guard) && AllWellShaped(rest) && WellShaped(other)
    requires !Nullable([], Certificate([], []), guard)
    ensures WellFormed(Guarded(name, guard, rest, other))
  {
    var g := Guarded(name, guard, rest, other);
    var elements := [guard, Reference(name)] + rest;
    var ways := [Sequence(elements), other];
    TerminalsStandAlone(g, Least(g), guard);
    forall j ensures !Calls(g, Least(g), Choice(ways), j) {
      assert elements[0] == guard;
      TerminalsCallNothing(g, Least(g), guard, j);
      TerminalsCallNothing(g, Least(g), other, j);
      assert !SequenceCalls(g, Least(g), elements, 0, j);
      assert ways[0] == Sequence(elements) && ways[1] == other;
    }
    forall path ensures LeftPath(g, path) ==> |path| < 2 {
      NoCallsNoPath(g, path);
    }
    assert WellShaped(Sequence(elements)) && WellShaped(Choice(ways));
    WellFormedIffNotLeftRecursive(g);
  }

  function Guarded(name: string, guard: Expr, rest: seq<Expr>, other: Expr): Grammar {
    [Rule(name, Choice([Sequence([guard, Reference(name)] + rest), other]))]
  }
}
