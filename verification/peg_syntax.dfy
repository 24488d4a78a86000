/** Grammars of the PEG engine: expression trees, rules, and the character tests the
    engine relies on. The engine works on bytes in the "C" locale, so letters and digits
    are the ASCII ones. */
module PegSyntax {
  import opened Common

  datatype Expr =
    | Literal(text: string)
    | CharClass(spec: string)
    | Dot
    | Reference(name: string)
    | Sequence(children: seq<Expr>)
    | Choice(children: seq<Expr>)
    | AndPredicate(inner: Expr)
    | NotPredicate(inner: Expr)
    | Optional(inner: Expr)
    | Star(inner: Expr)
    | Plus(inner: Expr)

  datatype Rule = Rule(name: string, expression: Expr)

  type Grammar = seq<Rule>

  /** A parse tree node: the rule's name, the text it matched, where, and the nodes of the
      rules it referenced. */
  datatype Ast = Ast(name: string, token: string, children: seq<Ast>, start: nat, end: nat)

  // ----- characters

  predicate IsSpace(c: char) {
    c == ' ' || c == '\t' || c == '\n' || c == '\r' || c == '\U{000B}' || c == '\U{000C}'
  }

  predicate IsAlpha(c: char) {
    'a' <= c <= 'z' || 'A' <= c <= 'Z'
  }

  predicate IsIdentifierChar(c: char) {
    IsAlpha(c) || '0' <= c <= '9' || c == '_'
  }

  function ToLower(c: char): char {
    if 'A' <= c <= 'Z' then (c as int + 32) as char else c
  }

  // ----- rules

  /** The first rule with the given name, as REFERENCE resolves it. */
  function Lookup(g: Grammar, name: string): (r: Option<nat>)
    ensures r.Some? ==> r.value < |g|
  {
    if g == [] then None
    else
      var n := |g| - 1;
      match Lookup(g[..n], name)
      case Some(i) => Some(i)
      case None => if g[n].name == name then Some(n) else None
  }

  lemma {:induction false} LookupIsFirst(g: Grammar, name: string)
    ensures match Lookup(g, name)
            case Some(i) => g[i].name == name && forall j :: 0 <= j < i ==> g[j].name != name
            case None => forall j :: 0 <= j < |g| ==> g[j].name != name
  {
    if g == [] {
    } else {
      LookupIsFirst(g[..|g| - 1], name);
    }
  }

  /** Trees the engine can walk: a literal has a last character, a sequence and a choice
      have a first child. */
  predicate WellShaped(e: Expr) {
    match e
    case Literal(text) => text != []
    case CharClass(_) => true
    case Dot => true
    case Reference(_) => true
    case Sequence(children) => children != [] && forall i :: 0 <= i < |children| ==> WellShaped(children[i])
    case Choice(children) => children != [] && forall i :: 0 <= i < |children| ==> WellShaped(children[i])
    case AndPredicate(inner) => WellShaped(inner)
    case NotPredicate(inner) => WellShaped(inner)
    case Optional(inner) => WellShaped(inner)
    case Star(inner) => WellShaped(inner)
    case Plus(inner) => WellShaped(inner)
  }

  predicate AllWellShaped(es: seq<Expr>) {
    forall i :: 0 <= i < |es| ==> WellShaped(es[i])
  }

  /** Whitespace is skipped before a sequence element unless the element starts with a raw
      character class or '.'; a reference does not, whatever its rule starts with. */
  predicate StartsWithCharClass(e: Expr)
    requires WellShaped(e)
  {
    match e
    case CharClass(_) => true
    case Dot => true
    case AndPredicate(inner) => StartsWithCharClass(inner)
    case NotPredicate(inner) => StartsWithCharClass(inner)
    case Optional(inner) => StartsWithCharClass(inner)
    case Star(inner) => StartsWithCharClass(inner)
    case Plus(inner) => StartsWithCharClass(inner)
    case Sequence(children) => StartsWithCharClass(children[0])
    case Choice(children) => exists i :: 0 <= i < |children| && StartsWithCharClass(children[i])
    case Literal(_) => false
    case Reference(_) => false
  }

  // ----- grammars without left recursion

  /** A static claim about every rule: a rank that falls along every reference reachable
      before input is consumed, and whether the rule may match the empty string. */
  datatype Certificate = Certificate(rank: seq<nat>, nullable: seq<bool>)

  /** May e succeed without consuming input? '+' may not: the engine drops an empty
      iteration and then reports that nothing matched. */
  predicate Nullable(g: Grammar, c: Certificate, e: Expr)
    requires |c.nullable| == |g|
    decreases e
  {
    match e
    case Literal(_) => false
    case CharClass(_) => false
    case Dot => false
    case Reference(name) => var r := Lookup(g, name); r.Some? && c.nullable[r.value]
    case Sequence(children) => forall i :: 0 <= i < |children| ==> Nullable(g, c, children[i])
    case Choice(children) => exists i :: 0 <= i < |children| && Nullable(g, c, children[i])
    case AndPredicate(_) => true
    case NotPredicate(_) => true
    case Optional(_) => true
    case Star(_) => true
    case Plus(_) => false
  }

  function Max(a: nat, b: nat): nat { if a < b then b else a }

  /** One more than the highest rank of a rule that e may enter before consuming input; 0
      when it may enter none. */
  function LeftRank(g: Grammar, c: Certificate, e: Expr): nat
    requires |c.nullable| == |c.rank| == |g|
    decreases e
  {
    match e
    case Literal(_) => 0
    case CharClass(_) => 0
    case Dot => 0
    case Reference(name) => var r := Lookup(g, name); if r.Some? then c.rank[r.value] + 1 else 0
    case Sequence(children) => SequenceLeftRank(g, c, children, 0)
    case Choice(children) => ChoiceLeftRank(g, c, children, 0)
    case AndPredicate(inner) => LeftRank(g, c, inner)
    case NotPredicate(inner) => LeftRank(g, c, inner)
    case Optional(inner) => LeftRank(g, c, inner)
    case Star(inner) => LeftRank(g, c, inner)
    case Plus(inner) => LeftRank(g, c, inner)
  }

  /** The same for the elements of a sequence, and of a choice, from the i-th on. */
  function SequenceLeftRank(g: Grammar, c: Certificate, es: seq<Expr>, i: nat): nat
    requires |c.nullable| == |c.rank| == |g| && i <= |es|
    decreases es, |es| - i
  {
    if i == |es| then 0
    else Max(LeftRank(g, c, es[i]), if Nullable(g, c, es[i]) then SequenceLeftRank(g, c, es, i + 1) else 0)
  }

  function ChoiceLeftRank(g: Grammar, c: Certificate, es: seq<Expr>, i: nat): nat
    requires |c.nullable| == |c.rank| == |g| && i <= |es|
    decreases es, |es| - i
  {
    if i == |es| then 0 else Max(LeftRank(g, c, es[i]), ChoiceLeftRank(g, c, es, i + 1))
  }

  predicate RuleCertified(g: Grammar, c: Certificate, i: nat)
    requires |c.nullable| == |c.rank| == |g| && i < |g|
  {
    && WellShaped(g[i].expression)
    && (Nullable(g, c, g[i].expression) ==> c.nullable[i])
    && LeftRank(g, c, g[i].expression) <= c.rank[i]
  }

  predicate Certifies(g: Grammar, c: Certificate) {
    && |c.nullable| == |c.rank| == |g|
    && forall i {:trigger RuleCertified(g, c, i)} :: 0 <= i < |g| ==> RuleCertified(g, c, i)
  }

  /** No rule can reach itself without consuming input. References need not resolve: a
      dangling one is an error when it is reached. */
  ghost predicate WellFormed(g: Grammar) {
    exists c :: Certifies(g, c)
  }

  ghost function Cert(g: Grammar): (c: Certificate)
    requires WellFormed(g)
    ensures Certifies(g, c)
  {
    var c :| Certifies(g, c); c
  }
}
