/** SQL values: grouping equality, the order, comparison operators and hashing. */
module Values {
  import opened Common

  /** A double, up to the sign of zero. */
  datatype Double = NaN | NegInf | Finite(r: real) | PosInf

  predicate DoubleLess(a: Double, b: Double) {
    match (a, b)
    case (NaN, _) => false
    case (_, NaN) => false
    case (NegInf, _) => !b.NegInf?
    case (_, NegInf) => false
    case (PosInf, _) => false
    case (_, PosInf) => true
    case (Finite(x), Finite(y)) => x < y
  }

  predicate DoubleEqual(a: Double, b: Double) { !a.NaN? && a == b }

  // ----- from integers to doubles

  function Pow2(k: nat): (p: nat)
    ensures p >= 1
  {
    if k == 0 then 1 else 2 * Pow2(k - 1)
  }

  const MANTISSA: nat := 0x20_0000_0000_0000

  /** How many low bits of m do not fit a 53-bit mantissa. */
  function Excess(m: nat): nat {
    if m < MANTISSA then 0 else 1 + Excess(m / 2)
  }

  /** The nearest number with a 53-bit mantissa, ties to even. */
  function Rounded(m: nat): nat {
    var unit := Pow2(Excess(m));
    var q, r := m / unit, m % unit;
    if 2 * r > unit || (2 * r == unit && unit > 1 && q % 2 == 1) then (q + 1) * unit else q * unit
  }

  function ToDouble(i: int): Double {
    Finite(if i < 0 then -(Rounded(-i) as real) else Rounded(i) as real)
  }

  // ----- values

  datatype LogicalType = BOOLEAN | INTEGER | BIGINT | DOUBLE | VARCHAR | VECTOR(size: nat)

  datatype Value =
    | Null(nullType: LogicalType)
    | Boolean(b: bool)
    | Integer(i: int)
    | BigInt(i: int)
    | DoubleValue(d: Double)
    | Varchar(s: string)
    | Vector(v: seq<Double>)

  function TypeOf(v: Value): LogicalType {
    match v
    case Null(t) => t
    case Boolean(_) => BOOLEAN
    case Integer(_) => INTEGER
    case BigInt(_) => BIGINT
    case DoubleValue(_) => DOUBLE
    case Varchar(_) => VARCHAR
    case Vector(v) => VECTOR(|v|)
  }

  predicate IsNumeric(v: Value) { v.Integer? || v.BigInt? || v.DoubleValue? }

  function GetNumeric(v: Value): Double
    requires IsNumeric(v)
  {
    match v
    case Integer(i) => Finite(i as real)
    case BigInt(i) => ToDouble(i)
    case DoubleValue(d) => d
  }

  predicate VectorsEqual(a: seq<Double>, b: seq<Double>) {
    |a| == |b| && forall i :: 0 <= i < |a| ==> DoubleEqual(a[i], b[i])
  }

  /** Dictionary order; a proper prefix comes first. */
  predicate Lexicographic<T(!new)>(less: (T, T) -> bool, a: seq<T>, b: seq<T>) {
    if b == [] then false
    else if a == [] then true
    else if less(a[0], b[0]) then true
    else if less(b[0], a[0]) then false
    else Lexicographic(less, a[1..], b[1..])
  }

  predicate CharLess(a: char, b: char) { a < b }

  /** Grouping equality: NULL equals NULL whatever the types, numbers are coerced. */
  predicate Equals(l: Value, r: Value) {
    if l.Null? || r.Null? then l.Null? && r.Null?
    else if IsNumeric(l) && IsNumeric(r) then DoubleEqual(GetNumeric(l), GetNumeric(r))
    else if TypeOf(l) != TypeOf(r) then false
    else if l.Boolean? then l.b == r.b
    else if l.Vector? then VectorsEqual(l.v, r.v)
    else l.s == r.s
  }

  /** NULLs first. Values of types that do not compare are an error (None). */
  function LessThan(l: Value, r: Value): Option<bool> {
    if l.Null? || r.Null? then Some(l.Null? && !r.Null?)
    else if IsNumeric(l) && IsNumeric(r) then Some(DoubleLess(GetNumeric(l), GetNumeric(r)))
    else if TypeOf(l) != TypeOf(r) then None
    else if l.Boolean? then Some(!l.b && r.b)
    else if l.Vector? then Some(Lexicographic(DoubleLess, l.v, r.v))
    else Some(Lexicographic(CharLess, l.s, r.s))
  }

  predicate Comparable(l: Value, r: Value) {
    l.Null? || r.Null? || (IsNumeric(l) && IsNumeric(r)) || TypeOf(l) == TypeOf(r)
  }

  predicate HasNaN(v: Value) {
    match v
    case DoubleValue(d) => d.NaN?
    case Vector(v) => NaN in v
    case _ => false
  }

  // ----- equality

  lemma EqualsIsPartialEquivalence(a: Value, b: Value, c: Value)
    ensures Equals(a, b) <==> Equals(b, a)
    ensures Equals(a, b) && Equals(b, c) ==> Equals(a, c)
  {
  }

  /** A value equals itself unless there is a NaN in it. */
  lemma EqualsIsReflexiveIff(a: Value)
    ensures Equals(a, a) <==> !HasNaN(a)
  {
  }

  /** A NaN is equal to nothing at all. */
  lemma NaNEqualsNothing(a: Value, b: Value)
    requires HasNaN(a)
    ensures !Equals(a, b) && !Equals(b, a)
  {
  }

  /** Coercion to double identifies some different BIGINTs: 2^53 and 2^53 + 1. */
  lemma DistinctBigIntsMayBeEqual()
    ensures Equals(BigInt(MANTISSA), BigInt(MANTISSA + 1))
  {
  }

  // ----- order

  ghost predicate Trichotomous<T(!new)>(less: (T, T) -> bool, x: T, y: T) {
    && (less(x, y) ==> !less(y, x) && x != y)
    && (less(y, x) ==> x != y)
    && (less(x, y) || less(y, x) || x == y)
  }

  lemma {:induction false} LexicographicTrichotomy<T(!new)>(less: (T, T) -> bool, a: seq<T>, b: seq<T>)
    requires forall i, j :: 0 <= i < |a| && 0 <= j < |b| ==> Trichotomous(less, a[i], b[j])
    ensures Lexicographic(less, a, b) ==> !Lexicographic(less, b, a) && a != b
    ensures Lexicographic(less, b, a) ==> a != b
    ensures Lexicographic(less, a, b) || Lexicographic(less, b, a) || a == b
    decreases |a|
  {
    if a != [] && b != [] {
      assert Trichotomous(less, a[0], b[0]);
      forall i, j | 0 <= i < |a[1..]| && 0 <= j < |b[1..]| ensures Trichotomous(less, a[1..][i], b[1..][j]) {
        assert Trichotomous(less, a[i + 1], b[j + 1]);
      }
      LexicographicTrichotomy(less, a[1..], b[1..]);
      assert a == [a[0]] + a[1..] && b == [b[0]] + b[1..];
    }
  }

  /** Two comparable values without NaN stand in exactly one of the three relations. */
  lemma Trichotomy(l: Value, r: Value)
    requires Comparable(l, r) && !HasNaN(l) && !HasNaN(r)
    ensures LessThan(l, r).Some? && LessThan(r, l).Some?
    ensures LessThan(l, r).value ==> !LessThan(r, l).value && !Equals(l, r)
    ensures LessThan(r, l).value ==> !Equals(l, r)
    ensures LessThan(l, r).value || LessThan(r, l).value || Equals(l, r)
  {
    if l.Vector? && r.Vector? {
      forall i, j | 0 <= i < |l.v| && 0 <= j < |r.v| ensures Trichotomous(DoubleLess, l.v[i], r.v[j]) {
        assert l.v[i] in l.v && r.v[j] in r.v;
      }
      LexicographicTrichotomy(DoubleLess, l.v, r.v);
      EqualsIsReflexiveIff(l);
      assert VectorsEqual(l.v, r.v) ==> l.v == r.v;
    } else if l.Varchar? && r.Varchar? {
      LexicographicTrichotomy(CharLess, l.s, r.s);
    }
  }

  ghost predicate Transitive<T(!new)>(less: (T, T) -> bool, among: iset<T>) {
    forall x, y, z :: x in among && y in among && z in among && less(x, y) && less(y, z) ==> less(x, z)
  }

  ghost predicate Total<T(!new)>(less: (T, T) -> bool, among: iset<T>) {
    forall x, y :: x in among && y in among ==> Trichotomous(less, x, y)
  }

  lemma {:induction false} LexicographicTransitive<T(!new)>(less: (T, T) -> bool, among: iset<T>, a: seq<T>,
                                        b: seq<T>, c: seq<T>)
    requires Total(less, among) && Transitive(less, among)
    requires (forall x :: x in a ==> x in among) && (forall x :: x in b ==> x in among) && (forall x :: x in c ==> x in among)
    requires Lexicographic(less, a, b) && Lexicographic(less, b, c)
    ensures Lexicographic(less, a, c)
    decreases |a|
  {
    if a == [] {
    } else {
      assert a[0] in among && b[0] in among && c[0] in among;
      assert Trichotomous(less, a[0], b[0]) && Trichotomous(less, b[0], c[0]) && Trichotomous(less, a[0], c[0]);
      if a[0] == b[0] && b[0] == c[0] {
        LexicographicTransitive(less, among, a[1..], b[1..], c[1..]);
      }
    }
  }

  /** The order is transitive, so that with Trichotomy it is fit for sorting. */
  lemma LessThanIsTransitive(a: Value, b: Value, c: Value)
    requires !HasNaN(a) && !HasNaN(b) && !HasNaN(c)
    requires LessThan(a, b) == Some(true) && LessThan(b, c) == Some(true)
    ensures LessThan(a, c) == Some(true)
  {
    if a.Vector? {
      var numbers := iset d: Double | !d.NaN?;
      assert forall d :: d in a.v || d in b.v || d in c.v ==> d in numbers;
      LexicographicTransitive(DoubleLess, numbers, a.v, b.v, c.v);
    } else if a.Varchar? {
      var chars := iset x: char | x in a.s || x in b.s || x in c.s;
      LexicographicTransitive(CharLess, chars, a.s, b.s, c.s);
    }
  }

  // ----- comparison operators

  datatype Comparison = EQUAL | NOT_EQUAL | LESS_THAN | LESS_THAN_OR_EQUAL | GREATER_THAN | GREATER_THAN_OR_EQUAL

  function Not(b: Option<bool>): Option<bool> {
    if b.Some? then Some(!b.value) else None
  }

  /** The dispatch of the expression executor, with its short circuits. */
  function EvaluateComparison(comparison: Comparison, l: Value, r: Value): Option<bool> {
    var eq := Equals(l, r);
    match comparison
    case EQUAL => Some(eq)
    case NOT_EQUAL => Some(!eq)
    case LESS_THAN => LessThan(l, r)
    case LESS_THAN_OR_EQUAL => if eq then Some(true) else LessThan(l, r)
    case GREATER_THAN => if eq then Some(false) else Not(LessThan(l, r))
    case GREATER_THAN_OR_EQUAL => if eq then Some(true) else Not(LessThan(l, r))
  }

  function FlipComparison(comparison: Comparison): Comparison {
    match comparison
    case LESS_THAN => GREATER_THAN
    case LESS_THAN_OR_EQUAL => GREATER_THAN_OR_EQUAL
    case GREATER_THAN => LESS_THAN
    case GREATER_THAN_OR_EQUAL => LESS_THAN_OR_EQUAL
    case _ => comparison
  }

  /** Vectors of one dimension that agree wherever neither holds a NaN, and where at least
      one place holds one. */
  predicate UnorderedVectors(a: seq<Double>, b: seq<Double>) {
    && |a| == |b| && (NaN in a || NaN in b)
    && forall i :: 0 <= i < |a| ==> a[i].NaN? || b[i].NaN? || a[i] == b[i]
  }

  /** Values that are neither less, nor equal, nor greater; only a NaN makes this happen. */
  predicate Unordered(l: Value, r: Value) {
    || (IsNumeric(l) && IsNumeric(r) && (GetNumeric(l).NaN? || GetNumeric(r).NaN?))
    || (l.Vector? && r.Vector? && UnorderedVectors(l.v, r.v))
  }

  lemma {:induction false} LexicographicOfDoubles(a: seq<Double>, b: seq<Double>)
    requires |a| == |b|
    ensures !(Lexicographic(DoubleLess, a, b) && Lexicographic(DoubleLess, b, a))
    ensures !Lexicographic(DoubleLess, a, b) && !Lexicographic(DoubleLess, b, a) <==>
            forall i :: 0 <= i < |a| ==> a[i].NaN? || b[i].NaN? || a[i] == b[i]
    decreases |a|
  {
    if a == [] {
    } else {
      LexicographicOfDoubles(a[1..], b[1..]);
      if DoubleLess(a[0], b[0]) || DoubleLess(b[0], a[0]) {
      } else {
        assert forall i :: 0 < i < |a| ==> a[i] == a[1..][i - 1] && b[i] == b[1..][i - 1];
      }
    }
  }

  lemma UnorderedIsNoRelation(l: Value, r: Value)
    requires Comparable(l, r)
    ensures LessThan(l, r).Some? && LessThan(r, l).Some?
    ensures !(LessThan(l, r).value && LessThan(r, l).value)
    ensures Unordered(l, r) <==> !LessThan(l, r).value && !LessThan(r, l).value && !Equals(l, r)
    ensures Equals(l, r) ==> !LessThan(l, r).value && !LessThan(r, l).value
  {
    if l.Vector? && r.Vector? {
      LexicographicOfDoubles(l.v, r.v);
      if VectorsEqual(l.v, r.v) {
        forall i | 0 <= i < |l.v| ensures l.v[i] == r.v[i] && !l.v[i].NaN? {
          assert DoubleEqual(l.v[i], r.v[i]);
        }
      } else if UnorderedVectors(l.v, r.v) {
      } else if forall i :: 0 <= i < |l.v| ==> l.v[i].NaN? || r.v[i].NaN? || l.v[i] == r.v[i] {
        forall i | 0 <= i < |l.v| ensures DoubleEqual(l.v[i], r.v[i]) {
          assert l.v[i] in l.v && r.v[i] in r.v;
        }
      }
    } else if l.Varchar? && r.Varchar? {
      LexicographicTrichotomy(CharLess, l.s, r.s);
    }
  }

  /** Turning a comparison round keeps its meaning, for all values and errors included,
      except exactly when an ordering operator meets unordered values. */
  lemma FlipAgreesIff(comparison: Comparison, l: Value, r: Value)
    ensures EvaluateComparison(comparison, l, r) == EvaluateComparison(FlipComparison(comparison), r, l) <==>
            comparison.EQUAL? || comparison.NOT_EQUAL? || !Unordered(l, r)
  {
    EqualsIsPartialEquivalence(l, r, l);
    if Comparable(l, r) {
      UnorderedIsNoRelation(l, r);
    }
  }

  // ----- hashing

  /** std::hash for the payload types; nothing is assumed of it. */
  datatype Hasher = Hasher(double: Double -> bv64, boolean: bool -> bv64, text: string -> bv64)

  function Mix(h: Hasher, hash: bv64, v: seq<Double>): bv64
    decreases |v|
  {
    if v == [] then hash
    else Mix(h, MixOne(hash, h.double(v[0])), v[1..])
  }

  function MixOne(hash: bv64, element: bv64): bv64 {
    hash ^ (element + 0x9e3779b97f4a7c15 + (hash << 6) + (hash >> 2))
  }

  function Hash(h: Hasher, v: Value): bv64 {
    if v.Null? then 0x9e3779b97f4a7c15
    else if IsNumeric(v) then h.double(GetNumeric(v))
    else if v.Boolean? then h.boolean(v.b)
    else if v.Vector? then Mix(h, 0xcbf29ce484222325, v.v)
    else h.text(v.s)
  }

  /** Equal values hash alike, across numeric types and NULLs of any type. */
  lemma EqualValuesHashAlike(h: Hasher, a: Value, b: Value)
    requires Equals(a, b)
    ensures Hash(h, a) == Hash(h, b)
  {
    if a.Vector? && b.Vector? {
      forall i | 0 <= i < |a.v| ensures a.v[i] == b.v[i] {
        assert DoubleEqual(a.v[i], b.v[i]);
      }
      assert a.v == b.v;
    }
  }
}
