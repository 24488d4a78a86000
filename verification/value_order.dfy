/** What the equality, the order and the six comparison operators of SQL values come to, type by
    type. */
module ValueOrder {
  import opened Common
  import opened Values

  // ----- BIGINT to double

  /** Numbers with a 53-bit mantissa. */
  ghost predicate Representable(n: nat) {
    exists mantissa: nat, exponent: nat :: mantissa < MANTISSA && IsScaled(n, mantissa, exponent)
  }

  ghost predicate IsScaled(n: nat, mantissa: nat, exponent: nat) { n == mantissa * Pow2(exponent) }

  function Distance(a: int, b: int): nat { if a < b then b - a else a - b }

  lemma {:induction false} PowersDivide(low: nat, high: nat)
    requires low <= high
    ensures Pow2(high) == Pow2(high - low) * Pow2(low)
  {
    if low == high {
    } else {
      PowersDivide(low, high - 1);
    }
  }

  /** The mantissa that is left once the excess bits are gone. */
  lemma {:induction false} MantissaFits(m: nat)
    ensures m / Pow2(Excess(m)) < MANTISSA
    ensures Excess(m) > 0 ==> 2 * (m / Pow2(Excess(m))) >= MANTISSA
  {
    if m < MANTISSA {
    } else {
      MantissaFits(m / 2);
      HalvesDivide(m, Pow2(Excess(m / 2)));
      if Excess(m / 2) == 0 {
        assert m / 2 < MANTISSA && Pow2(0) == 1;
      }
    }
  }

  lemma HalvesDivide(m: nat, unit: nat)
    requires unit > 0
    ensures m / (2 * unit) == m / 2 / unit
  {
    var q, r := m / 2 / unit, m / 2 % unit;
    assert m == 2 * unit * q + (2 * r + m % 2);
    DivisionIsUnique(m, 2 * unit, q, 2 * r + m % 2);
  }

  lemma DivisionIsUnique(m: nat, unit: nat, q: nat, r: nat)
    requires unit > 0 && r < unit && m == unit * q + r
    ensures m / unit == q && m % unit == r
  {
    assert unit * (m / unit - q) == r - m % unit;
    MultipleBelow(unit, m / unit - q);
  }

  lemma MultipleBelow(unit: nat, d: int)
    requires unit > 0 && 0 < unit * d + unit && unit * d < unit
    ensures d == 0
  {
  }

  /** Both neighbours of a number with a 53-bit mantissa are representable. */
  lemma NeighboursAreRepresentable(m: nat)
    ensures var unit := Pow2(Excess(m)); var q := m / unit;
      Representable(q * unit) && (unit > 1 ==> Representable((q + 1) * unit))
  {
    var e := Excess(m);
    var q := m / Pow2(e);
    MantissaFits(m);
    assert IsScaled(q * Pow2(e), q, e);
    if q + 1 < MANTISSA {
      assert IsScaled((q + 1) * Pow2(e), q + 1, e);
    } else {
      assert (q + 1) * Pow2(e) == MANTISSA / 2 * (2 * Pow2(e));
      assert IsScaled((q + 1) * Pow2(e), MANTISSA / 2, e + 1);
    }
  }

  /** A representable number is a multiple of the unit, or lies below all numbers that need
      the excess bits. */
  lemma RepresentableAt(m: nat, n: nat)
    requires Representable(n)
    ensures var unit := Pow2(Excess(m)); n <= m / unit * unit || n >= (m / unit + 1) * unit
  {
    var e := Excess(m);
    var mantissa: nat, x: nat :| mantissa < MANTISSA && IsScaled(n, mantissa, x);
    MantissaFits(m);
    hide Excess;
    if x >= e {
      CoarseIsMultiple(mantissa, x, e, m / Pow2(e));
    } else {
      FineIsBelow(mantissa, x, e, m / Pow2(e));
    }
  }

  lemma CoarseIsMultiple(mantissa: nat, x: nat, e: nat, q: nat)
    requires e <= x
    ensures mantissa * Pow2(x) <= q * Pow2(e) || mantissa * Pow2(x) >= (q + 1) * Pow2(e)
  {
    PowersDivide(e, x);
    var k, unit, more := mantissa * Pow2(x - e), Pow2(e), Pow2(x - e);
    hide Pow2;
    Associates(mantissa, more, unit);
    MultiplesApart(k, q, unit);
  }

  lemma Associates(a: nat, b: nat, c: nat)
    ensures a * (b * c) == a * b * c
  {
  }

  lemma FineIsBelow(mantissa: nat, x: nat, e: nat, q: nat)
    requires x < e && mantissa < MANTISSA <= 2 * q
    ensures mantissa * Pow2(x) <= q * Pow2(e)
  {
    PowersDivide(x, e - 1);
    var small, half, more, whole := Pow2(x), Pow2(e - 1), Pow2(e - 1 - x), Pow2(e);
    assert whole == 2 * half && more >= 1;
    hide Pow2;
    Scaled(1, more, small);
    FineProduct(mantissa, small, half, q);
  }

  lemma FineProduct(mantissa: nat, small: nat, half: nat, q: nat)
    requires small <= half && mantissa <= 2 * q
    ensures mantissa * small <= q * (2 * half)
  {
    Scaled(small, half, mantissa);
    Scaled(mantissa, 2 * q, half);
    Associates(q, 2, half);
  }

  lemma MultiplesApart(k: nat, q: nat, unit: nat)
    ensures k * unit <= q * unit || k * unit >= (q + 1) * unit
  {
    if k <= q {
      Scaled(k, q, unit);
    } else {
      Scaled(q + 1, k, unit);
    }
  }

  lemma Scaled(a: nat, b: nat, unit: nat)
    requires a <= b
    ensures a * unit <= b * unit
  {
  }

  /** No number with a 53-bit mantissa is nearer. */
  lemma RoundedIsNearest(m: nat, n: nat)
    requires Representable(n)
    ensures Representable(Rounded(m)) && Distance(Rounded(m), m) <= Distance(n, m)
  {
    NeighboursAreRepresentable(m);
    RepresentableAt(m, n);
    RoundedIsNeighbour(m);
    hide Pow2, Excess, Representable, Rounded;
  }

  lemma RoundedIsNeighbour(m: nat)
    ensures var unit := Pow2(Excess(m)); var q, r := m / unit, m % unit;
      && m == q * unit + r && (q + 1) * unit == q * unit + unit && r < unit
      && (if Rounded(m) == q * unit then 2 * r <= unit else Rounded(m) == (q + 1) * unit && 2 * r >= unit && unit > 1)
  {
    Between(m, Pow2(Excess(m)));
    hide Pow2, Excess;
  }

  lemma Between(m: nat, unit: nat)
    requires unit > 0
    ensures m == m / unit * unit + m % unit && (m / unit + 1) * unit == m / unit * unit + unit
  {
  }

  /** Halfway between two of them the even mantissa wins. */
  lemma TiesGoToEven(m: nat)
    ensures var unit := Pow2(Excess(m));
      unit > 1 && 2 * (m % unit) == unit ==> exists half: nat :: IsTwice(Rounded(m), half, unit)
  {
    var unit := Pow2(Excess(m));
    var q := m / unit;
    Associates(q / 2, 2, unit);
    Associates((q + 1) / 2, 2, unit);
    hide Pow2, Excess;
    if unit > 1 && 2 * (m % unit) == unit {
      assert IsTwice(Rounded(m), if q % 2 == 0 then q / 2 else (q + 1) / 2, unit);
    }
  }

  ghost predicate IsTwice(n: nat, half: nat, unit: nat) { n == half * (2 * unit) }

  lemma RoundedIsExact(m: nat)
    requires Representable(m)
    ensures Rounded(m) == m
  {
    RoundedIsNearest(m, m);
  }

  lemma SmallIsRepresentable(m: nat)
    requires m <= MANTISSA
    ensures Representable(m)
  {
    if m == MANTISSA {
      assert Pow2(0) == 1 && Pow2(1) == 2 && IsScaled(m, MANTISSA / 2, 1);
    } else {
      assert Pow2(0) == 1 && IsScaled(m, m, 0);
    }
  }

  lemma RoundedIsMonotone(a: nat, b: nat)
    requires a <= b
    ensures Rounded(a) <= Rounded(b)
  {
    if a < b {
      RoundedIsNearest(b, Rounded(b)) by { NeighboursAreRepresentable(b); }
      RoundedIsNearest(a, Rounded(a)) by { NeighboursAreRepresentable(a); }
      RoundedIsNearest(a, Rounded(b));
      RoundedIsNearest(b, Rounded(a));
    }
  }

  /** BIGINTs compare as doubles: never the wrong way round, and exactly where both lie within
      2^53 of zero. */
  lemma BigIntsCompare(a: int, b: int)
    ensures LessThan(BigInt(a), BigInt(b)) == Some(true) ==> a < b
    ensures a == b ==> Equals(BigInt(a), BigInt(b))
    ensures Distance(a, 0) <= MANTISSA && Distance(b, 0) <= MANTISSA ==>
      (LessThan(BigInt(a), BigInt(b)) == Some(true) <==> a < b) && (Equals(BigInt(a), BigInt(b)) <==> a == b)
  {
    if Distance(a, 0) <= MANTISSA && Distance(b, 0) <= MANTISSA {
      ExactWithin(a);
      ExactWithin(b);
    } else if b <= a {
      if b >= 0 {
        RoundedIsMonotone(b, a);
      } else if a < 0 {
        RoundedIsMonotone(-a, -b);
      }
    }
  }

  lemma ExactWithin(i: int)
    requires Distance(i, 0) <= MANTISSA
    ensures ToDouble(i) == Finite(i as real)
  {
    var m: nat := if i < 0 then -i else i;
    SmallIsRepresentable(m);
    RoundedIsExact(m);
  }

  // ----- the order

  /** The first k places decide nothing, and then a ends first or is the lesser. */
  ghost predicate DecidedAt<T(!new)>(less: (T, T) -> bool, a: seq<T>, b: seq<T>, k: nat) {
    && k <= |a| && k < |b|
    && (forall i :: 0 <= i < k ==> !less(a[i], b[i]) && !less(b[i], a[i]))
    && (k == |a| || less(a[k], b[k]))
  }

  lemma {:induction false} LexicographicIsDecided<T(!new)>(less: (T, T) -> bool, a: seq<T>, b: seq<T>)
    requires Lexicographic(less, a, b)
    ensures exists k: nat :: DecidedAt(less, a, b, k)
    decreases |a|
  {
    if a == [] || less(a[0], b[0]) {
      assert DecidedAt(less, a, b, 0);
    } else {
      LexicographicIsDecided(less, a[1..], b[1..]);
      var k: nat :| DecidedAt(less, a[1..], b[1..], k);
      assert forall i :: 0 < i <= |a[1..]| ==> a[i] == a[1..][i - 1];
      assert forall i :: 0 < i <= |b[1..]| ==> b[i] == b[1..][i - 1];
      assert DecidedAt(less, a, b, k + 1);
    }
  }

  lemma {:induction false} DecidedIsLexicographic<T(!new)>(less: (T, T) -> bool, a: seq<T>, b: seq<T>, k: nat)
    requires DecidedAt(less, a, b, k)
    ensures Lexicographic(less, a, b)
    decreases k
  {
    if k == 0 {
    } else {
      assert forall i :: 0 <= i < k ==> !less(a[i], b[i]) && !less(b[i], a[i]);
      assert DecidedAt(less, a[1..], b[1..], k - 1) by {
        assert forall i :: 0 <= i < |a[1..]| ==> a[1..][i] == a[i + 1];
        assert forall i :: 0 <= i < |b[1..]| ==> b[1..][i] == b[i + 1];
      }
      DecidedIsLexicographic(less, a[1..], b[1..], k - 1);
    }
  }

  /** Equal up to k, where s ends first or has the lesser character. */
  ghost predicate Precedes(s: string, t: string, k: nat) {
    k <= |s| && k < |t| && s[..k] == t[..k] && (k == |s| || s[k] < t[k])
  }

  /** Strings are in dictionary order of their characters. */
  lemma StringOrder(s: string, t: string)
    ensures LessThan(Varchar(s), Varchar(t)).Some?
    ensures LessThan(Varchar(s), Varchar(t)).value <==> exists k: nat :: Precedes(s, t, k)
  {
    if LessThan(Varchar(s), Varchar(t)).value {
      LexicographicIsDecided(CharLess, s, t);
      var k: nat :| DecidedAt(CharLess, s, t, k);
      assert forall i :: 0 <= i < k ==> s[i] == t[i];
      assert Precedes(s, t, k);
    }
    if k: nat :| Precedes(s, t, k) {
      assert forall i :: 0 <= i < k ==> s[i] == s[..k][i] && t[i] == t[..k][i];
      assert DecidedAt(CharLess, s, t, k);
      DecidedIsLexicographic(CharLess, s, t, k);
    }
  }

  /** The real numbers with an infinity at either end; a NaN is below and above nothing. */
  ghost predicate Below(a: Double, b: Double) {
    && !a.NaN? && !b.NaN? && a != b
    && (a.NegInf? || b.PosInf? || (a.Finite? && b.Finite? && a.r < b.r))
  }

  /** The first place at which the two vectors hold different numbers has the lesser one in a. */
  ghost predicate FirstBelow(a: seq<Double>, b: seq<Double>) {
    exists k: nat :: k < |a| && k < |b| && Below(a[k], b[k]) &&
      forall i :: 0 <= i < k ==> a[i].NaN? || b[i].NaN? || a[i] == b[i]
  }

  /** Vectors of one dimension: the first place at which neither holds a NaN and the numbers
      differ decides. */
  lemma VectorOrder(a: seq<Double>, b: seq<Double>)
    requires |a| == |b|
    ensures LessThan(Vector(a), Vector(b)).Some?
    ensures LessThan(Vector(a), Vector(b)).value <==> FirstBelow(a, b)
  {
    if LessThan(Vector(a), Vector(b)).value {
      LexicographicIsDecided(DoubleLess, a, b);
      var k: nat :| DecidedAt(DoubleLess, a, b, k);
      assert Below(a[k], b[k]);
    }
    if k: nat :| k < |a| && Below(a[k], b[k]) && forall i :: 0 <= i < k ==> a[i].NaN? || b[i].NaN? || a[i] == b[i] {
      assert DecidedAt(DoubleLess, a, b, k);
      DecidedIsLexicographic(DoubleLess, a, b, k);
    }
  }

  /** Which values can be compared: those with a NULL among them, numbers, and values of one
      type, where vectors of different dimensions are of different types. */
  ghost predicate SameKind(l: Value, r: Value) {
    match (l, r)
    case (Null(_), _) => true
    case (_, Null(_)) => true
    case (Boolean(_), Boolean(_)) => true
    case (Varchar(_), Varchar(_)) => true
    case (Vector(a), Vector(b)) => |a| == |b|
    case (Boolean(_), _) => false
    case (Varchar(_), _) => false
    case (Vector(_), _) => false
    case (_, Boolean(_)) => false
    case (_, Varchar(_)) => false
    case (_, Vector(_)) => false
    case _ => true
  }

  /** The number a value stands for; of a BIGINT only that the nearest double stands for it. */
  ghost predicate Denotes(v: Value, d: Double) {
    match v
    case Integer(i) => d == Finite(i as real)
    case BigInt(i) => d == ToDouble(i)
    case DoubleValue(e) => d == e
    case _ => false
  }

  /** The order, type by type: NULL first, false before true, integers, doubles, strings and
      vectors as usual; values of different kinds do not compare. */
  lemma OrderTable(l: Value, r: Value)
    ensures LessThan(l, r).Some? <==> SameKind(l, r)
    ensures SameKind(l, r) ==>
      (LessThan(l, r).value <==>
       match (l, r)
       case (_, Null(_)) => false
       case (Null(_), _) => true
       case (Boolean(a), Boolean(b)) => b && a != b
       case (Integer(a), Integer(b)) => a < b
       case (Varchar(a), Varchar(b)) => exists k: nat :: Precedes(a, b, k)
       case (Vector(a), Vector(b)) => FirstBelow(a, b)
       case _ => exists d, e :: Denotes(l, d) && Denotes(r, e) && Below(d, e))
  {
    if l.Varchar? && r.Varchar? {
      StringOrder(l.s, r.s);
    } else if l.Vector? && r.Vector? && |l.v| == |r.v| {
      VectorOrder(l.v, r.v);
    } else if IsNumeric(l) && IsNumeric(r) {
      assert Denotes(l, GetNumeric(l)) && Denotes(r, GetNumeric(r));
    }
  }

  /** Equality, type by type; a NaN is equal to nothing. */
  lemma EqualityTable(l: Value, r: Value)
    ensures Equals(l, r) <==>
      match (l, r)
      case (Null(_), Null(_)) => true
      case (Boolean(a), Boolean(b)) => a == b
      case (Integer(a), Integer(b)) => a == b
      case (Varchar(a), Varchar(b)) => a == b
      case (Vector(a), Vector(b)) => a == b && NaN !in a
      case _ => exists d :: d != NaN && Denotes(l, d) && Denotes(r, d)
  {
    if IsNumeric(l) && IsNumeric(r) {
      assert Denotes(l, GetNumeric(l)) && Denotes(r, GetNumeric(r));
    } else if l.Vector? && r.Vector? && Equals(l, r) {
      assert forall i :: 0 <= i < |l.v| ==> DoubleEqual(l.v[i], r.v[i]);
    }
  }

  // ----- the operators

  /** The six operators against equality and order. Values that are neither less, equal nor
      greater, which takes a NaN, answer `>` and `>=` with true. */
  lemma OperatorTable(l: Value, r: Value)
    ensures EvaluateComparison(EQUAL, l, r) == Some(Equals(l, r))
    ensures EvaluateComparison(NOT_EQUAL, l, r) == Some(!Equals(l, r))
    ensures SameKind(l, r) ==>
      var less, equal, greater := LessThan(l, r).value, Equals(l, r), LessThan(r, l).value;
      var neither := !less && !equal && !greater;
      && EvaluateComparison(LESS_THAN, l, r) == Some(less)
      && EvaluateComparison(LESS_THAN_OR_EQUAL, l, r) == Some(less || equal)
      && EvaluateComparison(GREATER_THAN, l, r) == Some(greater || neither)
      && EvaluateComparison(GREATER_THAN_OR_EQUAL, l, r) == Some(greater || equal || neither)
      && (neither ==> HasNaN(l) || HasNaN(r))
    ensures !SameKind(l, r) ==> forall comparison: Comparison :: !comparison.EQUAL? && !comparison.NOT_EQUAL? ==>
      EvaluateComparison(comparison, l, r) == None
  {
    OrderTable(l, r);
    OrderTable(r, l);
    if SameKind(l, r) {
      UnorderedIsNoRelation(l, r);
      if !HasNaN(l) && !HasNaN(r) {
        Trichotomy(l, r);
      }
    } else {
      EqualityTable(l, r);
    }
  }

  /** Without NaN the operators are those of a total order: exactly one of `<`, `=` and `>` is
      true, and each operator is the opposite of another one. */
  lemma OneOfThree(l: Value, r: Value)
    requires SameKind(l, r) && !HasNaN(l) && !HasNaN(r)
    ensures var less, equal, greater := Holds(LESS_THAN, l, r), Holds(EQUAL, l, r), Holds(GREATER_THAN, l, r);
      && (less || equal || greater) && !(less && equal) && !(equal && greater) && !(less && greater)
      && (Holds(NOT_EQUAL, l, r) <==> !equal)
      && (Holds(LESS_THAN_OR_EQUAL, l, r) <==> !greater)
      && (Holds(GREATER_THAN_OR_EQUAL, l, r) <==> !less)
      && (greater <==> Holds(LESS_THAN, r, l))
  {
    OperatorTable(l, r);
    OperatorTable(r, l);
    Trichotomy(l, r);
  }

  ghost predicate Holds(comparison: Comparison, l: Value, r: Value) {
    EvaluateComparison(comparison, l, r) == Some(true)
  }

  /** On integers the operators are those of arithmetic. */
  lemma IntegerOperators(a: int, b: int)
    ensures var l, r := Integer(a), Integer(b);
      && EvaluateComparison(EQUAL, l, r) == Some(a == b)
      && EvaluateComparison(NOT_EQUAL, l, r) == Some(a != b)
      && EvaluateComparison(LESS_THAN, l, r) == Some(a < b)
      && EvaluateComparison(LESS_THAN_OR_EQUAL, l, r) == Some(a <= b)
      && EvaluateComparison(GREATER_THAN, l, r) == Some(a > b)
      && EvaluateComparison(GREATER_THAN_OR_EQUAL, l, r) == Some(a >= b)
  {
    OperatorTable(Integer(a), Integer(b));
    OneOfThree(Integer(a), Integer(b));
    OrderTable(Integer(a), Integer(b));
    EqualityTable(Integer(a), Integer(b));
  }

  // ----- hashing

  /** Hashing a vector goes on where hashing its first part stopped. */
  lemma {:induction false} MixInTwo(h: Hasher, hash: bv64, a: seq<Double>, b: seq<Double>)
    ensures Mix(h, hash, a + b) == Mix(h, Mix(h, hash, a), b)
    decreases |a|
  {
    hide MixOne;
    if a == [] {
      assert a + b == b;
    } else {
      assert (a + b)[0] == a[0] && (a + b)[1..] == a[1..] + b;
      MixInTwo(h, MixOne(hash, h.double(a[0])), a[1..], b);
    }
  }

  /** The hash tells two values of a kind apart wherever the hash of their contents does; the
      last component of a vector is mixed into the hash of the others. */
  lemma HashTellsApart(h: Hasher, l: Value, r: Value, v: seq<Double>, d: Double)
    ensures l.Null? && r.Null? ==> Hash(h, l) == Hash(h, r)
    ensures IsNumeric(l) && IsNumeric(r) ==>
      (Hash(h, l) == Hash(h, r) <==> h.double(GetNumeric(l)) == h.double(GetNumeric(r)))
    ensures l.Boolean? && r.Boolean? ==> (Hash(h, l) == Hash(h, r) <==> h.boolean(l.b) == h.boolean(r.b))
    ensures l.Varchar? && r.Varchar? ==> (Hash(h, l) == Hash(h, r) <==> h.text(l.s) == h.text(r.s))
    ensures Hash(h, Vector(v + [d])) == MixOne(Hash(h, Vector(v)), h.double(d))
  {
    hide MixOne, GetNumeric;
    MixInTwo(h, 0xcbf29ce484222325, v, [d]);
    assert [d][1..] == [];
  }
}
