/** Column vectors: values beside a bit mask that says which of them are valid, packed into
    64-bit words. */
module Vectors {
  import opened Common
  import opened Values

  const BITS_PER_WORD: nat := 64
  const WORD_COUNT: nat := 32

  /** The place of a row inside its word: a shift distance, so six bits wide. */
  function Place(i: nat): bv6
    requires i < 64
  {
    i as bv6
  }

  lemma PlaceIsInjective(i: nat, j: nat)
    requires i < 64 && j < 64
    ensures Place(i) == Place(j) <==> i == j
  {
  }

  predicate BitOf(w: bv64, i: bv6) { (w >> i) & 1 == 1 }

  lemma SetBit(w: bv64, i: bv6, j: bv6)
    ensures BitOf(w | (1 << i), j) == (i == j || BitOf(w, j))
  {
  }

  lemma ClearBit(w: bv64, i: bv6, j: bv6)
    ensures BitOf(w & !(1 << i), j) == (i != j && BitOf(w, j))
  {
  }

  method WithBit(w: bv64, i: bv6) returns (r: bv64)
    ensures forall j: bv6 :: BitOf(r, j) == (i == j || BitOf(w, j))
  {
    r := w | (1 << i);
    forall j: bv6 ensures BitOf(r, j) == (i == j || BitOf(w, j)) {
      SetBit(w, i, j);
    }
  }

  method WithoutBit(w: bv64, i: bv6) returns (r: bv64)
    ensures forall j: bv6 :: BitOf(r, j) == (i != j && BitOf(w, j))
  {
    r := w & !(1 << i);
    forall j: bv6 ensures BitOf(r, j) == (i != j && BitOf(w, j)) {
      ClearBit(w, i, j);
    }
  }

  lemma AllBits(j: bv6)
    ensures BitOf(0xFFFF_FFFF_FFFF_FFFF, j)
  {
  }

  function CountTrue(bits: seq<bool>): nat {
    if bits == [] then 0 else CountTrue(bits[..|bits| - 1]) + if bits[|bits| - 1] then 1 else 0
  }

  lemma {:induction false} CountTrueIsMultiplicity(bits: seq<bool>)
    ensures CountTrue(bits) == multiset(bits)[true]
  {
    if bits == [] {
    } else {
      var n := |bits| - 1;
      CountTrueIsMultiplicity(bits[..n]);
      assert bits == bits[..n] + [bits[n]];
    }
  }

  class ValidityMask {
    const words: array<bv64>

    ghost predicate Valid() { words.Length == WORD_COUNT }

    predicate IsValid(index: nat)
      requires Valid() && index < STANDARD_VECTOR_SIZE
      reads words
    {
      BitOf(words[index / BITS_PER_WORD], Place(index % BITS_PER_WORD))
    }

    /** The mask as the list of booleans it stands for. */
    ghost function Bits(): (b: seq<bool>)
      requires Valid()
      reads words
      ensures |b| == STANDARD_VECTOR_SIZE
    {
      seq(STANDARD_VECTOR_SIZE, i requires 0 <= i < STANDARD_VECTOR_SIZE reads words => IsValid(i))
    }

    constructor ()
      ensures Valid() && fresh(words) && Bits() == seq(STANDARD_VECTOR_SIZE, _ => true)
    {
      words := new bv64[WORD_COUNT];
      new;
      Reset();
    }

    method Reset()
      requires Valid()
      modifies words
      ensures Bits() == seq(STANDARD_VECTOR_SIZE, _ => true)
    {
      var word := 0;
      while word < WORD_COUNT
        invariant 0 <= word <= WORD_COUNT
        invariant forall k :: 0 <= k < word ==> words[k] == 0xFFFF_FFFF_FFFF_FFFF
      {
        words[word] := 0xFFFF_FFFF_FFFF_FFFF;
        word := word + 1;
      }
      forall i | 0 <= i < STANDARD_VECTOR_SIZE ensures IsValid(i) {
        AllBits(Place(i % BITS_PER_WORD));
      }
    }

    method SetValid(index: nat)
      requires Valid() && index < STANDARD_VECTOR_SIZE
      modifies words
      ensures Bits() == old(Bits())[index := true]
    {
      var k, bit := index / BITS_PER_WORD, Place(index % BITS_PER_WORD);
      var word := WithBit(words[k], bit);
      words[k] := word;
      forall i: nat | i < STANDARD_VECTOR_SIZE ensures IsValid(i) == (i == index || old(IsValid(i))) {
        if i / BITS_PER_WORD == k {
          PlaceIsInjective(index % BITS_PER_WORD, i % BITS_PER_WORD);
        }
      }
    }

    method SetInvalid(index: nat)
      requires Valid() && index < STANDARD_VECTOR_SIZE
      modifies words
      ensures Bits() == old(Bits())[index := false]
    {
      var k, bit := index / BITS_PER_WORD, Place(index % BITS_PER_WORD);
      var word := WithoutBit(words[k], bit);
      words[k] := word;
      forall i: nat | i < STANDARD_VECTOR_SIZE ensures IsValid(i) == (i != index && old(IsValid(i))) {
        if i / BITS_PER_WORD == k {
          PlaceIsInjective(index % BITS_PER_WORD, i % BITS_PER_WORD);
        }
      }
    }

    method AllValid(count: nat) returns (r: bool)
      requires Valid() && count <= STANDARD_VECTOR_SIZE
      ensures r <==> forall i :: 0 <= i < count ==> Bits()[i]
    {
      var i := 0;
      while i < count
        invariant 0 <= i <= count && forall k :: 0 <= k < i ==> Bits()[k]
      {
        if !IsValid(i) {
          assert !Bits()[i];
          return false;
        }
        i := i + 1;
      }
      return true;
    }

    method CountValid(count: nat) returns (result: nat)
      requires Valid() && count <= STANDARD_VECTOR_SIZE
      ensures result == CountTrue(Bits()[..count])
    {
      result := 0;
      var i := 0;
      while i < count
        invariant 0 <= i <= count && result == CountTrue(Bits()[..i])
      {
        assert Bits()[..i + 1][..i] == Bits()[..i] && Bits()[i] == IsValid(i);
        if IsValid(i) {
          result := result + 1;
        }
        i := i + 1;
      }
    }
  }

  // ----- vectors

  /** What a slot holds before anything is stored in it. */
  function Blank(t: LogicalType): Value {
    match t
    case BOOLEAN => Boolean(false)
    case INTEGER => Integer(0)
    case BIGINT => BigInt(0)
    case DOUBLE => DoubleValue(Finite(0.0))
    case VARCHAR => Varchar("")
    case VECTOR(_) => Vector([])
  }

  /** That is zero, false or nothing, and of the column's type but for an embedding. */
  lemma BlankIsLeast(t: LogicalType)
    ensures var v := Blank(t);
      && !v.Null? && (t.VECTOR? || TypeOf(v) == t)
      && (IsNumeric(v) ==> Equals(v, Integer(0)))
      && (v.Boolean? ==> LessThan(v, Boolean(true)) == Some(true))
      && (v.Varchar? ==> |v.s| == 0)
      && (t.VECTOR? ==> v.Vector? && |v.v| == 0)
  {
  }

  ghost function BlankColumn(t: LogicalType): seq<Value> { seq(STANDARD_VECTOR_SIZE, _ => Blank(t)) }

  /** A stored embedding must not be empty; an untouched slot of a VECTOR column is. */
  predicate Presentable(v: Value) { v.Vector? ==> v.v != [] }

  class ColumnVector {
    const columnType: LogicalType
    const validity: ValidityMask
    const data: array<Value>

    ghost const Repr: set<object> := {validity, validity.words, data}

    ghost predicate Sized() { validity.Valid() && data.Length == STANDARD_VECTOR_SIZE }

    ghost predicate Valid()
      reads data
    {
      && Sized()
      && forall i :: 0 <= i < STANDARD_VECTOR_SIZE ==>
        !data[i].Null? && (TypeOf(data[i]) == columnType || data[i] == Blank(columnType))
    }

    /** The slot as a SQL value. */
    function Slot(i: nat): Value
      requires Sized() && i < STANDARD_VECTOR_SIZE
      reads data, validity.words
    {
      if validity.IsValid(i) then data[i] else Null(columnType)
    }

    ghost function Contents(): (c: seq<Value>)
      requires Sized()
      reads data, validity.words
      ensures |c| == STANDARD_VECTOR_SIZE
      ensures forall i :: 0 <= i < STANDARD_VECTOR_SIZE ==> c[i] == Slot(i)
    {
      seq(STANDARD_VECTOR_SIZE, i requires 0 <= i < STANDARD_VECTOR_SIZE reads data, validity.words => Slot(i))
    }

    constructor (t: LogicalType)
      ensures Valid() && columnType == t && fresh(Repr)
      ensures Contents() == BlankColumn(t)
    {
      columnType := t;
      validity := new ValidityMask();
      data := new Value[STANDARD_VECTOR_SIZE](_ => Blank(t));
      new;
      forall i: nat | i < STANDARD_VECTOR_SIZE ensures Slot(i) == Blank(t) {
        assert validity.Bits()[i];
      }
    }

    /** Throws (None) past the end and on an untouched slot of a VECTOR column. */
    method GetValue(index: nat) returns (r: Option<Value>)
      requires Valid()
      ensures r == if index < STANDARD_VECTOR_SIZE && Presentable(Contents()[index]) then Some(Contents()[index]) else None
      ensures r.Some? ==> TypeOf(r.value) == columnType
    {
      if index >= STANDARD_VECTOR_SIZE {
        return None;
      }
      if !validity.IsValid(index) {
        return Some(Null(columnType));
      }
      if data[index].Vector? && data[index].v == [] {
        return None;
      }
      return Some(data[index]);
    }

    /** Throws (false), and changes nothing, past the end and on a value of another type. */
    method SetValue(index: nat, value: Value) returns (ok: bool)
      requires Valid()
      modifies data, validity.words
      ensures Valid()
      ensures ok <==> index < STANDARD_VECTOR_SIZE && TypeOf(value) == columnType
      ensures Contents() == if ok then old(Contents())[index := value] else old(Contents())
    {
      if index >= STANDARD_VECTOR_SIZE {
        return false;
      }
      if TypeOf(value) != columnType {
        return false;
      }
      ok := true;
      ghost var bits := validity.Bits();
      if value.Null? {
        validity.SetInvalid(index);
      } else {
        validity.SetValid(index);
        data[index] := value;
      }
      forall i: nat | i < STANDARD_VECTOR_SIZE ensures Slot(i) == if i == index then value else old(Slot(i)) {
        assert validity.IsValid(i) == validity.Bits()[i] && old(validity.IsValid(i)) == bits[i];
      }
    }

    method Reset()
      requires Valid()
      modifies data, validity.words
      ensures Valid() && validity.Bits() == seq(STANDARD_VECTOR_SIZE, _ => true)
      ensures forall i :: 0 <= i < STANDARD_VECTOR_SIZE ==>
        data[i] == if columnType.VARCHAR? || columnType.VECTOR? then Blank(columnType) else old(data[i])
    {
      validity.Reset();
      if columnType.VARCHAR? || columnType.VECTOR? {
        var i := 0;
        while i < STANDARD_VECTOR_SIZE
          invariant 0 <= i <= STANDARD_VECTOR_SIZE && Valid()
          invariant validity.Bits() == seq(STANDARD_VECTOR_SIZE, _ => true)
          invariant forall k :: 0 <= k < i ==> data[k] == Blank(columnType)
        {
          data[i] := Blank(columnType);
          i := i + 1;
        }
      }
    }
  }

  /** Storing a value and reading it back gives the value, NULL included, and no other slot
      moves. */
  method StoreThenLoad(v: ColumnVector, index: nat, value: Value) returns (back: Option<Value>)
    requires v.Valid() && index < STANDARD_VECTOR_SIZE && TypeOf(value) == v.columnType && Presentable(value)
    modifies v.data, v.validity.words
    ensures back == Some(value)
    ensures forall i :: 0 <= i < STANDARD_VECTOR_SIZE && i != index ==> v.Contents()[i] == old(v.Contents())[i]
  {
    var ok := v.SetValue(index, value);
    back := v.GetValue(index);
  }
}
