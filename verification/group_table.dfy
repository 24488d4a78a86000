/** The hash table of the aggregate: group keys in first-seen order, one state per group,
    and an index from keys to groups that goes through Hash and Equals. */
module GroupTable {
  import opened Common
  import opened Values

  type Key = seq<Value>

  predicate KeysEqual(a: Key, b: Key) {
    |a| == |b| && forall i :: 0 <= i < |a| ==> Equals(a[i], b[i])
  }

  /** A 64-bit code: hash = hash * 31 + value.Hash(), wrapping. */
  function KeyHash(h: Hasher, key: Key): nat {
    KeyHashFrom(h, 0, key)
  }

  function KeyHashFrom(h: Hasher, hash: nat, key: Key): nat
    decreases |key|
  {
    if key == [] then hash else KeyHashFrom(h, NextCode(hash, Hash(h, key[0])), key[1..])
  }

  function NextCode(hash: nat, value: bv64): nat {
    (hash * 31 + value as nat) % 0x1_0000_0000_0000_0000
  }

  lemma {:induction false} EqualKeysHashAlike(h: Hasher, hash: nat, a: Key, b: Key)
    requires KeysEqual(a, b)
    ensures KeyHashFrom(h, hash, a) == KeyHashFrom(h, hash, b)
    decreases |a|
  {
    if a == [] {
    } else {
      assert Equals(a[0], b[0]);
      EqualValuesHashAlike(h, a[0], b[0]);
      forall i | 0 <= i < |a[1..]| ensures Equals(a[1..][i], b[1..][i]) {
        assert Equals(a[i + 1], b[i + 1]);
      }
      EqualKeysHashAlike(h, NextCode(hash, Hash(h, a[0])), a[1..], b[1..]);
    }
  }

  lemma DifferentHashes(h: Hasher, a: Key, b: Key)
    requires KeyHash(h, a) != KeyHash(h, b)
    ensures !KeysEqual(a, b)
  {
    if KeysEqual(a, b) {
      EqualKeysHashAlike(h, 0, a, b);
    }
  }

  lemma KeysEqualIsPartialEquivalence(a: Key, b: Key, c: Key)
    ensures KeysEqual(a, b) <==> KeysEqual(b, a)
    ensures KeysEqual(a, b) && KeysEqual(b, c) ==> KeysEqual(a, c)
  {
  }

  /** A key equals itself unless it holds a NaN. */
  lemma KeysEqualIsReflexiveIff(a: Key)
    ensures KeysEqual(a, a) <==> forall i :: 0 <= i < |a| ==> !HasNaN(a[i])
  {
  }

  /** A key of one part is equal as its part is, and longer keys are equal part by part. */
  lemma KeysEqualInParts(a: Key, b: Key, v: Value, w: Value)
    ensures KeysEqual([], []) && (KeysEqual(a, b) ==> |a| == |b|)
    ensures KeysEqual(a + [v], b + [w]) <==> KeysEqual(a, b) && Equals(v, w)
  {
    var more, other := a + [v], b + [w];
    if KeysEqual(more, other) {
      assert Equals(more[|a|], other[|a|]);
      forall i | 0 <= i < |a| ensures Equals(a[i], b[i]) {
        assert Equals(more[i], other[i]);
      }
    }
  }

  /** The hash code without the wrap-around: a polynomial in 31. */
  function Polynomial(h: Hasher, key: Key): nat {
    if key == [] then 0 else 31 * Polynomial(h, key[..|key| - 1]) + Hash(h, key[|key| - 1]) as nat
  }

  lemma OneMorePart(h: Hasher, hash: nat, polynomial: nat, v: Value)
    requires hash == polynomial % 0x1_0000_0000_0000_0000
    ensures NextCode(hash, Hash(h, v)) == (31 * polynomial + Hash(h, v) as nat) % 0x1_0000_0000_0000_0000
  {
    hide Hash;
    WrapOnce(polynomial, Hash(h, v) as nat);
  }

  /** Wrapping at every step comes to the same as wrapping once at the end. */
  lemma {:induction false} KeyHashIsPolynomial(h: Hasher, key: Key)
    ensures KeyHash(h, key) == Polynomial(h, key) % 0x1_0000_0000_0000_0000
  {
    if key == [] {
    } else {
      var n := |key| - 1;
      KeyHashIsPolynomial(h, key[..n]);
      KeyHashSnoc(h, 0, key[..n], key[n]);
      assert key == key[..n] + [key[n]];
      assert KeyHash(h, key) == NextCode(KeyHash(h, key[..n]), Hash(h, key[n]));
      PolynomialStep(h, key);
      hide *;
      OneMorePart(h, KeyHash(h, key[..n]), Polynomial(h, key[..n]), key[n]);
    }
  }

  lemma PolynomialStep(h: Hasher, key: Key)
    requires key != []
    ensures Polynomial(h, key) == 31 * Polynomial(h, key[..|key| - 1]) + Hash(h, key[|key| - 1]) as nat
  {
    hide Hash;
  }

  lemma {:induction false} KeyHashSnoc(h: Hasher, hash: nat, key: Key, v: Value)
    ensures KeyHashFrom(h, hash, key + [v]) == NextCode(KeyHashFrom(h, hash, key), Hash(h, v))
    decreases |key|
  {
    if key == [] {
      assert ([] + [v])[1..] == [];
    } else {
      assert (key + [v])[1..] == key[1..] + [v];
      KeyHashSnoc(h, NextCode(hash, Hash(h, key[0])), key[1..], v);
    }
  }

  lemma WrapOnce(a: nat, b: nat)
    ensures (a % 0x1_0000_0000_0000_0000 * 31 + b) % 0x1_0000_0000_0000_0000 == (31 * a + b) % 0x1_0000_0000_0000_0000
  {
  }

  // ----- the simple table: a list searched from the front

  /** The first group whose key equals the given one. */
  function FirstSeen(keys: seq<Key>, key: Key): (r: Option<nat>)
    ensures r.Some? ==> r.value < |keys| && KeysEqual(keys[r.value], key)
    ensures r.Some? ==> forall i :: 0 <= i < r.value ==> !KeysEqual(keys[i], key)
    ensures r.None? ==> forall i :: 0 <= i < |keys| ==> !KeysEqual(keys[i], key)
  {
    FirstFrom(keys, 0, key)
  }

  function FirstFrom(keys: seq<Key>, from: nat, key: Key): (r: Option<nat>)
    requires from <= |keys|
    ensures r.Some? ==> from <= r.value < |keys| && KeysEqual(keys[r.value], key)
    ensures r.Some? ==> forall i :: from <= i < r.value ==> !KeysEqual(keys[i], key)
    ensures r.None? ==> forall i :: from <= i < |keys| ==> !KeysEqual(keys[i], key)
    decreases |keys| - from
  {
    if from == |keys| then None else if KeysEqual(keys[from], key) then Some(from) else FirstFrom(keys, from + 1, key)
  }

  // ----- the hash table

  datatype Aggregate = COUNT | COUNT_STAR | SUM | AVG | MIN | MAX

  datatype State = State(aggregate: Aggregate, hasValue: bool, count: int, sum: Double, value: Value)

  function FreshState(aggregate: Aggregate): State { State(aggregate, false, 0, Finite(0.0), Null(INTEGER)) }

  /** One state for each aggregate, which has seen nothing. */
  function FreshStates(aggregates: seq<Aggregate>): (states: seq<State>)
    ensures |states| == |aggregates|
    ensures forall i :: 0 <= i < |states| ==> states[i].aggregate == aggregates[i] && !states[i].hasValue
    ensures forall i :: 0 <= i < |states| ==> states[i].count == 0 && states[i].sum == Finite(0.0) && states[i].value.Null?
  {
    seq(|aggregates|, i requires 0 <= i < |aggregates| => FreshState(aggregates[i]))
  }

  datatype Entry = Entry(key: Key, group: nat)

  class GroupByHashTable {
    const hasher: Hasher
    const aggregates: seq<Aggregate>
    var keys: seq<Key>
    var states: seq<seq<State>>
    /** std::unordered_map: entries by hash code, within one code in insertion order. */
    var index: map<nat, seq<Entry>>

    function Bucket(hash: nat): seq<Entry>
      reads this
    {
      if hash in index then index[hash] else []
    }

    /** The entry stands for its group, and is filed under its key's hash code. */
    ghost predicate Stands(hash: nat, e: Entry)
      reads this
    {
      e.group < |keys| && keys[e.group] == e.key && hash == KeyHash(hasher, e.key)
    }

    ghost predicate Filed(g: nat)
      reads this
    {
      g < |keys| && Entry(keys[g], g) in Bucket(KeyHash(hasher, keys[g]))
    }

    /** The index is the inverse of the key list, and no key occurs twice. */
    ghost predicate Valid()
      reads this
    {
      && |states| == |keys|
      && (forall hash, e {:trigger Stands(hash, e)} :: e in Bucket(hash) ==> Stands(hash, e))
      && (forall g {:trigger Filed(g)} :: 0 <= g < |keys| ==> Filed(g))
      && (forall g, k :: 0 <= g < k < |keys| ==> !KeysEqual(keys[g], keys[k]))
    }

    constructor (hasher: Hasher, aggregates: seq<Aggregate>)
      ensures Valid() && keys == [] && this.hasher == hasher && this.aggregates == aggregates
    {
      this.hasher := hasher;
      this.aggregates := aggregates;
      keys := [];
      states := [];
      index := map[];
    }

    /** index_.find: walk the bucket of the key's hash code. It finds what a linear search of
        all keys finds. */
    method Find(key: Key) returns (r: Option<nat>)
      requires Valid()
      ensures r == FirstSeen(keys, key)
    {
      var hash := KeyHash(hasher, key);
      var bucket := Bucket(hash);
      var i := 0;
      while i < |bucket|
        invariant 0 <= i <= |bucket|
        invariant forall k :: 0 <= k < i ==> !KeysEqual(bucket[k].key, key)
      {
        if KeysEqual(bucket[i].key, key) {
          assert Stands(hash, bucket[i]);
          return Some(bucket[i].group);
        }
        i := i + 1;
      }
      forall g | 0 <= g < |keys| ensures !KeysEqual(keys[g], key) {
        if KeyHash(hasher, keys[g]) == hash {
          assert Filed(g);
        } else {
          DifferentHashes(hasher, keys[g], key);
        }
      }
      return None;
    }

    /** The group of the key, created if no earlier key equals it. */
    method FindOrCreate(key: Key) returns (group: nat)
      requires Valid()
      modifies this
      ensures Valid()
      ensures match FirstSeen(old(keys), key)
              case Some(g) => group == g && keys == old(keys) && states == old(states) && index == old(index)
              case None =>
                group == |old(keys)| && keys == old(keys) + [key] && states == old(states) + [FreshStates(aggregates)]
    {
      var entry := Find(key);
      if entry.Some? {
        return entry.value;
      }
      group := |keys|;
      var hash := KeyHash(hasher, key);
      ghost var bucket := Bucket(hash);
      index := index[hash := Bucket(hash) + [Entry(key, group)]];
      keys := keys + [key];
      states := states + [FreshStates(aggregates)];
      assert Bucket(hash) == bucket + [Entry(key, group)];
      forall h, e | e in Bucket(h) ensures Stands(h, e) {
        if h != hash || e != Entry(key, group) {
          assert e in old(Bucket(h)) && old(Stands(h, e));
        }
      }
      forall g | 0 <= g < |keys| ensures Filed(g) {
        var code := KeyHash(hasher, keys[g]);
        if g < group {
          assert old(Filed(g)) && keys[g] == old(keys[g]);
          assert Entry(keys[g], g) in old(Bucket(code));
        } else {
          assert code == hash && Bucket(code)[|bucket|] == Entry(keys[g], g);
        }
        assert Entry(keys[g], g) in Bucket(code);
      }
    }
  }

  // ----- any sequence of lookups

  /** The key list after looking up the first n keys in order. */
  ghost function Seen(lookups: seq<Key>, n: nat): seq<Key>
    requires n <= |lookups|
  {
    if n == 0 then []
    else
      var before := Seen(lookups, n - 1);
      if FirstSeen(before, lookups[n - 1]).Some? then before else before + [lookups[n - 1]]
  }

  /** The group that the i-th of the lookups is sent to. */
  ghost function GroupOf(lookups: seq<Key>, i: nat): nat
    requires i < |lookups|
  {
    var before := Seen(lookups, i);
    var r := FirstSeen(before, lookups[i]);
    if r.Some? then r.value else |before|
  }

  /** Every lookup either finds its group or adds it at the end. */
  lemma SeenStep(lookups: seq<Key>, i: nat)
    requires i < |lookups|
    ensures var before, r := Seen(lookups, i), FirstSeen(Seen(lookups, i), lookups[i]);
      && Seen(lookups, i + 1) == (if r.Some? then before else before + [lookups[i]])
      && GroupOf(lookups, i) == (if r.Some? then r.value else |before|)
  {
  }

  /** A table that is asked for each key in turn. */
  method LookUpAll(hasher: Hasher, aggregates: seq<Aggregate>, lookups: seq<Key>) returns (groups: seq<nat>)
    ensures |groups| == |lookups| && forall i :: 0 <= i < |lookups| ==> groups[i] == GroupOf(lookups, i)
  {
    var table := new GroupByHashTable(hasher, aggregates);
    groups := [];
    var i := 0;
    assert Seen(lookups, 0) == [];
    hide Seen, GroupOf, FirstSeen;
    while i < |lookups|
      invariant 0 <= i <= |lookups| && |groups| == i
      invariant table.Valid() && table.keys == Seen(lookups, i)
      invariant fresh(table)
      invariant forall k :: 0 <= k < i ==> groups[k] == GroupOf(lookups, k)
    {
      SeenStep(lookups, i);
      var group := table.FindOrCreate(lookups[i]);
      groups := groups + [group];
      i := i + 1;
    }
  }

  lemma {:induction false} SeenGrows(lookups: seq<Key>, i: nat, n: nat)
    requires i <= n <= |lookups|
    ensures |Seen(lookups, i)| <= |Seen(lookups, n)|
    ensures forall g :: 0 <= g < |Seen(lookups, i)| ==> Seen(lookups, n)[g] == Seen(lookups, i)[g]
  {
    if i == n {
    } else {
      SeenGrows(lookups, i, n - 1);
    }
  }

  /** No two groups have equal keys. */
  lemma {:induction false} SeenIsApart(lookups: seq<Key>, n: nat)
    requires n <= |lookups|
    ensures forall g, k :: 0 <= g < k < |Seen(lookups, n)| ==> !KeysEqual(Seen(lookups, n)[g], Seen(lookups, n)[k])
  {
    if n == 0 {
    } else {
      SeenIsApart(lookups, n - 1);
    }
  }

  /** The key of the group that a lookup ends up in, then and for ever: the key itself, or one
      equal to it that was there before. */
  lemma GroupKey(lookups: seq<Key>, i: nat, n: nat)
    requires i < n <= |lookups|
    ensures var g, seen := GroupOf(lookups, i), Seen(lookups, n);
      g < |seen| && (seen[g] == lookups[i] || KeysEqual(seen[g], lookups[i]))
    ensures GroupOf(lookups, i) < |Seen(lookups, i)| ==> KeysEqual(Seen(lookups, n)[GroupOf(lookups, i)], lookups[i])
  {
    hide Seen, GroupOf;
    SeenStep(lookups, i);
    SeenGrows(lookups, i, n);
    SeenGrows(lookups, i + 1, n);
  }

  /** Two lookups reach the same group exactly when their keys are equal: equal keys always
      meet, and nothing else does. A key with a NaN equals not even itself, so each such
      lookup opens a group of its own. */
  lemma SameGroupIff(lookups: seq<Key>, i: nat, j: nat)
    requires i < j < |lookups|
    ensures GroupOf(lookups, i) == GroupOf(lookups, j) <==> KeysEqual(lookups[i], lookups[j])
  {
    var before, gi := Seen(lookups, j), GroupOf(lookups, i);
    SeenStep(lookups, j);
    hide Seen, GroupOf;
    GroupKey(lookups, i, j);
    SeenIsApart(lookups, j);
    KeysEqualIsPartialEquivalence(before[gi], lookups[i], lookups[j]);
    KeysEqualIsPartialEquivalence(lookups[i], before[gi], lookups[j]);
    if KeysEqual(lookups[i], lookups[j]) {
      var first := FirstSeen(before, lookups[j]).value;
      KeysEqualIsPartialEquivalence(lookups[j], before[gi], before[gi]);
      KeysEqualIsPartialEquivalence(before[first], lookups[j], before[gi]);
      KeysEqualIsPartialEquivalence(before[gi], before[first], before[gi]);
    }
  }

  /** The lookup that opened group g. */
  lemma {:induction false} GroupIsOpened(lookups: seq<Key>, n: nat, g: nat) returns (j: nat)
    requires n <= |lookups| && g < |Seen(lookups, n)|
    ensures j < n && |Seen(lookups, j)| == g == GroupOf(lookups, j) && Seen(lookups, n)[g] == lookups[j]
  {
    SeenStep(lookups, n - 1);
    if g < |Seen(lookups, n - 1)| {
      j := GroupIsOpened(lookups, n - 1, g);
    } else {
      j := n - 1;
    }
  }

  ghost predicate IsMet(lookups: seq<Key>, i: nat, g: nat)
    requires i <= |lookups|
  {
    exists j :: 0 <= j < i && GroupOf(lookups, j) == g
  }

  /** Groups are numbered 0, 1, ... in the order in which they are first met: a key that equals
      no earlier one gets the number of groups met before it. */
  lemma GroupsAreNumbered(lookups: seq<Key>, i: nat)
    requires i < |lookups| && forall j :: 0 <= j < i ==> !KeysEqual(lookups[j], lookups[i])
    ensures forall g: nat :: IsMet(lookups, i, g) <==> g < GroupOf(lookups, i)
  {
    SeenStep(lookups, i);
    var r := FirstSeen(Seen(lookups, i), lookups[i]);
    hide Seen, GroupOf, FirstSeen, KeysEqual;
    if r.Some? {
      var j := GroupIsOpened(lookups, i, r.value);
    }
    forall g: nat ensures IsMet(lookups, i, g) <==> g < |Seen(lookups, i)| {
      if g < |Seen(lookups, i)| {
        var j := GroupIsOpened(lookups, i, g);
      }
      if IsMet(lookups, i, g) {
        var j :| 0 <= j < i && GroupOf(lookups, j) == g;
        GroupKey(lookups, j, i);
      }
    }
  }
}
