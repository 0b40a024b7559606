/** Open-address tables with linear probing. Slots hold one-based identifiers, 0
    marks an empty slot, and identifier i has the home slot homes[i - 1]. Hash
    functions are arbitrary: only the home slot they give matters. */
module OpenAddress {
  import opened Bitsets

  /** The slot `distance` steps after `home`, wrapping at the end of the table. */
  function Slot(home: nat, distance: nat, size: nat): nat
    requires home < size && distance < size
  {
    if home + distance < size then home + distance else home + distance - size
  }

  /** How far `slot` is from `home` along the probe order. */
  function Distance(home: nat, slot: nat, size: nat): nat
    requires home < size && slot < size
  {
    if home <= slot then slot - home else slot + size - home
  }

  /** The next slot of a probe. */
  function Next(slot: nat, size: nat): nat {
    if slot + 1 == size then 0 else slot + 1
  }

  /** A probe from `home` reaches `slot` before it meets an empty slot. */
  ghost predicate SeatedAt(table: seq<nat>, home: nat, slot: nat)
    requires home < |table| && slot < |table|
  {
    forall e :: 0 <= e < Distance(home, slot, |table|) ==> table[Slot(home, e, |table|)] != 0
  }

  ghost predicate Seated(table: seq<nat>, homes: seq<nat>, slot: nat)
    requires slot < |table|
  {
    table[slot] <= |homes| && (table[slot] > 0 ==>
       homes[table[slot] - 1] < |table| && SeatedAt(table, homes[table[slot] - 1], slot))
  }

  /** Every identifier occurs exactly once, where a probe from its home finds it. */
  ghost predicate TableOk(table: seq<nat>, homes: seq<nat>) {
    && |table| > 0
    && (forall s :: 0 <= s < |table| ==> Seated(table, homes, s))
    && (forall s, t :: 0 <= s < t < |table| && table[s] != 0 ==> table[s] != table[t])
    && (forall id :: 1 <= id <= |homes| ==> id in table)
  }

  /** The home slots of a list of keys. The size is a power of two, so masking a
      hash with size - 1 keeps its remainder. */
  function Homes<K>(keys: seq<K>, hash: K -> nat, size: nat): seq<nat>
    requires size > 0
    ensures |Homes(keys, hash, size)| == |keys|
  {
    seq(|keys|, i requires 0 <= i < |keys| => hash(keys[i]) % size)
  }

  predicate Distinct<K(==)>(keys: seq<K>) {
    forall i, j :: 0 <= i < j < |keys| ==> keys[i] != keys[j]
  }

  /** A table of distinct keys, identified by their one-based positions. */
  ghost predicate PoolOk<K>(table: seq<nat>, keys: seq<K>, hash: K -> nat) {
    |table| > 0 && TableOk(table, Homes(keys, hash, |table|)) && Distinct(keys)
  }

  /** A table with more slots than identifiers has an empty slot. */
  lemma SomeSlotIsEmpty(table: seq<nat>, homes: seq<nat>)
    requires TableOk(table, homes) && |homes| < |table|
    ensures 0 in table
  {
    if 0 !in table {
      hide UpTo, SeatedAt;
      var slots, ids := UpTo(|table|), UpTo(|homes|);
      forall s | s in slots
        ensures table[s - 1] in ids
      {
        assert Seated(table, homes, s - 1) && table[s - 1] in table;
      }
      InjectionBound(slots, ids, map s | s in slots :: table[s - 1]);
      assert false;
    }
  }

  /** A probe that has passed every slot has passed an empty one. */
  lemma ProbeMeetsEmpty(table: seq<nat>, home: nat) returns (d: nat)
    requires home < |table| && 0 in table
    ensures d < |table| && table[Slot(home, d, |table|)] == 0
  {
    var s :| 0 <= s < |table| && table[s] == 0;
    d := Distance(home, s, |table|);
    assert Slot(home, d, |table|) == s;
  }

  datatype Probe = Found(id: nat) | Vacant(slot: nat) | Full

  /** A key that is not met before the first empty slot is not in the table. */
  lemma NotBeyond<K>(table: seq<nat>, homes: seq<nat>, keys: seq<K>, key: K, home: nat, d: nat)
    requires TableOk(table, homes) && |homes| == |keys| && home < |table| && d < |table|
    requires table[Slot(home, d, |table|)] == 0
    requires forall e :: 0 <= e < d ==> table[Slot(home, e, |table|)] != 0
    requires forall e :: 0 <= e < d ==>
               1 <= table[Slot(home, e, |table|)] <= |keys| && keys[table[Slot(home, e, |table|)] - 1] != key
    requires forall i :: 0 <= i < |keys| && keys[i] == key ==> homes[i] == home
    ensures key !in keys
  {
    forall i | 0 <= i < |keys|
      ensures keys[i] != key
    {
      assert i + 1 in table;
      var s :| 0 <= s < |table| && table[s] == i + 1;
      assert Seated(table, homes, s);
      var e := Distance(homes[i], s, |table|);
      assert Slot(homes[i], e, |table|) == s;
    }
  }

  /** Follow the probe sequence of a key until an equal key or an empty slot. */
  method Lookup<K(==)>(table: seq<nat>, keys: seq<K>, key: K, home: nat, ghost homes: seq<nat>) returns (r: Probe)
    requires TableOk(table, homes) && |homes| == |keys| < |table| && home < |table|
    requires forall i :: 0 <= i < |keys| && keys[i] == key ==> homes[i] == home
    ensures !r.Full?
    ensures r.Found? <==> key in keys
    ensures r.Found? ==> 1 <= r.id <= |keys| && keys[r.id - 1] == key
    ensures r.Vacant? ==> r.slot < |table| && table[r.slot] == 0 && SeatedAt(table, home, r.slot)
  {
    hide SeatedAt;
    var slot := home;
    for d := 0 to |table|
      invariant slot < |table| && (d < |table| ==> slot == Slot(home, d, |table|))
      invariant forall e :: 0 <= e < d ==> table[Slot(home, e, |table|)] != 0
      invariant forall e :: 0 <= e < d ==>
                  1 <= table[Slot(home, e, |table|)] <= |keys| && keys[table[Slot(home, e, |table|)] - 1] != key
    {
      var id := table[slot];
      assert Seated(table, homes, slot);
      if id == 0 {
        NotBeyond(table, homes, keys, key, home, d);
        SeatedByProbe(table, home, d);
        return Vacant(slot);
      }
      if keys[id - 1] == key {
        assert keys[id - 1] in keys;
        return Found(id);
      }
      slot := Next(slot, |table|);
    }
    SomeSlotIsEmpty(table, homes);
    var d := ProbeMeetsEmpty(table, home);
    assert false;
  }

  lemma SeatedByProbe(table: seq<nat>, home: nat, d: nat)
    requires home < |table| && d < |table|
    requires forall e :: 0 <= e < d ==> table[Slot(home, e, |table|)] != 0
    ensures SeatedAt(table, home, Slot(home, d, |table|))
  {
    assert Distance(home, Slot(home, d, |table|), |table|) == d;
  }

  /** Follow the probe sequence to the first empty slot. */
  method FindVacant(table: seq<nat>, home: nat) returns (ok: bool, slot: nat)
    requires home < |table|
    ensures ok <==> 0 in table
    ensures ok ==> slot < |table| && table[slot] == 0 && SeatedAt(table, home, slot)
  {
    slot := home;
    for d := 0 to |table|
      invariant slot < |table| && (d < |table| ==> slot == Slot(home, d, |table|))
      invariant forall e :: 0 <= e < d ==> table[Slot(home, e, |table|)] != 0
    {
      if table[slot] == 0 {
        SeatedByProbe(table, home, d);
        return true, slot;
      }
      slot := Next(slot, |table|);
    }
    if 0 in table {
      ghost var d := ProbeMeetsEmpty(table, home);
    }
    ok := false;
  }

  /** Claiming a vacant slot of its probe for a new identifier keeps the table. */
  lemma InsertKeeps(table: seq<nat>, homes: seq<nat>, home: nat, slot: nat)
    requires TableOk(table, homes) && home < |table| && slot < |table|
    requires table[slot] == 0 && SeatedAt(table, home, slot)
    ensures TableOk(table[slot := |homes| + 1], homes + [home])
  {
    var table', homes' := table[slot := |homes| + 1], homes + [home];
    forall s | 0 <= s < |table|
      ensures Seated(table', homes', s) && (s != slot ==> table'[s] <= |homes|)
    {
      assert Seated(table, homes, s);
    }
    forall id | 1 <= id <= |homes'|
      ensures id in table'
    {
      if id <= |homes| {
        assert id in table;
        var s :| 0 <= s < |table| && table[s] == id;
        assert table'[s] == id;
      } else {
        assert table'[slot] == id;
      }
    }
  }

  /** Adding a key that a lookup missed. */
  lemma AddKeeps<K>(table: seq<nat>, keys: seq<K>, hash: K -> nat, key: K, slot: nat)
    requires PoolOk(table, keys, hash) && key !in keys
    requires slot < |table| && table[slot] == 0 && SeatedAt(table, hash(key) % |table|, slot)
    ensures PoolOk(table[slot := |keys| + 1], keys + [key], hash)
  {
    hide TableOk, SeatedAt;
    InsertKeeps(table, Homes(keys, hash, |table|), hash(key) % |table|, slot);
    assert Homes(keys + [key], hash, |table|) == Homes(keys, hash, |table|) + [hash(key) % |table|];
  }

  lemma EmptyTable(table: seq<nat>)
    requires |table| > 0 && forall s :: 0 <= s < |table| ==> table[s] == 0
    ensures TableOk(table, [])
  {
  }

  predicate PowerOfTwo(x: nat) {
    x == 1 || (x > 0 && x % 2 == 0 && PowerOfTwo(x / 2))
  }

  /** The smallest power of two that is at least 2n and at least 4. */
  method SlotSize(n: nat) returns (size: nat)
    ensures PowerOfTwo(size) && size >= 4 && size >= 2 * n
    ensures size > 4 ==> size / 2 < 2 * n
  {
    FourIsPower();
    hide PowerOfTwo;
    size := 4;
    while size < 2 * n
      invariant size >= 4 && PowerOfTwo(size) && (size > 4 ==> size / 2 < 2 * n)
      decreases 2 * n - size
    {
      DoubledPower(size);
      size := size * 2;
    }
  }

  lemma FourIsPower()
    ensures PowerOfTwo(4)
  {
    assert PowerOfTwo(2);
  }

  lemma DoubledPower(x: nat)
    requires PowerOfTwo(x)
    ensures PowerOfTwo(x * 2) && x * 2 / 2 == x
  {
  }
}
