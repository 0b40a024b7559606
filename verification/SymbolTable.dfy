/** The frozen symbol table of a program: how the compiler builds it, how the
    batch builder checks it, and how the runtime looks symbols up in it. */
module SymbolTables {
  import opened Bitsets
  import opened OpenAddress
  import P = Programs

  type Bytes = seq<nat>

  /** Symbol i + 1 has the bytes symbols[i]. The slot columns run in parallel. */
  datatype SymbolTable = SymbolTable(symbols: seq<Bytes>, hashes: seq<nat>, ids: seq<nat>)

  /** The stored hash of a slot is that of its symbol, and 0 in an empty slot. */
  ghost predicate HashOk(t: SymbolTable, hash: Bytes -> nat, s: nat)
    requires |t.hashes| == |t.ids| && s < |t.ids|
  {
    && t.ids[s] <= |t.symbols|
    && t.hashes[s] == if t.ids[s] == 0 then 0 else hash(t.symbols[t.ids[s] - 1])
  }

  /** What the runtime relies on. */
  ghost predicate FrozenOk(t: SymbolTable, hash: Bytes -> nat) {
    && |t.hashes| == |t.ids| > 0 && PowerOfTwo(|t.ids|) && 2 * |t.symbols| <= |t.ids|
    && TableOk(t.ids, Homes(t.symbols, hash, |t.ids|))
    && forall s :: 0 <= s < |t.ids| ==> HashOk(t, hash, s)
  }

  /** Freeze a symbol list. It never runs out of slots. */
  method Freeze(symbols: seq<Bytes>, hash: Bytes -> nat) returns (ok: bool, t: SymbolTable)
    ensures ok <==> |symbols| < P.MAX_UINT32
    ensures ok ==> t.symbols == symbols && FrozenOk(t, hash)
  {
    if |symbols| >= P.MAX_UINT32 {
      return false, SymbolTable(symbols, [], []);
    }
    var size := SlotSize(|symbols|);
    hide TableOk, SeatedAt, PowerOfTwo;
    var ids: seq<nat>, hashes: seq<nat> := seq(size, _ => 0), seq(size, _ => 0);
    EmptyTable(ids);
    for i := 0 to |symbols|
      invariant |ids| == |hashes| == size
      invariant TableOk(ids, Homes(symbols[..i], hash, size))
      invariant forall s :: 0 <= s < size ==> HashOk(SymbolTable(symbols, hashes, ids), hash, s)
    {
      var home := hash(symbols[i]) % size;
      SomeSlotIsEmpty(ids, Homes(symbols[..i], hash, size));
      var found, slot := FindVacant(ids, home);
      if !found {
        return false, SymbolTable(symbols, hashes, ids);
      }
      InsertKeeps(ids, Homes(symbols[..i], hash, size), home, slot);
      assert Homes(symbols[..i + 1], hash, size) == Homes(symbols[..i], hash, size) + [home];
      ghost var before := SymbolTable(symbols, hashes, ids);
      hashes := hashes[slot := hash(symbols[i])];
      ids := ids[slot := i + 1];
      forall s | 0 <= s < size
        ensures HashOk(SymbolTable(symbols, hashes, ids), hash, s)
      {
        assert HashOk(before, hash, s);
      }
    }
    assert symbols[..|symbols|] == symbols;
    return true, SymbolTable(symbols, hashes, ids);
  }

  /** The position of a slot counted from just after the empty slot. */
  function Logical(empty: nat, slot: nat, size: nat): nat
    requires empty < size && slot < size
  {
    Distance(Next(empty, size), slot, size)
  }

  /** Position l lies in a run of occupied positions that starts at `cluster`. */
  ghost predicate ClusterOk(ids: seq<nat>, empty: nat, cluster: nat, l: nat)
    requires empty < |ids| && l <= |ids|
  {
    && cluster <= l
    && (forall k :: cluster <= k < l ==> ids[Slot(Next(empty, |ids|), k, |ids|)] != 0)
    && (cluster > 0 ==> ids[Slot(Next(empty, |ids|), cluster - 1, |ids|)] == 0)
  }

  /** Seen from the empty slot, a probe reaches a slot exactly when its home lies
      between the start of the slot's cluster and the slot. */
  lemma ClusterDecidesSeat(ids: seq<nat>, empty: nat, cluster: nat, slot: nat, home: nat)
    requires empty < |ids| && slot < |ids| && home < |ids| && ids[empty] == 0
    requires ClusterOk(ids, empty, cluster, Logical(empty, slot, |ids|))
    ensures SeatedAt(ids, home, slot) && ids[slot] != 0 <==>
            ids[slot] != 0 && cluster <= Logical(empty, home, |ids|) <= Logical(empty, slot, |ids|)
  {
    var n := |ids|;
    var start := Next(empty, n);
    var l, h := Logical(empty, slot, n), Logical(empty, home, n);
    if ids[slot] != 0 {
      if cluster <= h <= l {
        forall e | 0 <= e < Distance(home, slot, n)
          ensures ids[Slot(home, e, n)] != 0
        {
          assert Slot(home, e, n) == Slot(start, h + e, n);
        }
      } else if h < cluster {
        assert Slot(home, cluster - 1 - h, n) == Slot(start, cluster - 1, n);
        assert cluster - 1 - h < Distance(home, slot, n);
      } else {
        assert Slot(home, n - 1 - h, n) == empty;
        assert n - 1 - h < Distance(home, slot, n);
      }
    }
  }

  /** The positions before l have passed: `place` says where each identifier met
      so far stands. */
  ghost predicate Scanned(t: SymbolTable, hash: Bytes -> nat, empty: nat, place: map<nat, nat>, l: nat)
    requires |t.hashes| == |t.ids| && empty < |t.ids| && l <= |t.ids|
  {
    && (forall k :: 0 <= k < l ==> Passed(t, hash, empty, place, k))
    && (forall id :: id in place ==>
         1 <= id <= |t.symbols| && place[id] < l && t.ids[Slot(Next(empty, |t.ids|), place[id], |t.ids|)] == id)
  }

  ghost predicate Passed(t: SymbolTable, hash: Bytes -> nat, empty: nat, place: map<nat, nat>, k: nat)
    requires |t.hashes| == |t.ids| && empty < |t.ids| && k < |t.ids|
  {
    var s := Slot(Next(empty, |t.ids|), k, |t.ids|);
    && HashOk(t, hash, s) && Seated(t.ids, Homes(t.symbols, hash, |t.ids|), s)
    && (t.ids[s] != 0 ==> t.ids[s] in place && place[t.ids[s]] == k)
  }

  lemma ScanStep(t: SymbolTable, hash: Bytes -> nat, empty: nat, place: map<nat, nat>, l: nat)
    requires |t.hashes| == |t.ids| && empty < |t.ids| && l < |t.ids|
    requires Scanned(t, hash, empty, place, l)
    requires var s := Slot(Next(empty, |t.ids|), l, |t.ids|);
             HashOk(t, hash, s) && Seated(t.ids, Homes(t.symbols, hash, |t.ids|), s) && t.ids[s] !in place
    ensures var s := Slot(Next(empty, |t.ids|), l, |t.ids|);
            Scanned(t, hash, empty, if t.ids[s] == 0 then place else place[t.ids[s] := l], l + 1)
  {
    hide Seated, Homes;
    var s := Slot(Next(empty, |t.ids|), l, |t.ids|);
    var place' := if t.ids[s] == 0 then place else place[t.ids[s] := l];
    forall k | 0 <= k < l + 1
      ensures Passed(t, hash, empty, place', k)
    {
      if k < l {
        assert Passed(t, hash, empty, place, k);
      }
    }
  }

  /** A full scan that met every identifier proves the table. */
  lemma ScanProves(t: SymbolTable, hash: Bytes -> nat, empty: nat, place: map<nat, nat>)
    requires |t.hashes| == |t.ids| && empty < |t.ids| && Scanned(t, hash, empty, place, |t.ids|)
    requires forall id :: 1 <= id <= |t.symbols| ==> id in place
    ensures TableOk(t.ids, Homes(t.symbols, hash, |t.ids|))
    ensures forall s :: 0 <= s < |t.ids| ==> HashOk(t, hash, s)
  {
    hide HashOk, Seated, Homes;
    var n := |t.ids|;
    forall s | 0 <= s < n
      ensures HashOk(t, hash, s) && Seated(t.ids, Homes(t.symbols, hash, n), s)
      ensures t.ids[s] != 0 ==> t.ids[s] in place && place[t.ids[s]] == Logical(empty, s, n)
    {
      assert Slot(Next(empty, n), Logical(empty, s, n), n) == s;
      assert Passed(t, hash, empty, place, Logical(empty, s, n));
    }
    forall id | 1 <= id <= |t.symbols|
      ensures id in t.ids
    {
      assert id in place;
    }
  }

  /** If the table is as the runtime relies on, the scan meets every identifier. */
  lemma ScanMeetsAll(t: SymbolTable, hash: Bytes -> nat, empty: nat, place: map<nat, nat>)
    requires |t.hashes| == |t.ids| && empty < |t.ids| && Scanned(t, hash, empty, place, |t.ids|)
    ensures place.Keys <= UpTo(|t.symbols|)
    ensures TableOk(t.ids, Homes(t.symbols, hash, |t.ids|)) ==> place.Keys == UpTo(|t.symbols|)
  {
    hide HashOk, Seated, Homes;
    var n := |t.ids|;
    if TableOk(t.ids, Homes(t.symbols, hash, n)) {
      forall id | id in UpTo(|t.symbols|)
        ensures id in place.Keys
      {
        assert id in t.ids;
        var s :| 0 <= s < n && t.ids[s] == id;
        assert Slot(Next(empty, n), Logical(empty, s, n), n) == s;
        assert Passed(t, hash, empty, place, Logical(empty, s, n));
      }
    }
  }

  /** An identifier met twice breaks the table. */
  lemma RepeatBreaks(t: SymbolTable, hash: Bytes -> nat, empty: nat, place: map<nat, nat>, l: nat)
    requires |t.hashes| == |t.ids| && empty < |t.ids| && l < |t.ids| && Scanned(t, hash, empty, place, l)
    requires t.ids[Slot(Next(empty, |t.ids|), l, |t.ids|)] in place
    ensures !TableOk(t.ids, Homes(t.symbols, hash, |t.ids|))
  {
    hide Homes, Seated, Passed;
    var start := Next(empty, |t.ids|);
    var s := Slot(start, l, |t.ids|);
    var r := Slot(start, place[t.ids[s]], |t.ids|);
    assert t.ids[r] == t.ids[s] && r != s;
  }

  method FindEmpty(ids: seq<nat>) returns (found: bool, empty: nat)
    ensures found <==> 0 in ids
    ensures found ==> empty < |ids| && ids[empty] == 0
  {
    for s := 0 to |ids|
      invariant 0 !in ids[..s]
    {
      if ids[s] == 0 {
        return true, s;
      }
    }
    assert ids[..|ids|] == ids;
    return false, 0;
  }

  /** The check of position l: an empty slot has no hash; an occupied one holds a
      new identifier and its hash, and its home lies in the same cluster. */
  method CheckSlot(t: SymbolTable, hash: Bytes -> nat, empty: nat, cluster: nat, seen: set<nat>, l: nat,
                   ghost place: map<nat, nat>)
    returns (ok: bool)
    requires |t.hashes| == |t.ids| && empty < |t.ids| && t.ids[empty] == 0 && l < |t.ids|
    requires ClusterOk(t.ids, empty, cluster, l) && Scanned(t, hash, empty, place, l) && seen == place.Keys
    ensures var slot := Slot(Next(empty, |t.ids|), l, |t.ids|);
            ok ==>
              HashOk(t, hash, slot) && Seated(t.ids, Homes(t.symbols, hash, |t.ids|), slot) && t.ids[slot] !in place
    ensures ok || !TableOk(t.ids, Homes(t.symbols, hash, |t.ids|)) ||
            exists s :: 0 <= s < |t.ids| && !HashOk(t, hash, s)
  {
    hide SeatedAt, Homes, Scanned, TableOk;
    var n := |t.ids|;
    var slot := Slot(Next(empty, n), l, n);
    var id := t.ids[slot];
    if id == 0 {
      PlacesArePositive(t, hash, empty, place, l);
      ok := t.hashes[slot] == 0;
      assert !ok ==> !HashOk(t, hash, slot);
      return;
    }
    if id > |t.symbols| {
      assert !HashOk(t, hash, slot);
      return false;
    }
    if id in seen {
      RepeatBreaks(t, hash, empty, place, l);
      return false;
    }
    if t.hashes[slot] != hash(t.symbols[id - 1]) {
      assert !HashOk(t, hash, slot);
      return false;
    }
    var home := hash(t.symbols[id - 1]) % n;
    assert Logical(empty, slot, n) == l;
    ClusterDecidesSeat(t.ids, empty, cluster, slot, home);
    HomeOf(t, hash, id);
    ok := cluster <= Logical(empty, home, n) <= l;
    if !ok {
      UnseatedBreaks(t, hash, slot);
    }
  }

  /** One pass over the slots, counted from just after an empty one, accepts
      exactly the tables the runtime can rely on. */
  method ScanSlots(t: SymbolTable, hash: Bytes -> nat, empty: nat) returns (ok: bool)
    requires |t.hashes| == |t.ids| && empty < |t.ids| && t.ids[empty] == 0
    ensures ok <==> TableOk(t.ids, Homes(t.symbols, hash, |t.ids|)) && forall s :: 0 <= s < |t.ids| ==>
              HashOk(t, hash, s)
  {
    hide Seated, Homes, Scanned, TableOk, HashOk, UpTo, ClusterOk;
    var n := |t.ids|;
    var cluster, seen, count := 0, {}, 0;
    ghost var place: map<nat, nat> := map[];
    ScanStart(t, hash, empty);
    ClusterStart(t.ids, empty);
    for l := 0 to n
      invariant ClusterOk(t.ids, empty, cluster, l)
      invariant Scanned(t, hash, empty, place, l)
      invariant seen == place.Keys && |seen| == count
    {
      var slot := Slot(Next(empty, n), l, n);
      ok := CheckSlot(t, hash, empty, cluster, seen, l, place);
      if !ok {
        return;
      }
      ScanStep(t, hash, empty, place, l);
      ClusterStep(t.ids, empty, cluster, l);
      if t.ids[slot] == 0 {
        cluster := l + 1;
      } else {
        seen, count := seen + {t.ids[slot]}, count + 1;
        place := place[t.ids[slot] := l];
      }
    }
    ok := count == |t.symbols|;
    ScanMeetsAll(t, hash, empty, place);
    if ok {
      SubsetFull(seen, UpTo(|t.symbols|));
      ScanProves(t, hash, empty, place);
    }
  }

  lemma ClusterStart(ids: seq<nat>, empty: nat)
    requires empty < |ids|
    ensures ClusterOk(ids, empty, 0, 0)
  {
  }

  lemma ClusterStep(ids: seq<nat>, empty: nat, cluster: nat, l: nat)
    requires empty < |ids| && l < |ids| && ClusterOk(ids, empty, cluster, l)
    ensures ClusterOk(ids, empty, if ids[Slot(Next(empty, |ids|), l, |ids|)] == 0 then l + 1 else cluster, l + 1)
  {
  }

  lemma ScanStart(t: SymbolTable, hash: Bytes -> nat, empty: nat)
    requires |t.hashes| == |t.ids| && empty < |t.ids|
    ensures Scanned(t, hash, empty, map[], 0)
  {
  }

  lemma PlacesArePositive(t: SymbolTable, hash: Bytes -> nat, empty: nat, place: map<nat, nat>, l: nat)
    requires |t.hashes| == |t.ids| && empty < |t.ids| && l <= |t.ids| && Scanned(t, hash, empty, place, l)
    ensures 0 !in place
  {
  }

  lemma HomeOf(t: SymbolTable, hash: Bytes -> nat, id: nat)
    requires |t.ids| > 0 && 1 <= id <= |t.symbols|
    ensures Homes(t.symbols, hash, |t.ids|)[id - 1] == hash(t.symbols[id - 1]) % |t.ids|
  {
  }

  lemma UnseatedBreaks(t: SymbolTable, hash: Bytes -> nat, slot: nat)
    requires slot < |t.ids| && 1 <= t.ids[slot] <= |t.symbols|
    requires !SeatedAt(t.ids, hash(t.symbols[t.ids[slot] - 1]) % |t.ids|, slot)
    ensures !TableOk(t.ids, Homes(t.symbols, hash, |t.ids|))
  {
    hide SeatedAt;
    assert !Seated(t.ids, Homes(t.symbols, hash, |t.ids|), slot);
  }

  /** The check the batch builder runs before it trusts a program's symbol table.
      It accepts exactly the frozen tables, and the table with no slots at all. */
  method Validate(t: SymbolTable, hash: Bytes -> nat) returns (ok: bool)
    ensures ok <==> |t.hashes| == |t.ids| && (FrozenOk(t, hash) || (|t.ids| == 0 && |t.symbols| == 0))
  {
    hide TableOk, PowerOfTwo;
    if |t.hashes| != |t.ids| {
      return false;
    }
    if |t.ids| == 0 {
      return |t.symbols| == 0;
    }
    if !PowerOfTwo(|t.ids|) || |t.ids| < 2 * |t.symbols| {
      return false;
    }
    if |t.symbols| == 0 {
      ok := AllClear(t);
      EmptyIffClear(t, hash);
      return;
    }
    var found, empty := FindEmpty(t.ids);
    if !found {
      if FrozenOk(t, hash) {
        SomeSlotIsEmpty(t.ids, Homes(t.symbols, hash, |t.ids|));
      }
      return false;
    }
    ok := ScanSlots(t, hash, empty);
  }

  method AllClear(t: SymbolTable) returns (ok: bool)
    requires |t.hashes| == |t.ids|
    ensures ok <==> forall s :: 0 <= s < |t.ids| ==> t.ids[s] == 0 && t.hashes[s] == 0
  {
    for s := 0 to |t.ids|
      invariant forall r :: 0 <= r < s ==> t.ids[r] == 0 && t.hashes[r] == 0
    {
      if t.ids[s] != 0 || t.hashes[s] != 0 {
        return false;
      }
    }
    return true;
  }

  lemma EmptyIffClear(t: SymbolTable, hash: Bytes -> nat)
    requires |t.hashes| == |t.ids| > 0 && |t.symbols| == 0
    ensures (forall s :: 0 <= s < |t.ids| ==> t.ids[s] == 0 && t.hashes[s] == 0) <==>
            TableOk(t.ids, Homes(t.symbols, hash, |t.ids|)) && forall s :: 0 <= s < |t.ids| ==> HashOk(t, hash, s)
  {
    if forall s :: 0 <= s < |t.ids| ==> t.ids[s] == 0 && t.hashes[s] == 0 {
      EmptyTable(t.ids);
      assert Homes(t.symbols, hash, |t.ids|) == [];
    } else {
      var s :| 0 <= s < |t.ids| && !(t.ids[s] == 0 && t.hashes[s] == 0);
      assert !HashOk(t, hash, s);
    }
  }

  /** On an accepted table a runtime lookup finds exactly the frozen symbols. */
  method LookupSymbol(t: SymbolTable, hash: Bytes -> nat, bytes: Bytes) returns (found: bool, id: nat)
    requires FrozenOk(t, hash)
    ensures found <==> bytes in t.symbols
    ensures found ==> 1 <= id <= |t.symbols| && t.symbols[id - 1] == bytes
  {
    hide TableOk, SeatedAt;
    var n := |t.ids|;
    var slot := hash(bytes) % n;
    ghost var home, homes := slot, Homes(t.symbols, hash, n);
    for d := 0 to n
      invariant slot < n && (d < n ==> slot == Slot(home, d, n))
      invariant forall e :: 0 <= e < d ==> t.ids[Slot(home, e, n)] != 0
      invariant forall e :: 0 <= e < d ==>
                  1 <= t.ids[Slot(home, e, n)] <= |t.symbols| && t.symbols[t.ids[Slot(home, e, n)] - 1] != bytes
    {
      assert HashOk(t, hash, slot);
      if t.ids[slot] == 0 {
        NotBeyond(t.ids, homes, t.symbols, bytes, home, d);
        return false, 0;
      }
      if t.hashes[slot] == hash(bytes) {
        if t.symbols[t.ids[slot] - 1] == bytes {
          return true, t.ids[slot];
        }
      }
      slot := Next(slot, n);
    }
    SomeSlotIsEmpty(t.ids, homes);
    ghost var d := ProbeMeetsEmpty(t.ids, home);
    assert false;
  }
}
