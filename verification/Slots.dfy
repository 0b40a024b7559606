/** Scratch-slot planning: last uses, release lists, and the allocation that
    always takes the lowest free slot. */
module Slots {
  import opened Bitsets
  import opened Programs

  /** Row i's final consumer: n for a root, the last row that reads i, or i itself. */
  ghost predicate LastUseOk(p: Program, roots: seq<bool>, last: seq<nat>, i: nat)
    requires |roots| == |last| == |p.rows| && i < |last|
  {
    && (roots[i] ==> last[i] == |p.rows|)
    && (!roots[i] ==>
          && i <= last[i] < |p.rows|
          && (last[i] != i ==> i + 1 in Ops(p, last[i]))
          && (forall c :: last[i] < c < |p.rows| ==> i + 1 !in Ops(p, c)))
  }

  ghost predicate LastUsesOk(p: Program, roots: seq<bool>, last: seq<nat>) {
    |roots| == |last| == |p.rows| && forall i :: 0 <= i < |last| ==> LastUseOk(p, roots, last, i)
  }

  /** What the scan knows once the first `done` consumers have been read. */
  ghost predicate ScannedTo(p: Program, last: seq<nat>, done: nat, i: nat)
    requires |last| == |p.rows| && i < |last| && done <= |p.rows|
  {
    && i <= last[i] < |p.rows|
    && (last[i] != i ==> last[i] < done && i + 1 in Ops(p, last[i]))
    && (forall c :: last[i] < c < done ==> i + 1 !in Ops(p, c))
  }

  ghost predicate AllScanned(p: Program, last: seq<nat>, done: nat) {
    |last| == |p.rows| && done <= |p.rows| && forall i :: 0 <= i < |last| ==> ScannedTo(p, last, done, i)
  }

  lemma ScanStep(p: Program, last: seq<nat>, last': seq<nat>, c: nat)
    requires Ordered(p) && AllScanned(p, last, c) && c < |p.rows| && |last'| == |last|
    requires forall i :: 0 <= i < |last| ==> last'[i] == if i + 1 in Ops(p, c) then c else last[i]
    ensures AllScanned(p, last', c + 1)
  {
    hide Ops;
    var done := c + 1;
    forall i | 0 <= i < |last|
      ensures ScannedTo(p, last', done, i)
    {
      assert ScannedTo(p, last, c, i) && OperandsPrecede(p, c);
    }
  }

  /** Record consumer c as the last use of each of its operands. */
  method RecordConsumer(p: Program, last: seq<nat>, c: nat) returns (updated: seq<nat>)
    requires Ordered(p) && |last| == |p.rows| && c < |p.rows|
    ensures |updated| == |last|
    ensures forall i :: 0 <= i < |last| ==> updated[i] == if i + 1 in Ops(p, c) then c else last[i]
  {
    assert OperandsPrecede(p, c);
    hide Ops;
    updated := last;
    var operands := Ops(p, c);
    for k := 0 to |operands|
      invariant |updated| == |last|
      invariant forall i :: 0 <= i < |last| ==> updated[i] == if i + 1 in operands[..k] then c else last[i]
    {
      assert operands[..k + 1] == operands[..k] + [operands[k]];
      updated := updated[operands[k] - 1 := c];
    }
    assert operands[..|operands|] == operands;
  }

  method ComputeLastUses(p: Program, roots: seq<bool>) returns (last: seq<nat>)
    requires Ordered(p) && |roots| == |p.rows|
    ensures LastUsesOk(p, roots, last)
  {
    var n := |p.rows|;
    last := seq(n, row => row);
    for c := 0 to n
      invariant AllScanned(p, last, c)
    {
      var next := RecordConsumer(p, last, c);
      ScanStep(p, last, next, c);
      last := next;
    }
    ghost var scanned := last;
    for row := 0 to n
      invariant |last| == n
      invariant forall i :: 0 <= i < n ==> last[i] == if i < row && roots[i] then n else scanned[i]
    {
      if roots[row] {
        last := last[row := n];
      }
    }
    forall i | 0 <= i < n
      ensures LastUseOk(p, roots, last, i)
    {
      assert ScannedTo(p, scanned, n, i);
    }
  }

  /** The rows whose values must be kept while row r runs: those read later than
      r, and among those r reads last, the ones below `bound`. */
  function Held(last: seq<nat>, live: seq<bool>, r: nat, bound: nat): set<nat>
    requires |live| == |last|
  {
    set i | 0 <= i < |last| && i < r && live[i] && (last[i] > r || (last[i] == r && i < bound))
  }

  /** The slots handed out: `free` holds zero-based indices of released slots. */
  datatype Plan = Plan(slots: seq<nat>, free: set<nat>, firstFreeWord: nat, peak: nat)

  /** Slots 1 to peak are either free or owned by exactly one held row. */
  ghost predicate Consistent(a: Plan, held: set<nat>, owner: map<nat, nat>) {
    && (forall i :: i in held ==> i < |a.slots| && a.slots[i] in owner && owner[a.slots[i]] == i)
    && (forall s :: s in owner ==> 1 <= s <= a.peak && s - 1 !in a.free && owner[s] in held && a.slots[owner[s]] == s)
    && (forall b :: b in a.free ==> b < a.peak && a.firstFreeWord <= b / 64)
    && (forall s :: 1 <= s <= a.peak ==> s in owner || s - 1 in a.free)
  }

  /** Put a slot back. A zero slot, a slot past the last word and a slot that is
      already free are refused. */
  method MarkSlotFree(a: Plan, slot: nat, words: nat) returns (ok: bool, b: Plan)
    ensures ok <==> slot != 0 && (slot - 1) / 64 < words && slot - 1 !in a.free
    ensures ok ==> b == Plan(a.slots, a.free + {slot - 1},
                             if (slot - 1) / 64 < a.firstFreeWord then (slot - 1) / 64 else a.firstFreeWord, a.peak)
  {
    if slot == 0 || (slot - 1) / 64 >= words || slot - 1 in a.free {
      return false, a;
    }
    var word := (slot - 1) / 64;
    ok, b := true, Plan(a.slots, a.free + {slot - 1}, if word < a.firstFreeWord then word else a.firstFreeWord, a.peak);
  }

  lemma ReleaseKeeps(a: Plan, b: Plan, held: set<nat>, owner: map<nat, nat>, i: nat)
    requires Consistent(a, held, owner) && i in held
    requires b.slots == a.slots && b.free == a.free + {a.slots[i] - 1} && b.peak == a.peak
    requires b.firstFreeWord <= a.firstFreeWord && b.firstFreeWord <= (a.slots[i] - 1) / 64
    ensures Consistent(b, held - {i}, owner - {a.slots[i]})
  {
  }

  /** The lowest free slot, or a new one when none is free. */
  function Chosen(a: Plan): nat {
    if a.free == {} then a.peak + 1 else Min(a.free) + 1
  }

  lemma AssignKeeps(a: Plan, b: Plan, held: set<nat>, owner: map<nat, nat>, r: nat)
    requires Consistent(a, held, owner) && r !in held && r < |a.slots|
    requires b.slots == a.slots[r := Chosen(a)]
    requires b.free == a.free - {Chosen(a) - 1} && b.peak == if a.free == {} then a.peak + 1 else a.peak
    requires forall f :: f in b.free ==> b.firstFreeWord <= f / 64
    ensures Consistent(b, held + {r}, owner[Chosen(a) := r])
  {
  }

  /** The held rows are as many as the slots that are not free. */
  lemma HeldCount(a: Plan, held: set<nat>, owner: map<nat, nat>)
    requires Consistent(a, held, owner)
    ensures a.free == {} ==> |held| == a.peak
    ensures a.free != {} ==> |held| < a.peak
  {
    hide UpTo;
    var slotOf := map i | i in held :: a.slots[i];
    InjectionBound(held, owner.Keys, slotOf);
    InjectionBound(owner.Keys, held, owner);
    var all := UpTo(a.peak);
    if a.free == {} {
      assert owner.Keys == all;
    } else {
      var f :| f in a.free;
      assert owner.Keys <= all - {f + 1};
      InjectionBound(owner.Keys, all - {f + 1}, map s | s in owner :: s);
    }
  }

  /** The number of values that must coexist while row r runs, its own included. */
  function Width(last: seq<nat>, live: seq<bool>, r: nat): nat
    requires |live| == |last|
  {
    |Held(last, live, r, 0)| + 1
  }

  /** The largest width over the live rows below `n`. */
  function MaxWidth(last: seq<nat>, live: seq<bool>, n: nat): nat
    requires |live| == |last| && n <= |last|
  {
    if n == 0 then 0
    else if live[n - 1] && Width(last, live, n - 1) > MaxWidth(last, live, n - 1) then Width(last, live, n - 1)
    else MaxWidth(last, live, n - 1)
  }

  /** A plan in which no value is overwritten before its last use: if i is read
      after j is written, i and j have different slots. */
  ghost predicate NoClash(last: seq<nat>, live: seq<bool>, slots: seq<nat>) {
    && |live| == |last| == |slots|
    && forall i, j :: 0 <= i < j < |last| && live[i] && live[j] && last[i] > j ==> slots[i] != slots[j]
  }

  /** Every plan without clashes needs as many slots as the widest row. */
  lemma {:induction false} WidthIsNecessary(last: seq<nat>, live: seq<bool>, slots: seq<nat>, n: nat, k: nat)
    requires NoClash(last, live, slots) && n <= |last|
    requires forall i :: 0 <= i < |slots| && live[i] ==> 1 <= slots[i] <= k
    ensures MaxWidth(last, live, n) <= k
  {
    if n > 0 {
      WidthIsNecessary(last, live, slots, n - 1, k);
      if live[n - 1] {
        hide UpTo;
        var together := Held(last, live, n - 1, 0) + {n - 1};
        var slotOf := map i | i in together :: slots[i];
        InjectionBound(together, UpTo(k), slotOf);
      }
    }
  }

  /** The one-based row of the last live i below `bound` that is released at
      `use`, or 0. */
  function LastBefore(last: seq<nat>, live: seq<bool>, use: nat, bound: nat): nat
    requires |live| == |last| && bound <= |last|
  {
    if bound == 0 then 0
    else if live[bound - 1] && last[bound - 1] == use && bound - 1 < use then bound
    else LastBefore(last, live, use, bound - 1)
  }

  /** No row from LastBefore up to `bound` is released at `use`. */
  lemma {:induction false} LastBeforeExact(last: seq<nat>, live: seq<bool>, use: nat, bound: nat)
    requires |live| == |last| && bound <= |last|
    ensures var id := LastBefore(last, live, use, bound);
            && id <= bound
            && (id > 0 ==> live[id - 1] && last[id - 1] == use && id - 1 < use)
            && (forall i :: id <= i < bound && i < use && live[i] ==> last[i] != use)
  {
    if bound > 0 {
      LastBeforeExact(last, live, use, bound - 1);
    }
  }

  predicate UsesInRange(last: seq<nat>, live: seq<bool>, n: nat)
    requires |live| == |last| && n <= |last|
  {
    forall i :: 0 <= i < n && live[i] ==> i <= last[i] <= |last|
  }

  /** Thread every live row onto the release list of its last use. The lists live
      in two columns: the head row of each use, and the next row of each row. */
  method BuildReleaseLists(last: seq<nat>, live: seq<bool>) returns (ok: bool, heads: seq<nat>, nexts: seq<nat>)
    requires |live| == |last|
    ensures ok <==> UsesInRange(last, live, |last|)
    ensures ok ==> |heads| == |nexts| == |last|
    ensures ok ==> forall u :: 0 <= u < |last| ==> heads[u] == LastBefore(last, live, u, |last|)
    ensures ok ==> forall i :: 0 <= i < |last| && live[i] && i < last[i] < |last| ==>
              nexts[i] == LastBefore(last, live, last[i], i)
  {
    var n := |last|;
    heads, nexts := seq(n, _ => 0), seq(n, _ => 0);
    for row := 0 to n
      invariant |heads| == |nexts| == n
      invariant UsesInRange(last, live, row)
      invariant forall u :: 0 <= u < n ==> heads[u] == LastBefore(last, live, u, row)
      invariant forall i :: 0 <= i < row && live[i] && i < last[i] < n ==>
                  nexts[i] == LastBefore(last, live, last[i], i)
    {
      if live[row] {
        if last[row] < row || last[row] > n {
          return false, heads, nexts;
        }
        if last[row] > row && last[row] < n {
          nexts := nexts[row := heads[last[row]]];
          heads := heads[last[row] := row + 1];
        }
      }
    }
    ok := true;
  }

  ghost predicate ListsOk(last: seq<nat>, live: seq<bool>, heads: seq<nat>, nexts: seq<nat>) {
    && |live| == |last| == |heads| == |nexts|
    && (forall u :: 0 <= u < |last| ==> heads[u] == LastBefore(last, live, u, |last|))
    && (forall i :: 0 <= i < |last| && live[i] && i < last[i] < |last| ==>
         nexts[i] == LastBefore(last, live, last[i], i))
  }

  lemma HeldDown(last: seq<nat>, live: seq<bool>, r: nat, bound: nat)
    requires |live| == |last| && r < |last| && bound <= |last|
    ensures var id := LastBefore(last, live, r, bound);
            if id == 0 then Held(last, live, r, bound) == Held(last, live, r, 0)
            else id <= |last| && id - 1 in Held(last, live, r, bound) &&
                 Held(last, live, r, bound) - {id - 1} == Held(last, live, r, id - 1)
  {
    LastBeforeExact(last, live, r, bound);
  }

  /** Release, at the start of row r, every slot whose last use is r. */
  method ReleaseRow(a: Plan, last: seq<nat>, live: seq<bool>, heads: seq<nat>, nexts: seq<nat>, r: nat,
                    ghost owner: map<nat, nat>)
    returns (ok: bool, b: Plan, ghost owner': map<nat, nat>)
    requires ListsOk(last, live, heads, nexts) && r < |last| && a.peak <= |last|
    requires Consistent(a, Held(last, live, r, |last|), owner)
    ensures ok && b.slots == a.slots && b.peak == a.peak
    ensures Consistent(b, Held(last, live, r, 0), owner')
  {
    hide Held, LastBefore;
    var words := WordCount(|last|);
    var id := heads[r];
    b, owner' := a, owner;
    ghost var bound: nat := |last|;
    while id != 0
      invariant bound <= |last| && id == LastBefore(last, live, r, bound)
      invariant b.slots == a.slots && b.peak == a.peak
      invariant Consistent(b, Held(last, live, r, bound), owner')
      decreases bound
    {
      LastBeforeExact(last, live, r, bound);
      HeldDown(last, live, r, bound);
      if id > |last| || !live[id - 1] {
        return false, b, owner';
      }
      var freed, c := MarkSlotFree(b, b.slots[id - 1], words);
      if !freed {
        return false, b, owner';
      }
      ReleaseKeeps(b, c, Held(last, live, r, bound), owner', id - 1);
      owner' := owner' - {b.slots[id - 1]};
      b, bound, id := c, id - 1, nexts[id - 1];
    }
    HeldDown(last, live, r, bound);
    ok := true;
  }

  lemma HeldNext(last: seq<nat>, live: seq<bool>, r: nat)
    requires |live| == |last| && r < |last| && (live[r] ==> r <= last[r])
    ensures Held(last, live, r + 1, |last|) == Held(last, live, r, 0) + (if live[r] && last[r] > r then {r} else {})
    ensures r !in Held(last, live, r, 0)
  {
  }

  /** Choose row r's slot and, when nothing reads it, put it straight back. */
  method AssignRow(a: Plan, last: seq<nat>, live: seq<bool>, r: nat, ghost owner: map<nat, nat>)
    returns (ok: bool, b: Plan, ghost owner': map<nat, nat>)
    requires |live| == |last| && r < |last| <= MAX_UINT32 && live[r] && r <= last[r] && |a.slots| == |last|
    requires a.peak <= r && Consistent(a, Held(last, live, r, 0), owner)
    ensures ok && b.slots == a.slots[r := Chosen(a)] && b.peak == if a.free == {} then a.peak + 1 else a.peak
    ensures Consistent(b, Held(last, live, r + 1, |last|), owner')
  {
    hide Held, Consistent, Min;
    HeldNext(last, live, r);
    var words := WordCount(|last|);
    var c;
    ok, c, owner' := TakeSlot(a, r, words, Held(last, live, r, 0), owner);
    if last[r] == r {
      PlacedSlot(c, Held(last, live, r, 0) + {r}, owner', r, words);
      ok, b := MarkSlotFree(c, c.slots[r], words);
      ReleaseKeeps(c, b, Held(last, live, r, 0) + {r}, owner', r);
      owner' := owner' - {c.slots[r]};
      assert Held(last, live, r, 0) + {r} - {r} == Held(last, live, r, 0);
      assert Held(last, live, r, 0) + {} == Held(last, live, r, 0);
    } else {
      b := c;
    }
  }

  /** Give row r the lowest free slot, or a new one. */
  method TakeSlot(a: Plan, r: nat, words: nat, ghost held: set<nat>, ghost owner: map<nat, nat>)
    returns (ok: bool, c: Plan, ghost owner': map<nat, nat>)
    requires Consistent(a, held, owner) && r !in held && r < |a.slots| <= MAX_UINT32 && a.peak <= r
    requires words == WordCount(|a.slots|)
    ensures ok && c.slots == a.slots[r := Chosen(a)] && c.peak == if a.free == {} then a.peak + 1 else a.peak
    ensures Consistent(c, held + {r}, owner') && c.peak <= |a.slots|
  {
    FreeInWords(a, held, owner, words);
    hide Consistent, Min, WordCount;
    var found, bit, word := TakeLowest(a.free, a.firstFreeWord, words);
    if !found && a.peak == MAX_UINT32 {
      return false, a, owner;
    }
    c := Plan(a.slots[r := if found then bit + 1 else a.peak + 1],
              if found then a.free - {bit} else a.free,
              if found && WordBits(a.free - {bit}, word) == {} then word + 1 else word,
              if found then a.peak else a.peak + 1);
    LowestWord(a.free, bit, word, found);
    AssignKeeps(a, c, held, owner, r);
    ok, owner' := true, owner[Chosen(a) := r];
  }

  /** Free slots lie in the words the plan has. */
  lemma FreeInWords(a: Plan, held: set<nat>, owner: map<nat, nat>, words: nat)
    requires Consistent(a, held, owner) && a.peak <= |a.slots| && words == WordCount(|a.slots|)
    ensures forall f :: f in a.free ==> a.firstFreeWord <= f / 64 < words
  {
  }

  /** After the lowest bit is taken, the search can start at its word, or behind it. */
  lemma LowestWord(free: set<nat>, bit: nat, word: nat, found: bool)
    requires found <==> free != {}
    requires found ==> bit == Min(free) && word == bit / 64
    ensures found ==> free - {bit} == free - {Min(free)}
    ensures forall f :: f in (if found then free - {bit} else free) ==>
              (if found && WordBits(free - {bit}, word) == {} then word + 1 else word) <= f / 64
  {
    if found {
      forall f | f in free - {bit}
        ensures word <= f / 64 && (WordBits(free - {bit}, word) == {} ==> word + 1 <= f / 64)
      {
        assert bit <= f;
        assert f / 64 == word ==> f in WordBits(free - {bit}, word);
      }
    }
  }

  /** The slot of a held row is in use and within the words. */
  lemma PlacedSlot(c: Plan, held: set<nat>, owner: map<nat, nat>, r: nat, words: nat)
    requires Consistent(c, held, owner) && r in held && c.peak <= |c.slots| && words == WordCount(|c.slots|)
    ensures r < |c.slots| && 1 <= c.slots[r] && c.slots[r] - 1 !in c.free && (c.slots[r] - 1) / 64 < words
  {
  }

  datatype Allocation = Planned(slots: seq<nat>, peak: nat) | Invalid | TooLarge

  /** The state between rows: rows below r have slots, and the plan so far has no
      clash and is as wide as the widest row. */
  ghost predicate PlannedTo(a: Plan, last: seq<nat>, live: seq<bool>, r: nat) {
    && |live| == |last| == |a.slots| && r <= |last|
    && a.peak == MaxWidth(last, live, r) && a.peak <= r
    && (forall i :: 0 <= i < r ==> if live[i] then 1 <= a.slots[i] <= a.peak else a.slots[i] == 0)
    && (forall i :: r <= i < |last| ==> a.slots[i] == 0)
    && (forall i, j :: 0 <= i < j < r && live[i] && live[j] && last[i] > j ==> a.slots[i] != a.slots[j])
  }

  lemma PlanStep(a: Plan, b: Plan, last: seq<nat>, live: seq<bool>, r: nat, owner: map<nat, nat>)
    requires PlannedTo(a, last, live, r) && r < |last| && live[r]
    requires Consistent(a, Held(last, live, r, 0), owner)
    requires b.slots == a.slots[r := Chosen(a)] && b.peak == if a.free == {} then a.peak + 1 else a.peak
    ensures PlannedTo(b, last, live, r + 1)
  {
    HeldCount(a, Held(last, live, r, 0), owner);
    forall i | 0 <= i < r && live[i] && last[i] > r
      ensures a.slots[i] != Chosen(a)
    {
      assert i in Held(last, live, r, 0);
    }
  }

  /** Slots for the live rows. With reuse, a slot released at a row may be that
      row's own destination; without it every live row keeps its slot. */
  method AllocateSlots(last: seq<nat>, live: seq<bool>, reuse: bool) returns (r: Allocation)
    requires |live| == |last| <= MAX_UINT32
    ensures r.Invalid? <==> reuse && !UsesInRange(last, live, |last|)
    ensures !r.TooLarge?
    ensures r.Planned? ==> NoClash(last, live, r.slots)
    ensures r.Planned? ==> forall i :: 0 <= i < |last| ==>
              if live[i] then 1 <= r.slots[i] <= r.peak else r.slots[i] == 0
    ensures r.Planned? && reuse ==> r.peak == MaxWidth(last, live, |last|)
  {
    if reuse {
      r := AllocateReusing(last, live);
    } else {
      r := AllocateRetaining(last, live);
    }
  }

  method AllocateRetaining(last: seq<nat>, live: seq<bool>) returns (r: Allocation)
    requires |live| == |last| <= MAX_UINT32
    ensures r.Planned? && |r.slots| == |last|
    ensures forall i :: 0 <= i < |last| ==> if live[i] then 1 <= r.slots[i] <= r.peak else r.slots[i] == 0
    ensures forall i, j :: 0 <= i < j < |last| && live[i] && live[j] ==> r.slots[i] < r.slots[j]
  {
    var slots, peak := seq(|last|, _ => 0), 0;
    for row := 0 to |last|
      invariant |slots| == |last| && peak <= row
      invariant forall i :: 0 <= i < |last| ==> if i < row && live[i] then 1 <= slots[i] <= peak else slots[i] == 0
      invariant forall i, j :: 0 <= i < j < row && live[i] && live[j] ==> slots[i] < slots[j]
    {
      if live[row] {
        if peak == MAX_UINT32 {
          return TooLarge;
        }
        peak := peak + 1;
        slots := slots[row := peak];
      }
    }
    r := Planned(slots, peak);
  }

  method AllocateReusing(last: seq<nat>, live: seq<bool>) returns (r: Allocation)
    requires |live| == |last| <= MAX_UINT32
    ensures r.Invalid? <==> !UsesInRange(last, live, |last|)
    ensures !r.TooLarge?
    ensures r.Planned? ==> NoClash(last, live, r.slots) && r.peak == MaxWidth(last, live, |last|)
    ensures r.Planned? ==> forall i :: 0 <= i < |last| ==>
              if live[i] then 1 <= r.slots[i] <= r.peak else r.slots[i] == 0
  {
    hide Held, Consistent, MaxWidth, LastBefore, PlannedTo, NoClash, UsesInRange;
    var n := |last|;
    var ok, heads, nexts := BuildReleaseLists(last, live);
    if !ok {
      return Invalid;
    }
    var a := Plan(seq(n, _ => 0), {}, WordCount(n), 0);
    ghost var owner: map<nat, nat> := map[];
    PlanStart(a, last, live);
    for row := 0 to n
      invariant PlannedTo(a, last, live, row)
      invariant Consistent(a, Held(last, live, row, n), owner)
    {
      PlannedFacts(a, last, live, row);
      ghost var before := a;
      ok, a, owner := ReleaseRow(a, last, live, heads, nexts, row, owner);
      PlannedSame(before, a, last, live, row);
      if live[row] {
        UsesFacts(last, live, row);
        ghost var released, owned := a, owner;
        ok, a, owner := AssignRow(a, last, live, row, owner);
        PlanStep(released, a, last, live, row, owned);
      } else {
        SkipRow(a, last, live, row);
      }
    }
    PlanEnd(a, last, live);
    r := Planned(a.slots, a.peak);
  }

  lemma PlannedFacts(a: Plan, last: seq<nat>, live: seq<bool>, r: nat)
    requires PlannedTo(a, last, live, r)
    ensures |a.slots| == |last| && a.peak <= r <= |last|
  {
    hide MaxWidth;
  }

  lemma PlannedSame(a: Plan, b: Plan, last: seq<nat>, live: seq<bool>, r: nat)
    requires PlannedTo(a, last, live, r) && b.slots == a.slots && b.peak == a.peak
    ensures PlannedTo(b, last, live, r)
  {
    hide MaxWidth;
  }

  lemma UsesFacts(last: seq<nat>, live: seq<bool>, r: nat)
    requires |live| == |last| && UsesInRange(last, live, |last|) && r < |last| && live[r]
    ensures r <= last[r]
  {
  }

  lemma PlanStart(a: Plan, last: seq<nat>, live: seq<bool>)
    requires |live| == |last| && a == Plan(seq(|last|, _ => 0), {}, WordCount(|last|), 0)
    ensures PlannedTo(a, last, live, 0) && Consistent(a, Held(last, live, 0, |last|), map[])
  {
    assert Held(last, live, 0, |last|) == {};
  }

  lemma PlanEnd(a: Plan, last: seq<nat>, live: seq<bool>)
    requires |live| == |last| && PlannedTo(a, last, live, |last|)
    ensures NoClash(last, live, a.slots) && a.peak == MaxWidth(last, live, |last|)
    ensures forall i :: 0 <= i < |last| ==> if live[i] then 1 <= a.slots[i] <= a.peak else a.slots[i] == 0
  {
    hide MaxWidth;
  }

  lemma SkipRow(a: Plan, last: seq<nat>, live: seq<bool>, r: nat)
    requires PlannedTo(a, last, live, r) && r < |last| && !live[r]
    ensures PlannedTo(a, last, live, r + 1)
    ensures Held(last, live, r + 1, |last|) == Held(last, live, r, 0)
  {
    HeldNext(last, live, r);
  }
}
