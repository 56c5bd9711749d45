/**
  Copying a frozen leaf while other threads still run: the metadata words and the words of the
  records are read one by one, at any moments after the freeze, and the records are then sorted.
  Keys are decoded from their words by an arbitrary function.
*/
module BzConsolidate {
  import LeafFreeze
  import opened BzNodes
  import opened BzSplit

  /** What the copy saw of one slot: when it read the metadata word and each word of the record. */
  datatype Read = Read(metaTime: nat, wordTimes: seq<nat>, words: seq<nat>)

  /** The last word of a record is its payload. */
  function Decoded(keyOf: seq<nat> -> Key, words: seq<nat>): Slot {
    if words == [] then Slot(true, keyOf([]), 0) else Slot(true, keyOf(words[..|words| - 1]), words[|words| - 1])
  }

  /** Slot i of the leaf in state s. */
  function SlotAt(s: LeafFreeze.State, i: nat, keyOf: seq<nat> -> Key): Slot {
    var r := LeafFreeze.Rec(s, i);
    if r.Some? then Decoded(keyOf, r.value) else Slot(false, keyOf([]), 0)
  }

  /** Slot i holds this visible record. */
  predicate Held(s: LeafFreeze.State, i: nat, keyOf: seq<nat> -> Key, slot: Slot) {
    LeafFreeze.Rec(s, i).Some? && slot == Decoded(keyOf, LeafFreeze.Rec(s, i).value)
  }

  /** The first n slots of the leaf in state s. */
  function Slots(s: LeafFreeze.State, n: nat, keyOf: seq<nat> -> Key): (r: seq<Slot>)
    ensures |r| == n && forall i :: 0 <= i < n ==> r[i] == SlotAt(s, i, keyOf)
  {
    if n == 0 then [] else Slots(s, n - 1, keyOf) + [SlotAt(s, n - 1, keyOf)]
  }

  /** Slot i was read after state k; a record found visible was read word by word. */
  ghost predicate ReadAfter(run: seq<LeafFreeze.State>, k: nat, i: nat, read: Read) {
    && k <= read.metaTime < |run|
    && (LeafFreeze.Visible(run[read.metaTime], i) ==>
          var meta := run[read.metaTime].metas[i];
          && |read.wordTimes| == |read.words| == meta.len
          && forall j :: 0 <= j < |read.words| ==>
               && k <= read.wordTimes[j] < |run|
               && meta.offset + j < |run[read.wordTimes[j]].mem|
               && read.words[j] == run[read.wordTimes[j]].mem[meta.offset + j])
  }

  /** The records that the copy takes from the first n slots: those it found visible. */
  ghost function Collected(run: seq<LeafFreeze.State>, seen: seq<Read>, n: nat, keyOf: seq<nat> -> Key): seq<Slot>
    requires n <= |seen|
  {
    if n == 0 then []
    else
      var rest, read := Collected(run, seen, n - 1, keyOf), seen[n - 1];
      if read.metaTime < |run| && LeafFreeze.Visible(run[read.metaTime], n - 1) then rest + [Decoded(keyOf, read.words)]
      else rest
  }

  lemma {:induction false} VisibleMore(slots: seq<Slot>, slot: Slot)
    ensures Visible(slots + [slot]) == if slot.visible then Visible(slots) + [slot] else Visible(slots)
  {
    if slots == [] {
      assert slots + [slot] == [slot] && [slot][1..] == [];
    } else {
      assert (slots + [slot])[1..] == slots[1..] + [slot];
      VisibleMore(slots[1..], slot);
    }
  }

  /** What was read of a slot is what it held at the freeze. */
  lemma ReadIsSlot(
    run: seq<LeafFreeze.State>, steps: seq<LeafFreeze.Step>, k: nat, i: nat, read: Read, keyOf: seq<nat> -> Key)
    requires LeafFreeze.IsRun(run, steps) && k < |run| && run[k].status.frozen && ReadAfter(run, k, i, read)
    ensures LeafFreeze.Visible(run[read.metaTime], i) <==> SlotAt(run[k], i, keyOf).visible
    ensures SlotAt(run[k], i, keyOf).visible ==> SlotAt(run[k], i, keyOf) == Decoded(keyOf, read.words)
  {
    if LeafFreeze.Visible(run[read.metaTime], i) {
      LeafFreeze.CopyIsSnapshot(run, steps, k, i, read.metaTime, read.wordTimes, read.words);
    } else {
      LeafFreeze.FrozenForever(run, steps, k, read.metaTime, i);
    }
  }

  /** Main result: however its reads are spread, the copy collects the visible records of the leaf at the freeze. */
  lemma {:induction false} CollectedAtFreeze(
    run: seq<LeafFreeze.State>, steps: seq<LeafFreeze.Step>, k: nat, seen: seq<Read>, n: nat, keyOf: seq<nat> -> Key)
    requires LeafFreeze.IsRun(run, steps) && k < |run| && run[k].status.frozen && n <= |seen|
    requires forall i :: 0 <= i < |seen| ==> ReadAfter(run, k, i, seen[i])
    ensures Collected(run, seen, n, keyOf) == Visible(Slots(run[k], n, keyOf))
  {
    if n > 0 {
      CollectedAtFreeze(run, steps, k, seen, n - 1, keyOf);
      ReadIsSlot(run, steps, k, n - 1, seen[n - 1], keyOf);
      VisibleMore(Slots(run[k], n - 1, keyOf), SlotAt(run[k], n - 1, keyOf));
    }
  }

  /**
    Main result: Consolidate. The sorted copy is in key order and holds exactly the records that were
    visible when the leaf was frozen, and a split divides the leaf as it was then.
  */
  lemma ConsolidatedExactly(
    run: seq<LeafFreeze.State>, steps: seq<LeafFreeze.Step>, k: nat, seen: seq<Read>, keyOf: seq<nat> -> Key,
    slot: Slot)
    requires LeafFreeze.IsRun(run, steps) && k < |run| && run[k].status.frozen && |seen| == run[k].status.count
    requires forall i :: 0 <= i < |seen| ==> ReadAfter(run, k, i, seen[i])
    requires UniqueKeys(Slots(run[k], |seen|, keyOf))
    ensures var sorted := Sort(Collected(run, seen, |seen|, keyOf));
            InOrder(sorted) && (slot in sorted <==> exists i: nat :: Held(run[k], i, keyOf, slot))
    ensures Visible(Slots(run[k], |seen|, keyOf)) != [] ==>
              var sorted := Sort(Collected(run, seen, |seen|, keyOf));
              var n := LeftCount(sorted, TotalSize(sorted) / 2);
              0 < n <= |sorted| && LeafHalves(Slots(run[k], |seen|, keyOf))
                                   == (Leaf(sorted[..n]), Leaf(sorted[n..]), sorted[n - 1].key)
  {
    var slots := Slots(run[k], |seen|, keyOf);
    CollectedAtFreeze(run, steps, k, seen, |seen|, keyOf);
    SortedRecords(slots);
    if Visible(slots) != [] {
      LeftCountBalances(Sort(Visible(slots)), TotalSize(Sort(Visible(slots))) / 2);
    }
    LeafFreeze.InvInRun(run, steps, k);
    SlotsAreRecords(run[k], keyOf, slot);
  }

  lemma SlotsAreRecords(s: LeafFreeze.State, keyOf: seq<nat> -> Key, slot: Slot)
    requires LeafFreeze.Inv(s)
    ensures slot in Slots(s, s.status.count, keyOf) && slot.visible <==>
            exists i: nat :: Held(s, i, keyOf, slot)
  {
    var slots := Slots(s, s.status.count, keyOf);
    if slot in slots && slot.visible {
      var i :| 0 <= i < |slots| && slots[i] == slot;
      assert Held(s, i, keyOf, slot);
    }
    if i: nat :| Held(s, i, keyOf, slot) {
      assert i < s.status.count;
      assert slots[i] == slot;
    }
  }
}
