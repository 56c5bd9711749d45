/**
  Recovery of the hash index: replaying the log, record by record, over an index that was
  written to disk while the store was running and so may hold any addresses.
*/
module Recovery {
  const INVALID_ADDRESS := 1
  const HEADER_SIZE := 8

  /** A hash bucket entry, named by bucket and tag. */
  datatype Slot = Slot(bucket: nat, tag: nat)

  /** What the log holds at an address: an empty header, or a record of size `size`. */
  datatype Cell =
    | Null
    | Record(slot: Slot, previous: nat, version: nat, invalid: bool, size: nat)

  type Log = map<nat, Cell>
  type Index = map<Slot, nat>

  function SizeOf(c: Cell): nat {
    if c.Null? then HEADER_SIZE else c.size
  }

  /** The region [from, to) can be read record by record. */
  predicate Readable(log: Log, from: nat, to: nat)
    decreases if from < to then to - from else 0
  {
    from < to ==> from in log && SizeOf(log[from]) > 0 && Readable(log, from + SizeOf(log[from]), to)
  }

  /** The addresses of the valid records that a scan of [from, to) meets, in order. */
  function Walk(log: Log, from: nat, to: nat): seq<nat>
    requires Readable(log, from, to)
    decreases if from < to then to - from else 0
  {
    if from >= to then []
    else
      var rest := Walk(log, from + SizeOf(log[from]), to);
      if log[from].Null? || log[from].invalid then rest else [from] + rest
  }

  // ---------- Replaying, as a fold over the records met ----------

  ghost predicate AllRecords(log: Log, addrs: seq<nat>) {
    forall i :: 0 <= i < |addrs| ==> addrs[i] in log && log[addrs[i]].Record?
  }

  function FindOrCreate(index: Index, s: Slot): Index {
    if s in index then index else index[s := INVALID_ADDRESS]
  }

  /** The effect of one record on the index. */
  function ReplayOne(index: Index, address: nat, r: Cell, version: nat, start: nat): Index
    requires r.Record?
  {
    if r.version <= version then index[r.slot := address]
    else if r.previous < start then index[r.slot := r.previous]
    else FindOrCreate(index, r.slot)
  }

  /** The index after the first n of the records at `addrs`. */
  ghost function Replay(index: Index, log: Log, addrs: seq<nat>, n: nat, version: nat, start: nat): Index
    requires AllRecords(log, addrs) && n <= |addrs|
  {
    if n == 0 then index
    else ReplayOne(Replay(index, log, addrs, n - 1, version, start), addrs[n - 1], log[addrs[n - 1]], version, start)
  }

  /** The log after the first n records: those of a later version are marked invalid. */
  ghost function Invalidated(log: Log, addrs: seq<nat>, n: nat, version: nat): Log
    requires AllRecords(log, addrs) && n <= |addrs|
  {
    if n == 0 then log
    else
      var before, x := Invalidated(log, addrs, n - 1, version), addrs[n - 1];
      if log[x].version > version then before[x := log[x].(invalid := true)] else before
  }

  /** Exactly the replayed records of later versions change, and only in their invalid bit. */
  lemma {:induction false} InvalidatedExactly(log: Log, addrs: seq<nat>, n: nat, version: nat, a: nat)
    requires AllRecords(log, addrs) && n <= |addrs| && a in log
    ensures Invalidated(log, addrs, n, version).Keys == log.Keys
    ensures Invalidated(log, addrs, n, version)[a]
            == if a in addrs[..n] && log[a].version > version then log[a].(invalid := true) else log[a]
  {
    if n > 0 {
      InvalidatedExactly(log, addrs, n - 1, version, a);
      assert addrs[..n] == addrs[..n - 1] + [addrs[n - 1]];
    }
  }

  // ---------- Well-formed logs ----------

  ghost predicate SameSlotBetween(log: Log, addrs: seq<nat>, lo: nat, hi: nat, s: Slot)
    requires AllRecords(log, addrs) && hi <= |addrs|
  {
    exists j :: lo <= j < hi && log[addrs[j]].slot == s
  }

  /** Record k points to its slot's latest earlier record, of no later version, or below the region. */
  ghost predicate Linked(log: Log, addrs: seq<nat>, start: nat, k: nat)
    requires AllRecords(log, addrs) && k < |addrs|
  {
    var r := log[addrs[k]];
    if SameSlotBetween(log, addrs, 0, k, r.slot) then
      exists j :: 0 <= j < k && log[addrs[j]].slot == r.slot && !SameSlotBetween(log, addrs, j + 1, k, r.slot)
                  && r.previous == addrs[j] && log[addrs[j]].version <= r.version
    else
      r.previous < start
  }

  ghost predicate WellFormed(log: Log, addrs: seq<nat>, start: nat) {
    && AllRecords(log, addrs)
    && (forall i, j :: 0 <= i < j < |addrs| ==> addrs[i] < addrs[j])
    && (forall i :: 0 <= i < |addrs| ==> start <= addrs[i])
    && (forall k :: 0 <= k < |addrs| ==> Linked(log, addrs, start, k))
  }

  /** Among the first n records, i is the slot's newest of version at most `version`. */
  ghost predicate Newest(log: Log, addrs: seq<nat>, n: nat, version: nat, s: Slot, i: nat)
    requires AllRecords(log, addrs) && n <= |addrs|
  {
    && i < n && log[addrs[i]].slot == s && log[addrs[i]].version <= version
    && forall j :: i < j < n && log[addrs[j]].slot == s ==> log[addrs[j]].version > version
  }

  /** Among the first n records, i is the slot's first, and every record of the slot is too new. */
  ghost predicate AllTooNew(log: Log, addrs: seq<nat>, n: nat, version: nat, s: Slot, i: nat)
    requires AllRecords(log, addrs) && n <= |addrs|
  {
    && i < n && log[addrs[i]].slot == s
    && (forall j :: 0 <= j < i ==> log[addrs[j]].slot != s)
    && forall j :: 0 <= j < n && log[addrs[j]].slot == s ==> log[addrs[j]].version > version
  }

  /** The address the first n records must leave in the entry of a slot they touch. */
  ghost predicate Restores(log: Log, addrs: seq<nat>, n: nat, version: nat, s: Slot, address: nat)
    requires AllRecords(log, addrs) && n <= |addrs|
  {
    || (exists i: nat :: Newest(log, addrs, n, version, s, i) && address == addrs[i])
    || (exists i: nat :: AllTooNew(log, addrs, n, version, s, i) && address == log[addrs[i]].previous)
  }

  /** A record of another slot, or of a later version, does not change what must be restored. */
  lemma RestoresExtends(log: Log, addrs: seq<nat>, n: nat, version: nat, s: Slot, address: nat)
    requires AllRecords(log, addrs) && 0 < n <= |addrs|
    requires Restores(log, addrs, n - 1, version, s, address)
    requires log[addrs[n - 1]].slot != s || log[addrs[n - 1]].version > version
    ensures Restores(log, addrs, n, version, s, address)
  {
    if i: nat :| Newest(log, addrs, n - 1, version, s, i) && address == addrs[i] {
      assert Newest(log, addrs, n, version, s, i);
    } else {
      var i: nat :| AllTooNew(log, addrs, n - 1, version, s, i) && address == log[addrs[i]].previous;
      assert AllTooNew(log, addrs, n, version, s, i);
    }
  }

  /**
    Main result: whatever the fuzzy index held, replaying a well-formed log leaves the entry of
    every touched slot at the newest record of the checkpointed version or older, or, if there is
    none, at the predecessor of the slot's first record; untouched entries stay as they were.
  */
  lemma {:induction false} ReplayRestores(
    index: Index, log: Log, addrs: seq<nat>, n: nat, version: nat, start: nat, s: Slot)
    requires WellFormed(log, addrs, start) && n <= |addrs|
    ensures var after := Replay(index, log, addrs, n, version, start);
            if SameSlotBetween(log, addrs, 0, n, s) then
              s in after && Restores(log, addrs, n, version, s, after[s])
            else
              (s in after <==> s in index) && (s in index ==> after[s] == index[s])
  {
    if n > 0 {
      ReplayRestores(index, log, addrs, n - 1, version, start, s);
      var before := Replay(index, log, addrs, n - 1, version, start);
      var r := log[addrs[n - 1]];
      assert Linked(log, addrs, start, n - 1);
      if r.slot == s && r.version <= version {
        assert Newest(log, addrs, n, version, s, n - 1);
      } else if SameSlotBetween(log, addrs, 0, n - 1, s) {
        RestoresExtends(log, addrs, n, version, s, before[s]);
      } else if r.slot == s {
        assert AllTooNew(log, addrs, n, version, s, n - 1);
      }
    }
  }

  /** Every touched entry holds what must be restored, and the others what they held. */
  ghost predicate Recovered(index0: Index, log: Log, addrs: seq<nat>, version: nat, index: Index) {
    && AllRecords(log, addrs)
    && forall s {:trigger s in index} ::
         if SameSlotBetween(log, addrs, 0, |addrs|, s) then
           s in index && Restores(log, addrs, |addrs|, version, s, index[s])
         else
           (s in index <==> s in index0) && (s in index0 ==> index[s] == index0[s])
  }

  lemma ReplayRecovers(index: Index, log: Log, addrs: seq<nat>, version: nat, start: nat)
    requires WellFormed(log, addrs, start)
    ensures Recovered(index, log, addrs, version, Replay(index, log, addrs, |addrs|, version, start))
  {
    var after := Replay(index, log, addrs, |addrs|, version, start);
    forall s {:trigger s in after}
      ensures if SameSlotBetween(log, addrs, 0, |addrs|, s) then
                s in after && Restores(log, addrs, |addrs|, version, s, after[s])
              else
                (s in after <==> s in index) && (s in index ==> after[s] == index[s])
    {
      ReplayRestores(index, log, addrs, |addrs|, version, start, s);
    }
  }

  // ---------- What a reader of the recovered index sees ----------

  /** The records met by following previous-addresses from `address` down to `start`. */
  ghost function Chain(log: Log, start: nat, address: nat): seq<nat>
    decreases address
  {
    if address < start || address !in log || log[address].Null? then []
    else [address] + if log[address].previous < address then Chain(log, start, log[address].previous) else []
  }

  /** x is record j's address for some j <= i of slot s. */
  ghost predicate AmongFirst(log: Log, addrs: seq<nat>, i: nat, s: Slot, x: nat)
    requires AllRecords(log, addrs) && i < |addrs|
  {
    exists j :: 0 <= j <= i && log[addrs[j]].slot == s && addrs[j] == x
  }

  lemma AmongNext(log: Log, addrs: seq<nat>, j: nat, i: nat, x: nat)
    requires AllRecords(log, addrs) && j < i < |addrs| && log[addrs[j]].slot == log[addrs[i]].slot
    requires !SameSlotBetween(log, addrs, j + 1, i, log[addrs[i]].slot)
    ensures var s := log[addrs[i]].slot;
            AmongFirst(log, addrs, i, s, x) <==> x == addrs[i] || AmongFirst(log, addrs, j, s, x)
  {
  }

  /** The chain from a record visits exactly its slot's records up to it, and versions only fall. */
  lemma {:induction false} ChainOfRecord(log: Log, addrs: seq<nat>, start: nat, i: nat, x: nat)
    requires WellFormed(log, addrs, start) && i < |addrs|
    ensures x in Chain(log, start, addrs[i]) <==> AmongFirst(log, addrs, i, log[addrs[i]].slot, x)
    ensures x in Chain(log, start, addrs[i]) ==> log[x].version <= log[addrs[i]].version
  {
    var r := log[addrs[i]];
    assert Linked(log, addrs, start, i);
    if SameSlotBetween(log, addrs, 0, i, r.slot) {
      var j :| 0 <= j < i && log[addrs[j]].slot == r.slot && !SameSlotBetween(log, addrs, j + 1, i, r.slot)
               && r.previous == addrs[j] && log[addrs[j]].version <= r.version;
      ChainOfRecord(log, addrs, start, j, x);
      assert Chain(log, start, addrs[i]) == [addrs[i]] + Chain(log, start, addrs[j]);
      AmongNext(log, addrs, j, i, x);
    } else {
      assert Chain(log, start, addrs[i]) == [addrs[i]];
    }
  }

  /**
    Main result: from a recovered entry, the part of the chain inside the replayed region holds
    exactly the slot's records of the checkpointed version or older: none lost, none too new.
  */
  lemma RecoveredChainExact(index: Index, log: Log, addrs: seq<nat>, version: nat, start: nat, s: Slot, x: nat)
    requires WellFormed(log, addrs, start) && SameSlotBetween(log, addrs, 0, |addrs|, s)
    ensures var after := Replay(index, log, addrs, |addrs|, version, start);
            && s in after
            && (x in Chain(log, start, after[s]) <==>
                  exists j :: 0 <= j < |addrs| && addrs[j] == x && log[x].slot == s && log[x].version <= version)
  {
    ReplayRestores(index, log, addrs, |addrs|, version, start, s);
    var a := Replay(index, log, addrs, |addrs|, version, start)[s];
    if i: nat :| Newest(log, addrs, |addrs|, version, s, i) && a == addrs[i] {
      ChainOfRecord(log, addrs, start, i, x);
    } else {
      var i: nat :| AllTooNew(log, addrs, |addrs|, version, s, i) && a == log[addrs[i]].previous;
      assert Linked(log, addrs, start, i);
    }
  }

  // ---------- The recovery loops ----------

  lemma {:induction false} WalkOrdered(log: Log, from: nat, to: nat)
    requires Readable(log, from, to)
    ensures AllRecords(log, Walk(log, from, to))
    ensures forall i :: 0 <= i < |Walk(log, from, to)| ==> from <= Walk(log, from, to)[i] < to
    ensures forall i, j :: 0 <= i < j < |Walk(log, from, to)| ==> Walk(log, from, to)[i] < Walk(log, from, to)[j]
    decreases if from < to then to - from else 0
  {
    if from < to {
      WalkOrdered(log, from + SizeOf(log[from]), to);
    }
  }

  /** Marking records invalid below `from` does not change what a scan from there meets. */
  lemma {:induction false} WalkFrame(log: Log, log': Log, from: nat, to: nat)
    requires Readable(log, from, to)
    requires forall a :: from <= a && a in log ==> a in log' && log'[a] == log[a]
    ensures Readable(log', from, to) && Walk(log', from, to) == Walk(log, from, to)
    decreases if from < to then to - from else 0
  {
    if from < to {
      WalkFrame(log, log', from + SizeOf(log[from]), to);
    }
  }

  ghost predicate SameHistory(log: Log, log': Log, addrs: seq<nat>) {
    && AllRecords(log, addrs) && AllRecords(log', addrs)
    && forall i :: 0 <= i < |addrs| ==>
         log[addrs[i]].slot == log'[addrs[i]].slot && log[addrs[i]].previous == log'[addrs[i]].previous
         && log[addrs[i]].version == log'[addrs[i]].version
  }

  /** Replaying two stretches one after the other is replaying their concatenation. */
  lemma {:induction false} ReplayConcat(
    index: Index, log: Log, log': Log, a: seq<nat>, b: seq<nat>, n: nat, version: nat, start: nat)
    requires AllRecords(log, a + b) && AllRecords(log, a) && SameHistory(log, log', b) && n <= |b|
    ensures Replay(index, log, a + b, |a| + n, version, start)
            == Replay(Replay(index, log, a, |a|, version, start), log', b, n, version, start)
  {
    if n == 0 {
      ReplayPrefix(index, log, a, b, |a|, version, start);
    } else {
      ReplayConcat(index, log, log', a, b, n - 1, version, start);
      assert (a + b)[|a| + n - 1] == b[n - 1];
    }
  }

  lemma {:induction false} ReplayPrefix(
    index: Index, log: Log, a: seq<nat>, b: seq<nat>, n: nat, version: nat, start: nat)
    requires AllRecords(log, a + b) && AllRecords(log, a) && n <= |a|
    ensures Replay(index, log, a + b, n, version, start) == Replay(index, log, a, n, version, start)
  {
    if n > 0 {
      ReplayPrefix(index, log, a, b, n - 1, version, start);
      assert (a + b)[n - 1] == a[n - 1];
    }
  }

  /** The bounds of a page's part of the region [from, to). */
  function PageFrom(page: nat, from: nat, pageSize: nat): nat
    requires pageSize > 0
  {
    if page == from / pageSize then from else page * pageSize
  }

  function PageTo(page: nat, to: nat, pageSize: nat): nat
    requires pageSize > 0
  {
    if page + 1 == EndPage(to, pageSize) then to else page * pageSize + pageSize - 1
  }

  function EndPage(to: nat, pageSize: nat): nat
    requires pageSize > 0
  {
    if to % pageSize > 0 then to / pageSize + 1 else to / pageSize
  }

  ghost predicate PagesReadable(log: Log, from: nat, to: nat, pageSize: nat) {
    pageSize > 0 && forall p :: from / pageSize <= p < EndPage(to, pageSize) ==>
      Readable(log, PageFrom(p, from, pageSize), PageTo(p, to, pageSize))
  }

  /** The valid records met on the pages before `page`, in order. */
  ghost function PagesWalk(log: Log, from: nat, to: nat, pageSize: nat, page: nat): seq<nat>
    requires PagesReadable(log, from, to, pageSize)
    requires from / pageSize <= page <= EndPage(to, pageSize)
    decreases page
  {
    if page == from / pageSize then []
    else PagesWalk(log, from, to, pageSize, page - 1)
         + Walk(log, PageFrom(page - 1, from, pageSize), PageTo(page - 1, to, pageSize))
  }

  ghost predicate Increasing(addrs: seq<nat>, from: nat, to: nat) {
    && (forall i :: 0 <= i < |addrs| ==> from <= addrs[i] < to)
    && (forall i, j :: 0 <= i < j < |addrs| ==> addrs[i] < addrs[j])
  }

  lemma IncreasingConcat(a: seq<nat>, b: seq<nat>, from: nat, mid: nat, to: nat)
    requires Increasing(a, from, mid) && Increasing(b, mid, to) && from <= mid <= to
    ensures Increasing(a + b, from, to)
  {
  }

  lemma IncreasingWider(a: seq<nat>, from: nat, to: nat, from': nat, to': nat)
    requires Increasing(a, from, to) && from' <= from && to <= to'
    ensures Increasing(a, from', to')
  {
  }

  lemma FirstPage(from: nat, pageSize: nat, page: nat)
    requires pageSize > 0 && from / pageSize < page
    ensures from < page * pageSize
  {
    assert from < (from / pageSize + 1) * pageSize;
    assert (from / pageSize + 1) * pageSize <= page * pageSize;
  }

  /** The pages' records come in the order of their addresses, page after page. */
  lemma {:induction false} PagesWalkOrdered(log: Log, from: nat, to: nat, pageSize: nat, page: nat)
    requires PagesReadable(log, from, to, pageSize) && from / pageSize <= page <= EndPage(to, pageSize)
    ensures AllRecords(log, PagesWalk(log, from, to, pageSize, page))
    ensures Increasing(PagesWalk(log, from, to, pageSize, page), from, page * pageSize)
    decreases page
  {
    if page > from / pageSize {
      var done := PagesWalk(log, from, to, pageSize, page - 1);
      var lo, hi := PageFrom(page - 1, from, pageSize), PageTo(page - 1, to, pageSize);
      PagesWalkOrdered(log, from, to, pageSize, page - 1);
      WalkOrdered(log, lo, hi);
      PageToInPage(page - 1, to, pageSize);
      FirstPage(from, pageSize, page);
      IncreasingWider(Walk(log, lo, hi), lo, hi, lo, page * pageSize);
      if page - 1 > from / pageSize {
        FirstPage(from, pageSize, page - 1);
        assert (page - 1) * pageSize <= page * pageSize;
        IncreasingConcat(done, Walk(log, lo, hi), from, lo, page * pageSize);
      }
    }
  }

  /** What a page scan meets is well formed as soon as each record is linked. */
  lemma PagesWellFormed(log: Log, from: nat, to: nat, pageSize: nat)
    requires PagesReadable(log, from, to, pageSize) && from / pageSize <= EndPage(to, pageSize)
    ensures var addrs := PagesWalk(log, from, to, pageSize, EndPage(to, pageSize));
            && AllRecords(log, addrs)
            && ((forall k :: 0 <= k < |addrs| ==> Linked(log, addrs, from, k)) ==> WellFormed(log, addrs, from))
  {
    PagesWalkOrdered(log, from, to, pageSize, EndPage(to, pageSize));
  }

  lemma PageToInPage(page: nat, to: nat, pageSize: nat)
    requires pageSize > 0 && page < EndPage(to, pageSize)
    ensures PageTo(page, to, pageSize) <= (page + 1) * pageSize
  {
    assert to == to / pageSize * pageSize + to % pageSize;
    if page + 1 == EndPage(to, pageSize) && to % pageSize > 0 {
      assert (page + 1) * pageSize == to / pageSize * pageSize + pageSize;
    }
  }

  // ---------- The scan meets every record ----------

  /** No record begins inside another. */
  ghost predicate Disjoint(log: Log) {
    forall a, b :: a in log && b in log && a < b ==> a + SizeOf(log[a]) <= b
  }

  lemma {:induction false} WalkMeets(log: Log, from: nat, to: nat, a: nat)
    requires Readable(log, from, to) && Disjoint(log) && a in log && from <= a < to
    ensures a in Walk(log, from, to) <==> !Skips(log[a])
    decreases if from < to then to - from else 0
  {
    var next := from + SizeOf(log[from]);
    WalkOrdered(log, next, to);
    if a != from {
      WalkMeets(log, next, to, a);
    }
  }

  lemma TimesGrows(x: nat, y: nat, d: nat)
    requires x <= y
    ensures x * d <= y * d
  {
  }

  lemma QuotientsOrdered(x: nat, y: nat, d: nat, a: nat, b: nat)
    requires x * d <= a <= b < y * d + d
    ensures x <= y
  {
    if y < x {
      TimesGrows(y + 1, x, d);
    }
  }

  lemma Division(a: nat, d: nat)
    requires d > 0
    ensures a == a / d * d + a % d && a % d < d
  {
  }

  lemma QuotientGrows(a: nat, b: nat, d: nat)
    requires a <= b && d > 0
    ensures a / d <= b / d
  {
    Division(a, d);
    Division(b, d);
    QuotientsOrdered(a / d, b / d, d, a, b);
  }

  /** Where an address lies: on a page that is scanned, at an offset in it. */
  lemma PlaceOf(a: nat, from: nat, to: nat, pageSize: nat) returns (page: nat, base: nat)
    requires pageSize > 0 && from <= a < to
    ensures page == a / pageSize && base == page * pageSize && a == base + a % pageSize
    ensures from / pageSize <= page <= to / pageSize
    ensures to / pageSize == page ==> to == base + to % pageSize
  {
    page := a / pageSize;
    base := page * pageSize;
    QuotientGrows(from, a, pageSize);
    QuotientGrows(a, to, pageSize);
    Division(a, pageSize);
    Division(to, pageSize);
  }

  /** The page an address lies on is one of those scanned, and the scan of that page covers the address. */
  lemma PageScanned(a: nat, from: nat, to: nat, pageSize: nat) returns (page: nat)
    requires pageSize > 0 && from <= a < to && a % pageSize + 1 < pageSize
    ensures from / pageSize <= page < EndPage(to, pageSize)
    ensures PageFrom(page, from, pageSize) <= a < PageTo(page, to, pageSize)
  {
    var base;
    page, base := PlaceOf(a, from, to, pageSize);
  }

  /** The records of every page scanned are among those replayed. */
  lemma {:induction false} PageReplays(log: Log, from: nat, to: nat, pageSize: nat, page: nat, p: nat, a: nat)
    requires PagesReadable(log, from, to, pageSize) && from / pageSize <= p < page <= EndPage(to, pageSize)
    requires a in Walk(log, PageFrom(p, from, pageSize), PageTo(p, to, pageSize))
    ensures a in PagesWalk(log, from, to, pageSize, page)
    decreases page
  {
    if p + 1 < page {
      PageReplays(log, from, to, pageSize, page - 1, p, a);
    }
  }

  lemma RecordOnPage(log: Log, from: nat, to: nat, pageSize: nat, page: nat, a: nat)
    requires PagesReadable(log, from, to, pageSize) && from / pageSize <= page < EndPage(to, pageSize) && Disjoint(log)
    requires a in log && !Skips(log[a]) && PageFrom(page, from, pageSize) <= a < PageTo(page, to, pageSize)
    ensures a in PagesWalk(log, from, to, pageSize, EndPage(to, pageSize))
  {
    WalkMeets(log, PageFrom(page, from, pageSize), PageTo(page, to, pageSize), a);
    PageReplays(log, from, to, pageSize, EndPage(to, pageSize), page, a);
  }

  /**
    Main result: the pages scanned leave out no record: every valid record that starts in the region, before
    the last byte of its page, is replayed.
  */
  lemma EveryRecordReplayed(log: Log, from: nat, to: nat, pageSize: nat, a: nat)
    requires PagesReadable(log, from, to, pageSize) && from / pageSize <= EndPage(to, pageSize) && Disjoint(log)
    requires a in log && !Skips(log[a]) && from <= a < to && a % pageSize + 1 < pageSize
    ensures a in PagesWalk(log, from, to, pageSize, EndPage(to, pageSize))
  {
    var page := PageScanned(a, from, to, pageSize);
    RecordOnPage(log, from, to, pageSize, page, a);
  }

  lemma {:induction false} InvalidatedPrefix(log: Log, a: seq<nat>, b: seq<nat>, n: nat, version: nat)
    requires AllRecords(log, a + b) && AllRecords(log, a) && n <= |a|
    ensures Invalidated(log, a + b, n, version) == Invalidated(log, a, n, version)
  {
    if n > 0 {
      InvalidatedPrefix(log, a, b, n - 1, version);
      assert (a + b)[n - 1] == a[n - 1];
    }
  }

  /** Log' is the log after stretch a; it agrees with the log on the records of stretch b. */
  lemma {:induction false} InvalidatedConcat(log: Log, log': Log, a: seq<nat>, b: seq<nat>, n: nat, version: nat)
    requires AllRecords(log, a + b) && AllRecords(log, a) && AllRecords(log, b) && AllRecords(log', b) && n <= |b|
    requires log' == Invalidated(log, a, |a|, version)
    requires forall i :: 0 <= i < |b| ==> log'[b[i]] == log[b[i]]
    ensures Invalidated(log, a + b, |a| + n, version) == Invalidated(log', b, n, version)
  {
    if n == 0 {
      InvalidatedPrefix(log, a, b, |a|, version);
    } else {
      InvalidatedConcat(log, log', a, b, n - 1, version);
      assert (a + b)[|a| + n - 1] == b[n - 1];
      assert log'[b[n - 1]] == log[b[n - 1]];
    }
  }

  /** Where a scan of [from, to) stands after n valid records: at `address`, with the rest ahead. */
  ghost predicate ScanAt(log: Log, addrs: seq<nat>, n: nat, address: nat, to: nat) {
    && AllRecords(log, addrs) && n <= |addrs|
    && Readable(log, address, to) && addrs[n..] == Walk(log, address, to)
    && forall i :: 0 <= i < n ==> addrs[i] < address
  }

  predicate Skips(c: Cell) {
    c.Null? || c.invalid
  }

  lemma ScanSkips(log: Log, addrs: seq<nat>, n: nat, address: nat, to: nat)
    requires ScanAt(log, addrs, n, address, to) && address < to && Skips(log[address])
    ensures ScanAt(log, addrs, n, address + SizeOf(log[address]), to)
  {
  }

  lemma ScanMeets(log: Log, addrs: seq<nat>, n: nat, address: nat, to: nat)
    requires ScanAt(log, addrs, n, address, to) && address < to && !Skips(log[address])
    ensures n < |addrs| && addrs[n] == address
    ensures ScanAt(log, addrs, n + 1, address + SizeOf(log[address]), to)
  {
    assert addrs[n..][0] == address;
    assert addrs[n..][1..] == addrs[n + 1..];
  }

  lemma CurrentUntouched(log: Log, addrs: seq<nat>, n: nat, address: nat, to: nat, version: nat)
    requires ScanAt(log, addrs, n, address, to) && address < to
    ensures address in Invalidated(log, addrs, n, version)
    ensures Invalidated(log, addrs, n, version)[address] == log[address]
  {
    InvalidatedExactly(log, addrs, n, version, address);
    assert address !in addrs[..n];
  }

  /** The store after the records at `addrs` of log0 have been replayed over index0. */
  ghost predicate Replayed(
    index0: Index, log0: Log, addrs: seq<nat>, version: nat, start: nat, index: Index, log: Log)
  {
    && AllRecords(log0, addrs)
    && index == Replay(index0, log0, addrs, |addrs|, version, start)
    && log == Invalidated(log0, addrs, |addrs|, version)
  }

  class Store {
    var log: Log
    var index: Index

    constructor (log: Log, index: Index)
      ensures this.log == log && this.index == index
    {
      this.log := log;
      this.index := index;
    }

    /** The body of the scan for one valid record. */
    method RecoverRecord(address: nat, record: Cell, version: nat, start: nat)
      requires record.Record?
      modifies this
      ensures index == ReplayOne(old(index), address, record, version, start)
      ensures log == if record.version > version then old(log)[address := record.(invalid := true)] else old(log)
    {
      index := FindOrCreate(index, record.slot);
      if record.version <= version {
        index := index[record.slot := address];
      } else {
        log := log[address := record.(invalid := true)];
        if record.previous < start {
          index := index[record.slot := record.previous];
        }
      }
    }

    method RecoverFromPage(from: nat, to: nat, version: nat, start: nat)
      requires Readable(log, from, to)
      modifies this
      ensures Replayed(old(index), old(log), Walk(old(log), from, to), version, start, index, log)
    {
      var address := from;
      ghost var log0, index0 := log, index;
      ghost var addrs, n := Walk(log, from, to), 0;
      WalkOrdered(log, from, to);
      assert addrs[n..] == addrs;
      while address < to
        invariant ScanAt(log0, addrs, n, address, to)
        invariant index == Replay(index0, log0, addrs, n, version, start)
        invariant log == Invalidated(log0, addrs, n, version)
        decreases if address < to then to - address else 0
      {
        CurrentUntouched(log0, addrs, n, address, to, version);
        var record := log[address];
        if record.Null? || record.invalid {
          ScanSkips(log0, addrs, n, address, to);
          address := address + SizeOf(record);
          continue;
        }
        ScanMeets(log0, addrs, n, address, to);
        RecoverRecord(address, record, version, start);
        address := address + SizeOf(record);
        n := n + 1;
      }
    }

    /**
      The page loop: each page is replayed from its first record to its last. If each record met
      is linked to its slot's latest earlier one, every entry ends up restored.
    */
    method RecoverHybridLog(from: nat, to: nat, pageSize: nat, version: nat)
      requires PagesReadable(log, from, to, pageSize) && from / pageSize <= EndPage(to, pageSize)
      modifies this
      ensures var addrs := PagesWalk(old(log), from, to, pageSize, EndPage(to, pageSize));
              && Replayed(old(index), old(log), addrs, version, from, index, log)
              && ((forall k :: 0 <= k < |addrs| ==> Linked(old(log), addrs, from, k)) ==>
                    Recovered(old(index), old(log), addrs, version, index))
    {
      var page := from / pageSize;
      ghost var log0, index0 := log, index;
      while page < EndPage(to, pageSize)
        invariant from / pageSize <= page <= EndPage(to, pageSize)
        invariant Replayed(index0, log0, PagesWalk(log0, from, to, pageSize, page), version, from, index, log)
      {
        var lo, hi := PageFrom(page, from, pageSize), PageTo(page, to, pageSize);
        ghost var index1, log1 := index, log;
        PageUntouched(log0, from, to, pageSize, page, version);
        RecoverFromPage(lo, hi, version, from);
        PageReplayed(index0, log0, index1, log1, index, log, from, to, pageSize, page, version);
        page := page + 1;
      }
      PagesRecovered(index0, log0, index, log, from, to, pageSize, version);
    }
  }

  /** Replaying earlier pages leaves the records of this page as they were. */
  lemma PageUntouched(log: Log, from: nat, to: nat, pageSize: nat, page: nat, version: nat)
    requires PagesReadable(log, from, to, pageSize) && from / pageSize <= page < EndPage(to, pageSize)
    ensures var done := PagesWalk(log, from, to, pageSize, page);
            var lo, hi := PageFrom(page, from, pageSize), PageTo(page, to, pageSize);
            && AllRecords(log, done)
            && var log' := Invalidated(log, done, |done|, version);
               var here := Walk(log, lo, hi);
            && Readable(log', lo, hi) && Walk(log', lo, hi) == here
            && AllRecords(log, done + here) && SameHistory(log, log', here)
            && (forall i :: 0 <= i < |here| ==> log'[here[i]] == log[here[i]])
  {
    var done := PagesWalk(log, from, to, pageSize, page);
    var lo, hi := PageFrom(page, from, pageSize), PageTo(page, to, pageSize);
    PagesWalkOrdered(log, from, to, pageSize, page);
    var log' := Invalidated(log, done, |done|, version);
    forall a | lo <= a && a in log
      ensures a in log' && log'[a] == log[a]
    {
      InvalidatedExactly(log, done, |done|, version, a);
      assert done[..|done|] == done;
      assert a !in done;
    }
    WalkFrame(log, log', lo, hi);
    WalkOrdered(log, lo, hi);
  }

  /** One more page. */
  lemma PageReplayed(
    index0: Index, log0: Log, index1: Index, log1: Log, index2: Index, log2: Log,
    from: nat, to: nat, pageSize: nat, page: nat, version: nat)
    requires PagesReadable(log0, from, to, pageSize) && from / pageSize <= page < EndPage(to, pageSize)
    requires Replayed(index0, log0, PagesWalk(log0, from, to, pageSize, page), version, from, index1, log1)
    requires var lo, hi := PageFrom(page, from, pageSize), PageTo(page, to, pageSize);
             && Readable(log1, lo, hi)
             && Replayed(index1, log1, Walk(log1, lo, hi), version, from, index2, log2)
    ensures Replayed(index0, log0, PagesWalk(log0, from, to, pageSize, page + 1), version, from, index2, log2)
  {
    var lo, hi := PageFrom(page, from, pageSize), PageTo(page, to, pageSize);
    var done, here := PagesWalk(log0, from, to, pageSize, page), Walk(log0, lo, hi);
    PageUntouched(log0, from, to, pageSize, page, version);
    ReplayConcat(index0, log0, log1, done, here, |here|, version, from);
    InvalidatedConcat(log0, log1, done, here, |here|, version);
    assert PagesWalk(log0, from, to, pageSize, page + 1) == done + here;
  }

  lemma PagesRecovered(
    index0: Index, log0: Log, index: Index, log: Log, from: nat, to: nat, pageSize: nat, version: nat)
    requires PagesReadable(log0, from, to, pageSize) && from / pageSize <= EndPage(to, pageSize)
    requires var addrs := PagesWalk(log0, from, to, pageSize, EndPage(to, pageSize));
             Replayed(index0, log0, addrs, version, from, index, log)
    ensures var addrs := PagesWalk(log0, from, to, pageSize, EndPage(to, pageSize));
            (forall k :: 0 <= k < |addrs| ==> Linked(log0, addrs, from, k)) ==>
              Recovered(index0, log0, addrs, version, index)
  {
    var addrs := PagesWalk(log0, from, to, pageSize, EndPage(to, pageSize));
    PagesWellFormed(log0, from, to, pageSize);
    if forall k :: 0 <= k < |addrs| ==> Linked(log0, addrs, from, k) {
      ReplayRecovers(index0, log0, addrs, version, from);
    }
  }
}
