/**
  Growing the hash index: every bucket chain of the old table is split over two buckets of a
  table twice the size, while the log and its chains of records stay as they are.
*/
module GrowIndex {
  import opened Options

  const INVALID_ADDRESS := 1

  datatype Entry = Entry(address: nat, tag: nat)

  /** A record: the key it holds and the record before it in its chain. */
  datatype Record = Record(key: nat, previous: nat)

  type Log = map<nat, Record>

  /** The hash of a key, split as the source splits its 64 bits. */
  datatype KeyHash = KeyHash(address: nat, tag: nat)

  function Idx(h: KeyHash, size: nat): nat
    requires size > 0
  {
    h.address % size
  }

  /** Chains go strictly down, so following one always ends. */
  ghost predicate Descending(log: Log) {
    forall a :: a in log ==> log[a].previous < a
  }

  /** The newest record of `key` in the chain from `address`, not below `begin`. */
  ghost function Find(log: Log, begin: nat, address: nat, key: nat): Option<nat>
    requires Descending(log)
    decreases address
  {
    if address < begin || address !in log then None
    else if log[address].key == key then Some(address)
    else Find(log, begin, log[address].previous, key)
  }

  /** Does the key belong to the lower half of the doubled table? */
  predicate LowSide(h: KeyHash, oldSize: nat)
    requires oldSize > 0
  {
    Idx(h, 2 * oldSize) < oldSize
  }

  /** The doubled table sends a key to its old bucket, or to that bucket's partner. */
  lemma SplitBuckets(h: KeyHash, oldSize: nat)
    requires oldSize > 0
    ensures Idx(h, 2 * oldSize) == Idx(h, oldSize) + if LowSide(h, oldSize) then 0 else oldSize
  {
    SplitMod(h.address, oldSize, 2 * oldSize);
  }

  lemma SplitMod(a: nat, n: nat, m: nat)
    requires n > 0 && m == 2 * n
    ensures a % m == a % n + if a % m < n then 0 else n
  {
    var q, r, p := Divide(a, m);
    HalfMod(a, n, m, q, r, p);
  }

  lemma Divide(a: nat, m: nat) returns (q: nat, r: nat, p: nat)
    requires m > 0
    ensures p == q * m && a == p + r && r == a % m && r < m
  {
    q, r := a / m, a % m;
    p := q * m;
  }

  lemma HalfMod(a: nat, n: nat, m: nat, q: nat, r: nat, p: nat)
    requires n > 0 && m == 2 * n && p == q * m && a == p + r && r < m
    ensures a % n == if r < n then r else r - n
  {
    assert p == 2 * (q * n) && (2 * q) * n == p && (2 * q + 1) * n == p + n;
    if r < n {
      DivModUnique(a, n, 2 * q, r);
    } else {
      DivModUnique(a, n, 2 * q + 1, r - n);
    }
  }

  lemma DivModUnique(a: nat, n: nat, q: nat, r: nat)
    requires n > 0 && a == q * n + r && r < n
    ensures a % n == r
  {
    var q', r' := a / n, a % n;
    assert a == q' * n + r' && 0 <= r' < n;
    if q < q' {
      assert (q' - q) * n == q' * n - q * n;
      MultipleIsBig(q' - q, n);
    } else if q' < q {
      assert (q - q') * n == q * n - q' * n;
      MultipleIsBig(q - q', n);
    }
  }

  lemma MultipleIsBig(k: nat, n: nat)
    requires k > 0
    ensures k * n >= n
  {
    assert k * n == (k - 1) * n + n;
  }

  // ---------- Splitting one entry ----------

  /** Every address at or above `begin` that a chain or an entry names is in the log. */
  ghost predicate Closed(log: Log, begin: nat) {
    forall a :: a in log && begin <= log[a].previous ==> log[a].previous in log
  }

  ghost predicate Named(log: Log, begin: nat, address: nat) {
    begin <= address ==> address in log
  }

  /** The first address of the chain that is below `min` or holds a key of the other side. */
  method TraceBackForOtherChainStart(
    log: Log, hash: nat -> KeyHash, oldSize: nat, begin: nat, fromAddress: nat, min: nat, low: bool)
    returns (address: nat)
    requires oldSize > 0 && Descending(log) && Closed(log, begin) && begin <= min && Named(log, begin, fromAddress)
    ensures Named(log, begin, address)
    ensures min <= address ==> LowSide(hash(log[address].key), oldSize) != low
    ensures forall key :: LowSide(hash(key), oldSize) != low ==>
              Find(log, begin, fromAddress, key) == Find(log, begin, address, key)
  {
    address := fromAddress;
    while address >= min
      invariant Named(log, begin, address)
      invariant forall key :: LowSide(hash(key), oldSize) != low ==>
                  Find(log, begin, fromAddress, key) == Find(log, begin, address, key)
      decreases address
    {
      var record := log[address];
      if LowSide(hash(record.key), oldSize) != low {
        return;
      }
      address := record.previous;
    }
  }

  // ---------- Bucket chains ----------

  const ENTRIES_PER_BUCKET := 7

  /** All entries of a chain of buckets, in the order a search reads them. */
  function Flatten(buckets: seq<seq<Entry>>): seq<Entry> {
    if buckets == [] then [] else Flatten(buckets[..|buckets| - 1]) + buckets[|buckets| - 1]
  }

  /** A new bucket chain being filled: `next` is the first free slot of its last bucket. */
  class ChainWriter {
    var buckets: seq<seq<Entry>>
    var next: nat

    ghost predicate Valid()
      reads this
    {
      && |buckets| > 0 && |buckets[|buckets| - 1]| == next <= ENTRIES_PER_BUCKET
      && forall i :: 0 <= i < |buckets| - 1 ==> |buckets[i]| == ENTRIES_PER_BUCKET
    }

    constructor ()
      ensures Valid() && Flatten(buckets) == []
    {
      buckets := [[]];
      next := 0;
    }

    method AddHashEntry(e: Entry)
      requires Valid()
      modifies this
      ensures Valid() && Flatten(buckets) == old(Flatten(buckets)) + [e]
    {
      if next == ENTRIES_PER_BUCKET {
        assert (buckets + [[]])[..|buckets|] == buckets;
        buckets := buckets + [[]];
        next := 0;
      }
      ghost var before := buckets;
      var last := |buckets| - 1;
      buckets := buckets[last := buckets[last] + [e]];
      assert buckets[..last] == before[..last];
      next := next + 1;
    }
  }

  /** The first entry of the tag, as a search of the chain finds it. */
  function EntryWith(entries: seq<Entry>, tag: nat): Option<Entry> {
    if entries == [] then None
    else
      var last := |entries| - 1;
      var earlier := EntryWith(entries[..last], tag);
      if earlier.Some? then earlier else if entries[last].tag == tag then Some(entries[last]) else None
  }

  /** What looking up `key` through a bucket chain finds. */
  ghost function Lookup(log: Log, begin: nat, entries: seq<Entry>, tag: nat, key: nat): Option<nat>
    requires Descending(log)
  {
    var e := EntryWith(entries, tag);
    if e.None? then None else Find(log, begin, e.value.address, key)
  }

  ghost predicate TagsUnique(entries: seq<Entry>) {
    forall i, j :: 0 <= i < j < |entries| ==> entries[i].tag != entries[j].tag
  }

  lemma {:induction false} EntryWithAbsent(entries: seq<Entry>, tag: nat)
    ensures EntryWith(entries, tag).None? <==> forall i :: 0 <= i < |entries| ==> entries[i].tag != tag
    ensures EntryWith(entries, tag).Some? ==>
              EntryWith(entries, tag).value in entries && EntryWith(entries, tag).value.tag == tag
  {
    if entries != [] {
      EntryWithAbsent(entries[..|entries| - 1], tag);
    }
  }

  lemma EntryWithSnoc(entries: seq<Entry>, e: Entry, tag: nat)
    ensures EntryWith(entries + [e], tag)
            == if EntryWith(entries, tag).Some? then EntryWith(entries, tag) else if e.tag == tag then Some(e) else None
  {
    assert (entries + [e])[..|entries|] == entries;
  }

  /** The part of a new bucket that serves the keys of one side as the old entries do. */
  ghost predicate ServesSide(
    log: Log, hash: nat -> KeyHash, oldSize: nat, begin: nat, entries: seq<Entry>, low: bool, half: seq<Entry>)
    requires oldSize > 0 && Descending(log)
  {
    && TagsUnique(half)
    && (forall i :: 0 <= i < |half| ==> EntryWith(entries, half[i].tag).Some?)
    && (forall key, tag :: LowSide(hash(key), oldSize) == low ==>
          Lookup(log, begin, half, tag, key) == Lookup(log, begin, entries, tag, key))
  }

  /** What an old entry becomes on one side: nothing, or an entry that finds the same records. */
  ghost predicate ServesEntry(
    log: Log, hash: nat -> KeyHash, oldSize: nat, begin: nat, e: Entry, low: bool, out: Option<Entry>)
    requires oldSize > 0 && Descending(log)
  {
    && (out.Some? ==> out.value.tag == e.tag)
    && (forall key :: LowSide(hash(key), oldSize) == low ==>
          Find(log, begin, e.address, key)
          == if out.Some? then Find(log, begin, out.value.address, key) else Option<nat>.None)
  }

  function Extend(half: seq<Entry>, out: Option<Entry>): seq<Entry> {
    if out.Some? then half + [out.value] else half
  }

  lemma ServesSnoc(log: Log, hash: nat -> KeyHash, oldSize: nat, begin: nat,
                   entries: seq<Entry>, e: Entry, low: bool, half: seq<Entry>, out: Option<Entry>)
    requires oldSize > 0 && Descending(log)
    requires ServesSide(log, hash, oldSize, begin, entries, low, half)
    requires ServesEntry(log, hash, oldSize, begin, e, low, out)
    requires EntryWith(entries, e.tag).None?
    ensures ServesSide(log, hash, oldSize, begin, entries + [e], low, Extend(half, out))
  {
    var half' := Extend(half, out);
    EntryWithAbsent(half, e.tag);
    forall tag: nat ensures EntryWith(entries + [e], tag)
              == if EntryWith(entries, tag).Some? then EntryWith(entries, tag)
                 else if e.tag == tag then Some(e) else None {
      EntryWithSnoc(entries, e, tag);
    }
    forall key, tag | LowSide(hash(key), oldSize) == low
      ensures Lookup(log, begin, half', tag, key) == Lookup(log, begin, entries + [e], tag, key)
    {
      assert Lookup(log, begin, half, tag, key) == Lookup(log, begin, entries, tag, key);
      if out.Some? {
        EntryWithSnoc(half, out.value, tag);
      }
      EntryWithAbsent(half, tag);
    }
  }

  /** The entry moved to the side its record is not on: where that side's part of the chain starts. */
  lemma ServesOtherSide(log: Log, hash: nat -> KeyHash, oldSize: nat, begin: nat, e: Entry, other: nat)
    requires oldSize > 0 && Descending(log) && begin <= e.address && e.address in log
    requires var low := LowSide(hash(log[e.address].key), oldSize);
             forall key :: LowSide(hash(key), oldSize) != low ==>
               Find(log, begin, log[e.address].previous, key) == Find(log, begin, other, key)
    ensures ServesEntry(log, hash, oldSize, begin, e, !LowSide(hash(log[e.address].key), oldSize),
                        if other >= begin then Some(Entry(other, e.tag)) else None)
  {
  }

  /** Splits one old bucket chain into the two new ones. */
  method SplitBucket(log: Log, hash: nat -> KeyHash, oldSize: nat, begin: nat, head: nat, entries: seq<Entry>)
    returns (low: ChainWriter, high: ChainWriter)
    requires oldSize > 0 && Descending(log) && Closed(log, begin) && begin <= head
    requires TagsUnique(entries) && forall i :: 0 <= i < |entries| ==> Named(log, begin, entries[i].address)
    ensures fresh(low) && fresh(high) && low.Valid() && high.Valid()
    ensures ServesSide(log, hash, oldSize, begin, entries, true, Flatten(low.buckets))
    ensures ServesSide(log, hash, oldSize, begin, entries, false, Flatten(high.buckets))
  {
    low := new ChainWriter();
    high := new ChainWriter();
    for i := 0 to |entries|
      invariant fresh(low) && fresh(high) && low != high && low.Valid() && high.Valid()
      invariant ServesSide(log, hash, oldSize, begin, entries[..i], true, Flatten(low.buckets))
      invariant ServesSide(log, hash, oldSize, begin, entries[..i], false, Flatten(high.buckets))
    {
      var e := entries[i];
      ghost var lowBefore, highBefore := Flatten(low.buckets), Flatten(high.buckets);
      ghost var lowOut, highOut: Option<Entry> := Some(e), Some(e);
      if e.address < head {
        // Which side the chain belongs to cannot be told from memory: both sides keep it.
        low.AddHashEntry(e);
        high.AddHashEntry(e);
      } else {
        var record := log[e.address];
        if LowSide(hash(record.key), oldSize) {
          low.AddHashEntry(e);
          var other := TraceBackForOtherChainStart(log, hash, oldSize, begin, record.previous, head, true);
          ServesOtherSide(log, hash, oldSize, begin, e, other);
          highOut := None;
          if other >= begin {
            highOut := Some(Entry(other, e.tag));
            high.AddHashEntry(Entry(other, e.tag));
          }
        } else {
          high.AddHashEntry(e);
          var other := TraceBackForOtherChainStart(log, hash, oldSize, begin, record.previous, head, false);
          ServesOtherSide(log, hash, oldSize, begin, e, other);
          lowOut := None;
          if other >= begin {
            lowOut := Some(Entry(other, e.tag));
            low.AddHashEntry(Entry(other, e.tag));
          }
        }
      }
      EntryWithAbsent(entries[..i], e.tag);
      ServesSnoc(log, hash, oldSize, begin, entries[..i], e, true, lowBefore, lowOut);
      ServesSnoc(log, hash, oldSize, begin, entries[..i], e, false, highBefore, highOut);
      assert entries[..i + 1] == entries[..i] + [e];
    }
    assert entries[..|entries|] == entries;
  }

  // ---------- The whole table ----------

  /** A table of bucket chains; a search for a key reads the bucket its hash selects. */
  ghost function TableLookup(log: Log, begin: nat, table: seq<seq<Entry>>, hash: nat -> KeyHash, key: nat): Option<nat>
    requires |table| > 0 && Descending(log)
  {
    Lookup(log, begin, table[Idx(hash(key), |table|)], hash(key).tag, key)
  }
}
