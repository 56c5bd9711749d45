/**
  Doubling the whole index: the buckets are split one after the other in whatever order the threads
  took them, and the table that results answers every lookup as the old one did.
*/
module GrowTable {
  import opened GrowIndex
  import GrowChunks

  /** The two new buckets of old bucket b serve its keys, each its own side. */
  ghost predicate BucketDone(
    log: Log, hash: nat -> KeyHash, begin: nat, before: seq<seq<Entry>>, after: seq<seq<Entry>>, b: nat)
    requires Descending(log) && b < |before| && |after| == 2 * |before|
  {
    && ServesSide(log, hash, |before|, begin, before[b], true, after[b])
    && ServesSide(log, hash, |before|, begin, before[b], false, after[|before| + b])
  }

  /** Once all buckets are done, looking a key up in its new bucket is looking it up in its old one. */
  lemma DoneServesKey(
    log: Log, hash: nat -> KeyHash, begin: nat, before: seq<seq<Entry>>, after: seq<seq<Entry>>, key: nat)
    requires Descending(log) && |before| > 0 && |after| == 2 * |before|
    requires forall b :: 0 <= b < |before| ==> BucketDone(log, hash, begin, before, after, b)
    ensures TableLookup(log, begin, after, hash, key) == TableLookup(log, begin, before, hash, key)
  {
    SplitBuckets(hash(key), |before|);
    assert BucketDone(log, hash, begin, before, after, Idx(hash(key), |before|));
  }

  lemma DoneTagsUnique(
    log: Log, hash: nat -> KeyHash, begin: nat, before: seq<seq<Entry>>, after: seq<seq<Entry>>, i: nat)
    requires Descending(log) && |after| == 2 * |before| && i < |after|
    requires forall b :: 0 <= b < |before| ==> BucketDone(log, hash, begin, before, after, b)
    ensures TagsUnique(after[i])
  {
    var b := if i < |before| then i else i - |before|;
    assert BucketDone(log, hash, begin, before, after, b);
  }

  /** A value that occurs once in a sequence has not occurred before its place. */
  lemma NotBefore(xs: seq<nat>, i: nat)
    requires i < |xs| && multiset(xs)[xs[i]] == 1
    ensures xs[i] !in xs[..i]
  {
    assert xs == xs[..i] + [xs[i]] + xs[i + 1..];
    assert multiset(xs) == multiset(xs[..i]) + multiset{xs[i]} + multiset(xs[i + 1..]);
  }

  /** The old table: unique tags in every bucket, and every entry names a record or a truncated address. */
  ghost predicate TableOk(log: Log, begin: nat, before: seq<seq<Entry>>) {
    && Descending(log) && Closed(log, begin) && |before| > 0
    && (forall b :: 0 <= b < |before| ==> TagsUnique(before[b]))
    && forall b, i :: 0 <= b < |before| && 0 <= i < |before[b]| ==> Named(log, begin, before[b][i].address)
  }

  /** One bucket is split into its two new buckets, which must be empty. */
  method SplitInto(
    log: Log, hash: nat -> KeyHash, begin: nat, head: nat, before: seq<seq<Entry>>, after: seq<seq<Entry>>, b: nat)
    returns (after': seq<seq<Entry>>)
    requires TableOk(log, begin, before) && begin <= head && |after| == 2 * |before| && b < |before|
    requires after[b] == [] && after[|before| + b] == []
    ensures |after'| == |after| && BucketDone(log, hash, begin, before, after', b)
    ensures forall i :: 0 <= i < |after| && i != b && i != |before| + b ==> after'[i] == after[i]
  {
    var low, high := SplitBucket(log, hash, |before|, begin, head, before[b]);
    after' := after[b := Flatten(low.buckets)][|before| + b := Flatten(high.buckets)];
  }

  /** Splits the buckets of a sequence in which each occurs once. */
  method SplitInOrder(
    log: Log, hash: nat -> KeyHash, begin: nat, before: seq<seq<Entry>>, order: seq<nat>, heads: seq<nat>)
    returns (after: seq<seq<Entry>>)
    requires TableOk(log, begin, before)
    requires |heads| == |order| && forall i :: 0 <= i < |heads| ==> begin <= heads[i]
    requires forall i :: 0 <= i < |order| ==> order[i] < |before|
    requires forall b: nat :: b < |before| ==> multiset(order)[b] == 1
    ensures |after| == 2 * |before|
    ensures forall b :: 0 <= b < |before| ==> BucketDone(log, hash, begin, before, after, b)
  {
    var n := |before|;
    after := seq(2 * n, i => []);
    for i := 0 to |order|
      invariant |after| == 2 * n
      invariant forall b :: 0 <= b < n && b in order[..i] ==> BucketDone(log, hash, begin, before, after, b)
      invariant forall b :: 0 <= b < n && b !in order[..i] ==> after[b] == [] && after[n + b] == []
    {
      NotBefore(order, i);
      assert order[..i + 1] == order[..i] + [order[i]];
      ghost var was := after;
      after := SplitInto(log, hash, begin, heads[i], before, after, order[i]);
      forall c | 0 <= c < n && c in order[..i + 1]
        ensures BucketDone(log, hash, begin, before, after, c)
      {
        assert c != order[i] ==> BucketDone(log, hash, begin, before, was, c);
      }
    }
    assert order[..|order|] == order;
    forall b | 0 <= b < n
      ensures b in order
    {
      assert multiset(order)[b] == 1;
    }
  }

  /**
    Main result: SplitHashTableBuckets by all threads. `run` is how they took chunks, up to the step
    that freed the old table; each split uses the head address its thread had loaded. Every split
    finds its two new buckets empty, every key is found in the new table exactly as in the old one,
    and tags stay unique.
  */
  method DoubleTable(
    log: Log, hash: nat -> KeyHash, begin: nat, before: seq<seq<Entry>>, order: seq<nat>, heads: seq<nat>,
    ghost run: seq<GrowChunks.State>, ghost steps: seq<nat>)
    returns (after: seq<seq<Entry>>)
    requires TableOk(log, begin, before)
    requires |heads| == |order| && forall i :: 0 <= i < |heads| ==> begin <= heads[i]
    requires GrowChunks.IsRun(run, steps) && run[0].oldSize == |before|
    requires run[|steps|].freed == 1 && run[|steps|].splits == order
    ensures |after| == 2 * |before|
    ensures forall key :: TableLookup(log, begin, after, hash, key) == TableLookup(log, begin, before, hash, key)
    ensures forall i :: 0 <= i < |after| ==> TagsUnique(after[i])
  {
    GrowChunks.SplitsCoverTable(run, steps, |steps|);
    after := SplitInOrder(log, hash, begin, before, order, heads);
    forall key
      ensures TableLookup(log, begin, after, hash, key) == TableLookup(log, begin, before, hash, key)
    {
      DoneServesKey(log, hash, begin, before, after, key);
    }
    forall i | 0 <= i < |after|
      ensures TagsUnique(after[i])
    {
      DoneTagsUnique(log, hash, begin, before, after, i);
    }
  }
}
