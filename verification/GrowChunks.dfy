/**
  How threads share the work of growing the index: each takes chunks of old buckets by
  incrementing one counter, and the thread that finishes the last chunk frees the old table.
*/
module GrowChunks {
  datatype Pc = Claiming | Splitting(chunk: nat, i: nat) | Finished

  /** `done`, `splits` and `freed` are history: chunks completed, buckets split in order, frees. */
  datatype State = State(
    oldSize: nat, chunkSize: nat, numChunks: nat,
    next: nat, pending: nat, threads: seq<Pc>,
    done: set<nat>, splits: seq<nat>, freed: nat)

  function Upper(s: State, chunk: nat): int {
    if chunk + 1 < s.numChunks then s.chunkSize else s.oldSize - chunk * s.chunkSize
  }

  predicate Enabled(s: State, t: nat) {
    t < |s.threads| && !s.threads[t].Finished? && (s.threads[t].Splitting? ==> s.pending > 0)
  }

  function Apply(s: State, t: nat): State
    requires Enabled(s, t)
  {
    match s.threads[t]
    case Claiming =>
      s.(next := s.next + 1,
         threads := s.threads[t := if s.next < s.numChunks then Splitting(s.next, 0) else Finished])
    case Splitting(c, i) =>
      if i < Upper(s, c) then
        s.(splits := s.splits + [c * s.chunkSize + i], threads := s.threads[t := Splitting(c, i + 1)])
      else
        s.(pending := s.pending - 1, done := s.done + {c},
           freed := if s.pending == 1 then s.freed + 1 else s.freed,
           threads := s.threads[t := if s.pending == 1 then Finished else Claiming])
  }

  ghost predicate Init(s: State) {
    && s.oldSize > 0 && s.chunkSize > 0
    && s.numChunks == (if s.oldSize / s.chunkSize > 1 then s.oldSize / s.chunkSize else 1)
    && s.next == 0 && s.pending == s.numChunks
    && (forall t :: 0 <= t < |s.threads| ==> s.threads[t] == Claiming)
    && s.done == {} && s.splits == [] && s.freed == 0
  }

  // ---------- Chunks partition the buckets ----------

  predicate InChunk(s: State, b: nat, c: nat) {
    c < s.numChunks && c * s.chunkSize <= b < c * s.chunkSize + Upper(s, c)
  }

  ghost predicate Sized(s: State) {
    && s.chunkSize > 0 && s.numChunks > 0 && (s.numChunks - 1) * s.chunkSize < s.oldSize
  }

  lemma InitSized(s: State)
    requires Init(s)
    ensures Sized(s)
  {
    var q := s.oldSize / s.chunkSize;
    assert s.oldSize == q * s.chunkSize + s.oldSize % s.chunkSize;
    if q > 1 {
      assert (q - 1) * s.chunkSize == q * s.chunkSize - s.chunkSize;
    }
  }

  lemma ChunkExists(s: State, b: nat) returns (c: nat)
    requires Sized(s) && b < s.oldSize
    ensures InChunk(s, b, c)
  {
    var q := b / s.chunkSize;
    assert b == q * s.chunkSize + b % s.chunkSize;
    if q + 1 < s.numChunks {
      c := q;
    } else {
      c := s.numChunks - 1;
      MulMonotone(c, q, s.chunkSize);
    }
  }

  lemma MulMonotone(a: nat, b: nat, n: nat)
    requires a <= b
    ensures a * n <= b * n
  {
    assert b * n - a * n == (b - a) * n;
  }

  lemma ChunkUnique(s: State, b: nat, c: nat, d: nat)
    requires Sized(s) && InChunk(s, b, c) && InChunk(s, b, d)
    ensures c == d
  {
    if c < d {
      assert (c + 1) * s.chunkSize == c * s.chunkSize + s.chunkSize;
      MulMonotone(c + 1, d, s.chunkSize);
    } else if d < c {
      assert (d + 1) * s.chunkSize == d * s.chunkSize + s.chunkSize;
      MulMonotone(d + 1, c, s.chunkSize);
    }
  }

  // ---------- The invariant ----------

  ghost predicate WorkerOk(s: State, pc: Pc) {
    pc.Splitting? ==> pc.chunk < s.numChunks && pc.chunk < s.next && pc.chunk !in s.done && pc.i <= Upper(s, pc.chunk)
  }

  ghost predicate WorkersApart(s: State) {
    forall t, u :: 0 <= t < |s.threads| && 0 <= u < |s.threads| && t != u
                   && s.threads[t].Splitting? && s.threads[u].Splitting?
      ==> s.threads[t].chunk != s.threads[u].chunk
  }

  ghost predicate CountsOk(s: State) {
    && (forall c :: c in s.done ==> c < s.numChunks && c < s.next)
    && |s.done| + s.pending == s.numChunks
    && s.freed == if s.pending == 0 then 1 else 0
  }

  /** Has bucket b, of chunk c, been split already? */
  ghost predicate IsSplit(s: State, b: nat, c: nat) {
    || c in s.done
    || exists t :: 0 <= t < |s.threads| && Past(s, s.threads[t], b, c)
  }

  predicate Past(s: State, pc: Pc, b: nat, c: nat) {
    pc.Splitting? && pc.chunk == c && b < c * s.chunkSize + pc.i
  }

  ghost predicate BucketOk(s: State, b: nat, c: nat) {
    multiset(s.splits)[b] == if IsSplit(s, b, c) then 1 else 0
  }

  ghost predicate Inv(s: State) {
    && Sized(s)
    && CountsOk(s)
    && (forall t :: 0 <= t < |s.threads| ==> WorkerOk(s, s.threads[t]))
    && WorkersApart(s)
  }

  lemma NoWorkAfterLastChunk(s: State, c: nat)
    requires CountsOk(s) && s.pending == 0 && c < s.numChunks
    ensures c in s.done
  {
    if c !in s.done {
      BoundedSize(s.done + {c}, s.numChunks);
    }
  }

  lemma {:induction false} BoundedSize(a: set<nat>, n: nat)
    requires forall x :: x in a ==> x < n
    ensures |a| <= n
  {
    if a != {} {
      BoundedSize(a - {n - 1}, n - 1);
    }
  }

  /** The guard on a splitting thread always holds: its own chunk is still pending. */
  lemma PendingPositive(s: State, t: nat)
    requires Inv(s) && t < |s.threads| && s.threads[t].Splitting?
    ensures s.pending > 0 && Enabled(s, t)
  {
    assert WorkerOk(s, s.threads[t]);
    BoundedSize(s.done + {s.threads[t].chunk}, s.numChunks);
  }

  lemma InvStep(s: State, t: nat)
    requires Inv(s) && Enabled(s, t)
    ensures Inv(Apply(s, t))
  {
    assert WorkerOk(s, s.threads[t]);
  }

  ghost predicate SplitsInTable(s: State) {
    forall i :: 0 <= i < |s.splits| ==> s.splits[i] < s.oldSize
  }

  lemma ChunkInTable(s: State, c: nat, i: nat)
    requires Sized(s) && c < s.numChunks && i < Upper(s, c)
    ensures c * s.chunkSize + i < s.oldSize
  {
    if c + 1 < s.numChunks {
      assert (c + 1) * s.chunkSize == c * s.chunkSize + s.chunkSize;
      MulMonotone(c + 1, s.numChunks - 1, s.chunkSize);
    }
  }

  lemma SplitsStep(s: State, t: nat)
    requires Inv(s) && Enabled(s, t) && SplitsInTable(s)
    ensures SplitsInTable(Apply(s, t))
  {
    var pc := s.threads[t];
    assert WorkerOk(s, pc);
    if pc.Splitting? && pc.i < Upper(s, pc.chunk) {
      ChunkInTable(s, pc.chunk, pc.i);
    }
  }

  lemma BucketStep(s: State, t: nat, b: nat, c: nat)
    requires Inv(s) && Enabled(s, t) && InChunk(s, b, c) && BucketOk(s, b, c)
    ensures BucketOk(Apply(s, t), b, c)
  {
    var s', pc := Apply(s, t), s.threads[t];
    assert WorkerOk(s, pc);
    assert forall u :: 0 <= u < |s.threads| && u != t ==> s'.threads[u] == s.threads[u];
    if pc.Splitting? && pc.i < Upper(s, pc.chunk) {
      var x := pc.chunk * s.chunkSize + pc.i;
      if x == b {
        ChunkUnique(s, b, c, pc.chunk);
        assert Past(s', s'.threads[t], b, c);
        assert !IsSplit(s, b, c);
      } else {
        assert IsSplit(s, b, c) <==> IsSplit(s', b, c) by {
          forall u | 0 <= u < |s.threads| ensures Past(s, s.threads[u], b, c) <==> Past(s', s'.threads[u], b, c) {}
        }
      }
    } else if pc.Splitting? {
      if pc.chunk == c {
        assert Past(s, pc, b, c);
      }
      assert IsSplit(s, b, c) <==> IsSplit(s', b, c) by {
        forall u | 0 <= u < |s.threads| && u != t
          ensures Past(s, s.threads[u], b, c) <==> Past(s', s'.threads[u], b, c)
        {
        }
      }
    } else {
      forall u | 0 <= u < |s.threads| ensures Past(s, s.threads[u], b, c) <==> Past(s', s'.threads[u], b, c) {}
    }
  }

  // ---------- Runs ----------

  ghost predicate IsRun(run: seq<State>, steps: seq<nat>) {
    && |run| == |steps| + 1
    && Init(run[0])
    && forall i {:trigger steps[i]} ::
         0 <= i < |steps| ==> Enabled(run[i], steps[i]) && run[i + 1] == Apply(run[i], steps[i])
  }

  lemma {:induction false} InvInRun(run: seq<State>, steps: seq<nat>, k: nat)
    requires IsRun(run, steps) && k < |run|
    ensures Inv(run[k]) && run[k].oldSize == run[0].oldSize
    ensures run[k].chunkSize == run[0].chunkSize && run[k].numChunks == run[0].numChunks
  {
    if k == 0 {
      InitSized(run[0]);
    } else {
      InvInRun(run, steps, k - 1);
      InvStep(run[k - 1], steps[k - 1]);
    }
  }

  lemma {:induction false} BucketInRun(run: seq<State>, steps: seq<nat>, k: nat, b: nat, c: nat)
    requires IsRun(run, steps) && k < |run| && InChunk(run[0], b, c)
    ensures BucketOk(run[k], b, c)
  {
    if k > 0 {
      InvInRun(run, steps, k - 1);
      BucketInRun(run, steps, k - 1, b, c);
      BucketStep(run[k - 1], steps[k - 1], b, c);
    }
  }

  /**
    Main result: however threads take chunks, no old bucket is split twice; the old table is freed
    at most once, and by then every one of its buckets has been split and no thread is at work.
  */
  lemma EachBucketSplitOnce(run: seq<State>, steps: seq<nat>, k: nat, b: nat)
    requires IsRun(run, steps) && k < |run| && b < run[0].oldSize
    ensures multiset(run[k].splits)[b] <= 1
    ensures run[k].freed <= 1
    ensures run[k].freed == 1 ==> multiset(run[k].splits)[b] == 1
    ensures run[k].freed == 1 ==> forall t :: 0 <= t < |run[k].threads| ==> !run[k].threads[t].Splitting?
  {
    InvInRun(run, steps, 0);
    InvInRun(run, steps, k);
    var c := ChunkExists(run[0], b);
    BucketInRun(run, steps, k, b, c);
    if run[k].freed == 1 {
      NoWorkAfterLastChunk(run[k], c);
      forall t | 0 <= t < |run[k].threads| ensures !run[k].threads[t].Splitting? {
        if run[k].threads[t].Splitting? {
          NoWorkAfterLastChunk(run[k], run[k].threads[t].chunk);
        }
      }
    }
  }

  lemma {:induction false} SplitsInRun(run: seq<State>, steps: seq<nat>, k: nat)
    requires IsRun(run, steps) && k < |run|
    ensures SplitsInTable(run[k])
  {
    if k > 0 {
      InvInRun(run, steps, k - 1);
      SplitsInRun(run, steps, k - 1);
      SplitsStep(run[k - 1], steps[k - 1]);
    }
  }

  /** The buckets split by the time the old table is freed: all of them, each once, and no others. */
  lemma SplitsCoverTable(run: seq<State>, steps: seq<nat>, k: nat)
    requires IsRun(run, steps) && k < |run| && run[k].freed == 1
    ensures forall i :: 0 <= i < |run[k].splits| ==> run[k].splits[i] < run[0].oldSize
    ensures forall b: nat :: b < run[0].oldSize ==> multiset(run[k].splits)[b] == 1
  {
    InvInRun(run, steps, k);
    SplitsInRun(run, steps, k);
    forall b: nat | b < run[0].oldSize
      ensures multiset(run[k].splits)[b] == 1
    {
      EachBucketSplitOnce(run, steps, k, b);
    }
  }

  /** A thread that holds a chunk can always go on. */
  lemma SplittersGoOn(run: seq<State>, steps: seq<nat>, k: nat, t: nat)
    requires IsRun(run, steps) && k < |run| && t < |run[k].threads| && run[k].threads[t].Splitting?
    ensures run[k].pending > 0 && Enabled(run[k], t)
  {
    InvInRun(run, steps, k);
    PendingPositive(run[k], t);
  }

  // ---------- The work ends with the old table freed ----------

  predicate Holds(s: State, t: nat, c: nat) {
    t < |s.threads| && s.threads[t].Splitting? && s.threads[t].chunk == c
  }

  /** Chunk c is done, or some thread holds it. */
  ghost predicate Taken(s: State, c: nat) {
    c in s.done || exists t :: Holds(s, t, c)
  }

  /** A thread stops only when all chunks are given out, and none that is given out is forgotten. */
  ghost predicate Assigned(s: State) {
    && (forall c :: 0 <= c < s.next && c < s.numChunks ==> Taken(s, c))
    && forall t :: 0 <= t < |s.threads| && s.threads[t].Finished? ==> s.numChunks <= s.next
  }

  lemma TakenStep(s: State, t: nat, s': State, c: nat)
    requires Enabled(s, t) && s' == Apply(s, t) && c < s'.next && c < s.numChunks && (c < s.next ==> Taken(s, c))
    ensures Taken(s', c)
  {
    if c < s.next {
      if c !in s.done {
        var u :| Holds(s, u, c);
        assert c !in s'.done ==> Holds(s', u, c);
      }
    } else {
      assert Holds(s', t, c);
    }
  }

  lemma AssignedStep(s: State, t: nat, s': State)
    requires Inv(s) && Inv(s') && Enabled(s, t) && s' == Apply(s, t) && Assigned(s)
    ensures Assigned(s')
  {
    forall c | 0 <= c < s'.next && c < s'.numChunks
      ensures Taken(s', c)
    {
      TakenStep(s, t, s', c);
    }
    if s'.pending == 0 {
      NoWorkAfterLastChunk(s', s'.numChunks - 1);
    }
  }

  lemma {:induction false} AssignedInRun(run: seq<State>, steps: seq<nat>, k: nat)
    requires IsRun(run, steps) && k < |run|
    ensures Assigned(run[k])
  {
    if k > 0 {
      AssignedInRun(run, steps, k - 1);
      InvInRun(run, steps, k - 1);
      InvInRun(run, steps, k);
      AssignedStep(run[k - 1], steps[k - 1], run[k]);
    }
  }

  lemma {:induction false} FullSize(a: set<nat>, n: nat)
    requires forall x: nat :: x < n ==> x in a
    ensures n <= |a|
  {
    if n > 0 {
      FullSize(a - {n - 1}, n - 1);
    }
  }

  /** Main result: when no thread has any work left, the old table has been freed. */
  lemma WorkEndsFreed(run: seq<State>, steps: seq<nat>, k: nat)
    requires IsRun(run, steps) && k < |run| && |run[k].threads| > 0
    requires forall t :: 0 <= t < |run[k].threads| ==> run[k].threads[t].Finished?
    ensures run[k].freed == 1 && run[k].pending == 0
  {
    var s := run[k];
    InvInRun(run, steps, k);
    AssignedInRun(run, steps, k);
    assert s.threads[0].Finished?;
    forall c: nat | c < s.numChunks
      ensures c in s.done
    {
      assert Taken(s, c);
    }
    FullSize(s.done, s.numChunks);
  }
}
