/**
  The latch-free hash index of FASTER: one bucket chain, edited by any number of
  threads that run FindOrCreateEntry, install records and collect garbage.

  Every atomic load, store and compare-and-swap of the source is one step here, so a
  thread's scan of the chain interleaves with every other thread's edits.
*/
module HashIndex {
  import opened Options

  const ENTRIES_PER_BUCKET := 7
  const INVALID_ADDRESS := 1

  /** A hash bucket entry; the all-zero entry is an unused slot. */
  datatype Entry = Entry(address: nat, tag: nat, tentative: bool)

  const UNUSED := Entry(0, 0, false)

  type Bucket = b: seq<Entry> | |b| == ENTRIES_PER_BUCKET
    witness [UNUSED, UNUSED, UNUSED, UNUSED, UNUSED, UNUSED, UNUSED]

  const FRESH_BUCKET: Bucket := [UNUSED, UNUSED, UNUSED, UNUSED, UNUSED, UNUSED, UNUSED]

  /** A place in the chain. As a cursor, index ENTRIES_PER_BUCKET is the overflow pointer. */
  datatype Slot = Slot(bucket: nat, index: nat)

  /** Where a thread stands inside FindOrCreateEntry, its caller, or the collector. */
  datatype Pc =
    | Idle
    | Finding(tag: nat, cursor: Slot, free: Option<Slot>)
    | Growing(tag: nat, last: nat)
    | Claiming(tag: nat, slot: Slot)
    | Checking(tag: nat, slot: Slot, cursor: Slot)
    | BackingOff(tag: nat, slot: Slot)
    | Committing(tag: nat, slot: Slot)
    | Holding(tag: nat, held: Slot, expected: Entry)
    | Collecting(held: Slot, expected: Entry)

  datatype State = State(chain: seq<Bucket>, threads: map<nat, Pc>)

  datatype Step =
    | StartFind(t: nat, tag: nat)
    | LoadFind(t: nat)
    | LinkFind(t: nat)
    | Grow(t: nat)
    | Claim(t: nat)
    | LoadCheck(t: nat)
    | LinkCheck(t: nat)
    | BackOff(t: nat)
    | Commit(t: nat)
    | Install(t: nat, address: nat)
    | Return(t: nat)
    | GcLoad(t: nat, slot: Slot, begin: nat)
    | GcRemove(t: nat)

  predicate InChain(s: State, p: Slot) {
    p.bucket < |s.chain| && p.index < ENTRIES_PER_BUCKET
  }

  function At(s: State, p: Slot): Entry
    requires InChain(s, p)
  {
    s.chain[p.bucket][p.index]
  }

  function Put(s: State, p: Slot, e: Entry): State
    requires InChain(s, p)
  {
    s.(chain := s.chain[p.bucket := s.chain[p.bucket][p.index := e]])
  }

  function Goto(s: State, t: nat, pc: Pc): State {
    s.(threads := s.threads[t := pc])
  }

  function Advance(p: Slot): Slot {
    Slot(p.bucket, p.index + 1)
  }

  predicate Enabled(s: State, step: Step) {
    step.t in s.threads &&
    var pc := s.threads[step.t];
    match step
    case StartFind(_, _) => pc.Idle?
    case LoadFind(_) => pc.Finding? && InChain(s, pc.cursor)
    case LinkFind(_) => pc.Finding? && pc.cursor.index == ENTRIES_PER_BUCKET
    case Grow(_) => pc.Growing?
    case Claim(_) => pc.Claiming? && InChain(s, pc.slot)
    case LoadCheck(_) => pc.Checking? && InChain(s, pc.cursor)
    case LinkCheck(_) => pc.Checking? && pc.cursor.index == ENTRIES_PER_BUCKET
    case BackOff(_) => pc.BackingOff? && InChain(s, pc.slot)
    case Commit(_) => pc.Committing? && InChain(s, pc.slot)
    case Install(_, address) => pc.Holding? && InChain(s, pc.held) && address > INVALID_ADDRESS
    case Return(_) => pc.Holding?
    case GcLoad(_, slot, _) => pc.Idle? && InChain(s, slot)
    case GcRemove(_) => pc.Collecting? && InChain(s, pc.held)
  }

  function Apply(s: State, step: Step): State
    requires Enabled(s, step)
  {
    var t := step.t;
    var pc := s.threads[t];
    match step
    case StartFind(_, tag) => Goto(s, t, Finding(tag, Slot(0, 0), None))
    case LoadFind(_) =>
      var e := At(s, pc.cursor);
      if e == UNUSED then
        Goto(s, t, Finding(pc.tag, Advance(pc.cursor), if pc.free.None? then Some(pc.cursor) else pc.free))
      else if e.tag == pc.tag && !e.tentative then
        Goto(s, t, Holding(pc.tag, pc.cursor, e))
      else
        Goto(s, t, Finding(pc.tag, Advance(pc.cursor), pc.free))
    case LinkFind(_) =>
      if pc.cursor.bucket + 1 < |s.chain| then
        Goto(s, t, Finding(pc.tag, Slot(pc.cursor.bucket + 1, 0), pc.free))
      else if pc.free.Some? then
        Goto(s, t, Claiming(pc.tag, pc.free.value))
      else
        Goto(s, t, Growing(pc.tag, pc.cursor.bucket))
    case Grow(_) =>
      // Compare-and-swap of the last overflow pointer; the loser walks the winner's bucket.
      if pc.last + 1 == |s.chain| then
        Goto(s.(chain := s.chain + [FRESH_BUCKET]), t, Claiming(pc.tag, Slot(pc.last + 1, 0)))
      else
        Goto(s, t, Finding(pc.tag, Slot(pc.last + 1, 0), None))
    case Claim(_) =>
      if At(s, pc.slot) == UNUSED then
        Goto(Put(s, pc.slot, Entry(INVALID_ADDRESS, pc.tag, true)), t, Checking(pc.tag, pc.slot, Slot(0, 0)))
      else
        Goto(s, t, Finding(pc.tag, Slot(0, 0), None))
    case LoadCheck(_) =>
      var e := At(s, pc.cursor);
      if e != UNUSED && e.tag == pc.tag && pc.cursor != pc.slot then
        Goto(s, t, BackingOff(pc.tag, pc.slot))
      else
        Goto(s, t, Checking(pc.tag, pc.slot, Advance(pc.cursor)))
    case LinkCheck(_) =>
      if pc.cursor.bucket + 1 < |s.chain| then
        Goto(s, t, Checking(pc.tag, pc.slot, Slot(pc.cursor.bucket + 1, 0)))
      else
        Goto(s, t, Committing(pc.tag, pc.slot))
    case BackOff(_) => Goto(Put(s, pc.slot, UNUSED), t, Finding(pc.tag, Slot(0, 0), None))
    case Commit(_) =>
      var e := Entry(INVALID_ADDRESS, pc.tag, false);
      Goto(Put(s, pc.slot, e), t, Holding(pc.tag, pc.slot, e))
    case Install(_, address) =>
      if At(s, pc.held) == pc.expected then
        Goto(Put(s, pc.held, Entry(address, pc.tag, false)), t, Idle)
      else
        Goto(s, t, Idle)
    case Return(_) => Goto(s, t, Idle)
    case GcLoad(_, slot, begin) =>
      var e := At(s, slot);
      if e != UNUSED && e.address != INVALID_ADDRESS && e.address < begin then
        Goto(s, t, Collecting(slot, e))
      else
        s
    case GcRemove(_) =>
      if At(s, pc.held) == pc.expected then Goto(Put(s, pc.held, UNUSED), t, Idle) else Goto(s, t, Idle)
  }

  // ---------- What a bucket chain must never hold ----------

  predicate Final(e: Entry) {
    e != UNUSED && !e.tentative
  }

  /** No two non-tentative entries of the chain carry the same tag. */
  ghost predicate TagsUnique(s: State) {
    forall p, q :: InChain(s, p) && InChain(s, q) && Final(At(s, p)) && Final(At(s, q)) && At(s, p).tag == At(s, q).tag
      ==> p == q
  }

  // ---------- The invariant ----------

  /** The thread's tentative entry is in the chain. */
  predicate Owns(pc: Pc) {
    pc.Checking? || pc.BackingOff? || pc.Committing?
  }

  /** The thread's conflict scan has gone past slot p; a thread about to commit has passed all. */
  predicate Passed(pc: Pc, p: Slot) {
    || pc.Committing?
    || (pc.Checking? &&
        (p.bucket < pc.cursor.bucket || (p.bucket == pc.cursor.bucket && p.index < pc.cursor.index)))
  }

  ghost predicate PcOk(s: State, pc: Pc) {
    match pc
    case Idle => true
    case Finding(_, cursor, free) =>
      && cursor.bucket < |s.chain| && cursor.index <= ENTRIES_PER_BUCKET
      && (free.Some? ==> InChain(s, free.value))
    case Growing(_, last) => last < |s.chain|
    case Claiming(_, slot) => InChain(s, slot)
    case Checking(tag, slot, cursor) =>
      && InChain(s, slot) && At(s, slot) == Entry(INVALID_ADDRESS, tag, true)
      && cursor.bucket < |s.chain| && cursor.index <= ENTRIES_PER_BUCKET
    case BackingOff(tag, slot) => InChain(s, slot) && At(s, slot) == Entry(INVALID_ADDRESS, tag, true)
    case Committing(tag, slot) => InChain(s, slot) && At(s, slot) == Entry(INVALID_ADDRESS, tag, true)
    case Holding(tag, held, expected) => InChain(s, held) && Final(expected) && expected.tag == tag
    case Collecting(held, expected) => InChain(s, held) && Final(expected)
  }

  ghost predicate TentativeIsAddressless(s: State) {
    forall p :: InChain(s, p) && At(s, p).tentative ==> At(s, p).address == INVALID_ADDRESS
  }

  ghost predicate PcsOk(s: State) {
    forall t :: t in s.threads ==> PcOk(s, s.threads[t])
  }

  ghost predicate OwnersApart(s: State) {
    forall t, u :: t in s.threads && u in s.threads && t != u && Owns(s.threads[t]) && Owns(s.threads[u])
      ==> s.threads[t].slot != s.threads[u].slot
  }

  /** Of two threads racing for one tag, at most one can have scanned past the other's slot. */
  ghost predicate RacersSeeEachOther(s: State) {
    forall t, u :: t in s.threads && u in s.threads && t != u && Owns(s.threads[t]) && Owns(s.threads[u])
                   && s.threads[t].tag == s.threads[u].tag
      ==> !(Passed(s.threads[t], s.threads[u].slot) && Passed(s.threads[u], s.threads[t].slot))
  }

  /** A racer has not scanned past any slot that now holds its tag for good. */
  ghost predicate FinalAhead(s: State) {
    forall t, p :: t in s.threads && Owns(s.threads[t]) && InChain(s, p) && Final(At(s, p))
                   && At(s, p).tag == s.threads[t].tag
      ==> !Passed(s.threads[t], p)
  }

  ghost predicate Inv(s: State) {
    && |s.chain| > 0
    && PcsOk(s)
    && TentativeIsAddressless(s)
    && OwnersApart(s)
    && RacersSeeEachOther(s)
    && FinalAhead(s)
    && TagsUnique(s)
  }

  ghost predicate Init(s: State) {
    && |s.chain| > 0
    && (forall t :: t in s.threads ==> s.threads[t].Idle?)
    && (forall p :: InChain(s, p) ==> !At(s, p).tentative)
    && TagsUnique(s)
  }

  /** The slot, if any, whose content the step may change. */
  ghost predicate Edits(s: State, step: Step, q: Slot)
    requires Enabled(s, step)
  {
    var pc := s.threads[step.t];
    || (step.Claim? && q == pc.slot && At(s, q) == UNUSED)
    || ((step.BackOff? || step.Commit?) && q == pc.slot)
    || ((step.Install? || step.GcRemove?) && q == pc.held && At(s, q) == pc.expected)
  }

  /** A step leaves every other slot alone, and the slots it adds are unused. */
  lemma StepFrame(s: State, step: Step)
    requires PcsOk(s) && Enabled(s, step)
    ensures forall q :: InChain(s, q) ==> InChain(Apply(s, step), q)
    ensures forall q :: InChain(s, q) && !Edits(s, step, q) ==> At(Apply(s, step), q) == At(s, q)
    ensures forall q :: InChain(Apply(s, step), q) && !InChain(s, q) ==> At(Apply(s, step), q) == UNUSED
  {
  }

  lemma OtherPcStep(s: State, step: Step, u: nat)
    requires PcsOk(s) && Enabled(s, step) && u in s.threads && u != step.t
    requires Owns(s.threads[u]) ==> !(Owns(s.threads[step.t]) && s.threads[step.t].slot == s.threads[u].slot)
    ensures PcOk(Apply(s, step), s.threads[u])
  {
    assert PcOk(s, s.threads[u]) && PcOk(s, s.threads[step.t]);
    StepFrame(s, step);
  }

  lemma OwnPcStep(s: State, step: Step)
    requires |s.chain| > 0 && PcsOk(s) && TentativeIsAddressless(s) && Enabled(s, step)
    ensures PcOk(Apply(s, step), Apply(s, step).threads[step.t])
  {
    assert PcOk(s, s.threads[step.t]);
  }

  lemma PcsStep(s: State, step: Step)
    requires Inv(s) && Enabled(s, step)
    ensures PcsOk(Apply(s, step))
  {
    OwnPcStep(s, step);
    forall u | u in s.threads && u != step.t ensures PcOk(Apply(s, step), s.threads[u]) {
      OtherPcStep(s, step, u);
    }
  }

  lemma TentativeStep(s: State, step: Step)
    requires Inv(s) && Enabled(s, step)
    ensures TentativeIsAddressless(Apply(s, step))
  {
    StepFrame(s, step);
  }

  lemma RacersStep(s: State, step: Step, u: nat)
    requires Inv(s) && Enabled(s, step) && u in s.threads && u != step.t
    requires Owns(Apply(s, step).threads[step.t]) && Owns(s.threads[u])
    ensures var pc := Apply(s, step).threads[step.t];
            && pc.slot != s.threads[u].slot
            && (pc.tag == s.threads[u].tag ==> !(Passed(pc, s.threads[u].slot) && Passed(s.threads[u], pc.slot)))
  {
    assert PcOk(s, s.threads[u]) && PcOk(s, s.threads[step.t]);
  }

  /** Pairs that do not involve the moving thread keep their relation. */
  lemma RacersFrame(s: State, s': State, t: nat)
    requires OwnersApart(s) && RacersSeeEachOther(s)
    requires t in s.threads && t in s'.threads && s'.threads == s.threads[t := s'.threads[t]]
    requires forall u :: u in s.threads && u != t && Owns(s'.threads[t]) && Owns(s.threads[u]) ==>
               && s'.threads[t].slot != s.threads[u].slot
               && (s'.threads[t].tag == s.threads[u].tag ==>
                     !(Passed(s'.threads[t], s.threads[u].slot) && Passed(s.threads[u], s'.threads[t].slot)))
    ensures OwnersApart(s') && RacersSeeEachOther(s')
  {
  }

  lemma AllRacersStep(s: State, step: Step)
    requires Inv(s) && Enabled(s, step)
    ensures OwnersApart(Apply(s, step)) && RacersSeeEachOther(Apply(s, step))
  {
    var s' := Apply(s, step);
    forall u | u in s.threads && u != step.t && Owns(s'.threads[step.t]) && Owns(s.threads[u])
      ensures s'.threads[step.t].slot != s.threads[u].slot
      ensures s'.threads[step.t].tag == s.threads[u].tag ==>
                !(Passed(s'.threads[step.t], s.threads[u].slot) && Passed(s.threads[u], s'.threads[step.t].slot))
    {
      RacersStep(s, step, u);
    }
    RacersFrame(s, s', step.t);
  }

  lemma FinalAheadOf(s: State, step: Step, s': State, t: nat, p: Slot)
    requires Inv(s) && Enabled(s, step) && s' == Apply(s, step)
    requires t in s'.threads && Owns(s'.threads[t]) && InChain(s', p) && Final(At(s', p))
    requires At(s', p).tag == s'.threads[t].tag
    ensures !Passed(s'.threads[t], p)
  {
    StepFrame(s, step);
    assert PcOk(s, s.threads[step.t]) && PcOk(s, s.threads[t]);
  }

  lemma FinalStep(s: State, step: Step)
    requires Inv(s) && Enabled(s, step)
    ensures FinalAhead(Apply(s, step))
  {
    var s' := Apply(s, step);
    forall t, p | t in s'.threads && Owns(s'.threads[t]) && InChain(s', p) && Final(At(s', p))
                  && At(s', p).tag == s'.threads[t].tag
      ensures !Passed(s'.threads[t], p)
    {
      FinalAheadOf(s, step, s', t, p);
    }
  }

  lemma UniqueStep(s: State, step: Step)
    requires Inv(s) && Enabled(s, step)
    ensures TagsUnique(Apply(s, step))
  {
    StepFrame(s, step);
  }

  lemma InvStep(s: State, step: Step)
    requires Inv(s) && Enabled(s, step)
    ensures Inv(Apply(s, step))
  {
    PcsStep(s, step);
    TentativeStep(s, step);
    AllRacersStep(s, step);
    FinalStep(s, step);
    UniqueStep(s, step);
  }

  // ---------- Runs ----------

  ghost predicate IsRun(run: seq<State>, steps: seq<Step>) {
    && |run| == |steps| + 1
    && Init(run[0])
    && forall i {:trigger steps[i]} ::
         0 <= i < |steps| ==> Enabled(run[i], steps[i]) && run[i + 1] == Apply(run[i], steps[i])
  }

  lemma {:induction false} InvInRun(run: seq<State>, steps: seq<Step>, k: nat)
    requires IsRun(run, steps) && k < |run|
    ensures Inv(run[k])
  {
    if k > 0 {
      InvInRun(run, steps, k - 1);
      InvStep(run[k - 1], steps[k - 1]);
    }
  }

  /** Main result: in every interleaving, no state of the run holds two final entries of one tag. */
  lemma TagsUniqueInEveryRun(run: seq<State>, steps: seq<Step>)
    requires IsRun(run, steps)
    ensures forall k :: 0 <= k < |run| ==> TagsUnique(run[k])
  {
    forall k | 0 <= k < |run| ensures TagsUnique(run[k]) {
      InvInRun(run, steps, k);
    }
  }

  /**
    Two callers of FindOrCreateEntry that were given entries for the same tag, and whose
    install could still succeed, were given the same slot: updates of a tag never fork.
  */
  lemma HoldersAgree(run: seq<State>, steps: seq<Step>, k: nat, t: nat, u: nat)
    requires IsRun(run, steps) && k < |run|
    requires t in run[k].threads && u in run[k].threads
    requires run[k].threads[t].Holding? && run[k].threads[u].Holding?
    requires run[k].threads[t].tag == run[k].threads[u].tag
    requires InChain(run[k], run[k].threads[t].held) && At(run[k], run[k].threads[t].held) == run[k].threads[t].expected
    requires InChain(run[k], run[k].threads[u].held) && At(run[k], run[k].threads[u].held) == run[k].threads[u].expected
    ensures run[k].threads[t].held == run[k].threads[u].held
  {
    InvInRun(run, steps, k);
    assert PcOk(run[k], run[k].threads[t]) && PcOk(run[k], run[k].threads[u]);
  }
}
