/**
  LightEpoch: the epoch table, the drain list and the actions deferred until every
  thread has left the epoch in which they were registered.

  A step is one atomic access: loading the epoch and publishing it are two steps, the
  table scan reads one entry per step, and a drain-list entry is locked, emptied or
  filled, and released in separate steps. The plain writes a thread makes while it
  holds an entry's lock belong to the step that releases the lock.
*/
module Epoch {
  import opened Options
  import opened Sums

  const UNPROTECTED := 0
  const WORD := 0x1_0000_0000

  /** The epoch word of a drain-list entry; Free and Locked are the two largest words. */
  datatype Trigger = Free | Locked | At(epoch: nat)

  datatype DrainSlot = DrainSlot(trigger: Trigger, action: Option<nat>)

  /**
    Where a thread stands. `next` is the action it will register once its drain is over;
    an action is named by the epoch its bump ended, which no other bump ends.
  */
  datatype Pc =
    | Idle
    | Loaded(epoch: nat, drain: bool)
    | CheckingCount(epoch: nat, next: Option<nat>)
    | Scanning(oldest: nat, index: nat, next: Option<nat>)
    | Draining(slot: nat, next: Option<nat>)
    | Comparing(slot: nat, trigger: Trigger, next: Option<nat>)
    | Popping(slot: nat, expected: nat, next: Option<nat>)
    | PopLocked(slot: nat, next: Option<nat>)
    | PopRunning(slot: nat, action: nat, next: Option<nat>)
    | PopCounting(slot: nat, next: Option<nat>)
    | Pushing(slot: nat, mine: nat)
    | PushComparing(slot: nat, mine: nat, trigger: Trigger)
    | PushCas(slot: nat, mine: nat)
    | PushLocked(slot: nat, mine: nat)
    | PushCounting
    | SwapCas(slot: nat, mine: nat, expected: nat)
    | SwapLocked(slot: nat, mine: nat)
    | SwapRunning(action: nat)

  /**
    `scanned` is num_entries_: the scan reads table indices 1..scanned. The last three
    fields are history: for each bump, the threads that were protected then and have not
    stored to their table entry since; the actions registered; the actions run, in order.
  */
  datatype State = State(
    scanned: nat,
    current: nat,
    safe: nat,
    table: seq<nat>,
    drain: seq<DrainSlot>,
    count: nat,
    threads: seq<Pc>,
    waiting: map<nat, set<nat>>,
    registered: set<nat>,
    ran: seq<nat>)

  datatype Kind =
    | LoadCurrent(drain: bool)
    | StoreLocal
    | Unprotect
    | Bump(register: bool)
    | CheckCount
    | ScanEntry
    | ScanDone
    | LoadTrigger
    | Compare
    | PopCas
    | PopRelease
    | PopRun
    | PopCount
    | DrainEnd
    | PushLoad
    | PushCompare
    | TryPush
    | PushRelease
    | PushCount
    | TrySwap
    | SwapRelease
    | SwapRun

  datatype Step = Step(t: nat, kind: Kind)

  predicate Enabled(s: State, step: Step) {
    step.t < |s.threads| <= |s.table| &&
    var pc := s.threads[step.t];
    match step.kind
    case LoadCurrent(_) => pc.Idle?
    case StoreLocal => pc.Loaded?
    case Unprotect => pc.Idle?
    case Bump(_) => pc.Idle?
    case CheckCount => pc.CheckingCount?
    case ScanEntry => pc.Scanning? && pc.index <= s.scanned && pc.index < |s.table|
    case ScanDone => pc.Scanning? && pc.index == s.scanned + 1 && pc.oldest > 0
    case LoadTrigger => pc.Draining? && pc.slot < |s.drain|
    case Compare => pc.Comparing?
    case PopCas => pc.Popping? && pc.slot < |s.drain|
    case PopRelease => pc.PopLocked? && pc.slot < |s.drain| && s.drain[pc.slot].action.Some?
    case PopRun => pc.PopRunning?
    case PopCount => pc.PopCounting?
    case DrainEnd => pc.Draining? && pc.slot == |s.drain|
    case PushLoad => pc.Pushing? && pc.slot < |s.drain|
    case PushCompare => pc.PushComparing?
    case TryPush => pc.PushCas? && pc.slot < |s.drain|
    case PushRelease => pc.PushLocked? && pc.slot < |s.drain|
    case PushCount => pc.PushCounting?
    case TrySwap => pc.SwapCas? && pc.slot < |s.drain|
    case SwapRelease => pc.SwapLocked? && pc.slot < |s.drain| && s.drain[pc.slot].action.Some?
    case SwapRun => pc.SwapRunning?
  }

  function Goto(s: State, t: nat, pc: Pc): State
    requires t < |s.threads|
  {
    s.(threads := s.threads[t := pc])
  }

  function Put(s: State, i: nat, d: DrainSlot): State
    requires i < |s.drain|
  {
    s.(drain := s.drain[i := d])
  }

  /** Thread t writes its own table entry, so no bump waits for it any longer. */
  function Publish(s: State, t: nat, epoch: nat): State
    requires t < |s.table|
  {
    s.(table := s.table[t := epoch], waiting := map e | e in s.waiting :: s.waiting[e] - {t})
  }

  function Protected(s: State): set<nat> {
    set t: nat | t < |s.table| && s.table[t] != UNPROTECTED
  }

  function AfterDrain(next: Option<nat>): Pc {
    if next.None? then Idle else Pushing(0, next.value)
  }

  function NextSlot(s: State, i: nat): nat {
    if i + 1 == |s.drain| then 0 else i + 1
  }

  predicate Reclaimable(s: State, trigger: Trigger) {
    trigger.At? && trigger.epoch <= s.safe
  }

  function Apply(s: State, step: Step): State
    requires Enabled(s, step)
  {
    var t := step.t;
    var pc := s.threads[t];
    match step.kind
    case LoadCurrent(drain) => Goto(s, t, Loaded(s.current, drain))
    case StoreLocal =>
      Goto(Publish(s, t, pc.epoch), t, if pc.drain then CheckingCount(pc.epoch, None) else Idle)
    case Unprotect => Publish(s, t, UNPROTECTED)
    case Bump(register) =>
      var e := s.current;
      Goto(s.(current := e + 1,
              waiting := s.waiting[e := Protected(s)],
              registered := if register then s.registered + {e} else s.registered),
           t, CheckingCount(e + 1, if register then Some(e) else None))
    case CheckCount =>
      Goto(s, t, if s.count > 0 then Scanning(pc.epoch, 1, pc.next) else AfterDrain(pc.next))
    case ScanEntry =>
      var e := s.table[pc.index];
      Goto(s, t, Scanning(if e != UNPROTECTED && e < pc.oldest then e else pc.oldest, pc.index + 1, pc.next))
    case ScanDone => Goto(s.(safe := pc.oldest - 1), t, Draining(0, pc.next))
    case LoadTrigger => Goto(s, t, Comparing(pc.slot, s.drain[pc.slot].trigger, pc.next))
    case Compare =>
      Goto(s, t, if Reclaimable(s, pc.trigger) then Popping(pc.slot, pc.trigger.epoch, pc.next)
                 else Draining(pc.slot + 1, pc.next))
    case PopCas =>
      if s.drain[pc.slot].trigger == At(pc.expected) then
        Goto(Put(s, pc.slot, s.drain[pc.slot].(trigger := Locked)), t, PopLocked(pc.slot, pc.next))
      else
        Goto(s, t, Draining(pc.slot + 1, pc.next))
    case PopRelease =>
      Goto(Put(s, pc.slot, DrainSlot(Free, None)), t, PopRunning(pc.slot, s.drain[pc.slot].action.value, pc.next))
    case PopRun => Goto(s.(ran := s.ran + [pc.action]), t, PopCounting(pc.slot, pc.next))
    case PopCount =>
      var c := (s.count + WORD - 1) % WORD;
      Goto(s.(count := c), t, if c == 0 then AfterDrain(pc.next) else Draining(pc.slot + 1, pc.next))
    case DrainEnd => Goto(s, t, AfterDrain(pc.next))
    case PushLoad => Goto(s, t, PushComparing(pc.slot, pc.mine, s.drain[pc.slot].trigger))
    case PushCompare =>
      Goto(s, t, if pc.trigger.Free? then PushCas(pc.slot, pc.mine)
                 else if Reclaimable(s, pc.trigger) then SwapCas(pc.slot, pc.mine, pc.trigger.epoch)
                 else Pushing(NextSlot(s, pc.slot), pc.mine))
    case TryPush =>
      if s.drain[pc.slot].trigger == Free then
        Goto(Put(s, pc.slot, s.drain[pc.slot].(trigger := Locked)), t, PushLocked(pc.slot, pc.mine))
      else
        Goto(s, t, Pushing(NextSlot(s, pc.slot), pc.mine))
    case PushRelease => Goto(Put(s, pc.slot, DrainSlot(At(pc.mine), Some(pc.mine))), t, PushCounting)
    case PushCount => Goto(s.(count := (s.count + 1) % WORD), t, Idle)
    case TrySwap =>
      if s.drain[pc.slot].trigger == At(pc.expected) then
        Goto(Put(s, pc.slot, s.drain[pc.slot].(trigger := Locked)), t, SwapLocked(pc.slot, pc.mine))
      else
        Goto(s, t, Pushing(NextSlot(s, pc.slot), pc.mine))
    case SwapRelease =>
      Goto(Put(s, pc.slot, DrainSlot(At(pc.mine), Some(pc.mine))), t, SwapRunning(s.drain[pc.slot].action.value))
    case SwapRun => Goto(s.(ran := s.ran + [pc.action]), t, Idle)
  }

  ghost predicate Init(s: State) {
    && s.current == 1 && s.safe == 0 && s.count == 0
    && s.scanned < |s.table| && |s.threads| <= |s.table|
    && 0 < |s.drain| < WORD
    && (forall i :: 0 <= i < |s.table| ==> s.table[i] == UNPROTECTED)
    && (forall i :: 0 <= i < |s.drain| ==> s.drain[i] == DrainSlot(Free, None))
    && (forall i :: 0 <= i < |s.threads| ==> s.threads[i] == Idle)
    && s.waiting == map[] && s.registered == {} && s.ran == []
  }

  // ---------- Part 1: no action runs early ----------

  /** No scanned thread that was protected when epoch e ended is still in that protection. */
  ghost predicate Cleared(s: State, e: nat) {
    e in s.waiting && forall j :: 1 <= j <= s.scanned ==> j !in s.waiting[e]
  }

  /** e names a bump that has happened. */
  predicate Ended(s: State, e: nat) {
    1 <= e < s.current
  }

  predicate EndedIfAny(s: State, o: Option<nat>) {
    o.Some? ==> Ended(s, o.value)
  }

  predicate EndedIfAt(s: State, trigger: Trigger) {
    trigger.At? ==> Ended(s, trigger.epoch)
  }

  /** A thread that a bump still waits for has an entry no later than the epoch that ended. */
  ghost predicate WaitersOk(table: seq<nat>, waiters: set<nat>, e: nat) {
    forall j :: j in waiters ==> j < |table| && 0 < table[j] <= e
  }

  ghost predicate ShapeOk(s: State) {
    && s.scanned < |s.table| && |s.threads| <= |s.table|
    && 1 <= s.current && s.safe < s.current
    && (forall j :: 0 <= j < |s.table| ==> s.table[j] <= s.current)
    && (forall e :: e in s.waiting <==> Ended(s, e))
    && (forall e :: e in s.waiting ==> WaitersOk(s.table, s.waiting[e], e))
  }

  ghost predicate SafeOk(s: State) {
    forall e :: 1 <= e <= s.safe ==> Cleared(s, e)
  }

  ghost predicate SlotOk(s: State, d: DrainSlot) {
    match d.trigger
    case Free => d.action.None?
    case Locked => true
    case At(e) => d.action == Some(e) && Ended(s, e)
  }

  /** The scan so far: every thread it has read is past every epoch older than `oldest`. */
  ghost predicate ScanOk(s: State, oldest: nat, index: nat) {
    forall e, j :: 1 <= e < oldest && 1 <= j < index ==> e in s.waiting && j !in s.waiting[e]
  }

  ghost predicate PcOk(s: State, pc: Pc) {
    match pc
    case Idle => true
    case Loaded(e, _) => 1 <= e <= s.current
    case CheckingCount(e, next) => 1 <= e <= s.current && EndedIfAny(s, next)
    case Scanning(oldest, index, next) =>
      && 1 <= oldest <= s.current && 1 <= index <= s.scanned + 1
      && ScanOk(s, oldest, index) && EndedIfAny(s, next)
    case Draining(i, next) => i <= |s.drain| && EndedIfAny(s, next)
    case Comparing(i, trigger, next) => i < |s.drain| && EndedIfAny(s, next) && EndedIfAt(s, trigger)
    case Popping(i, e, next) => i < |s.drain| && EndedIfAny(s, next) && Cleared(s, e)
    case PopLocked(i, next) =>
      && i < |s.drain| && EndedIfAny(s, next)
      && s.drain[i].trigger == Locked && s.drain[i].action.Some? && Cleared(s, s.drain[i].action.value)
    case PopRunning(i, a, next) => i < |s.drain| && EndedIfAny(s, next) && Cleared(s, a)
    case PopCounting(i, next) => i < |s.drain| && EndedIfAny(s, next)
    case Pushing(i, mine) => i < |s.drain| && Ended(s, mine)
    case PushComparing(i, mine, trigger) => i < |s.drain| && Ended(s, mine) && EndedIfAt(s, trigger)
    case PushCas(i, mine) => i < |s.drain| && Ended(s, mine)
    case PushLocked(i, mine) => i < |s.drain| && Ended(s, mine) && s.drain[i] == DrainSlot(Locked, None)
    case PushCounting => true
    case SwapCas(i, mine, e) => i < |s.drain| && Ended(s, mine) && Cleared(s, e)
    case SwapLocked(i, mine) =>
      && i < |s.drain| && Ended(s, mine)
      && s.drain[i].trigger == Locked && s.drain[i].action.Some? && Cleared(s, s.drain[i].action.value)
    case SwapRunning(a) => Cleared(s, a)
  }

  predicate Locks(pc: Pc) {
    pc.PopLocked? || pc.PushLocked? || pc.SwapLocked?
  }

  ghost predicate PcsOk(s: State) {
    forall t :: 0 <= t < |s.threads| ==> PcOk(s, s.threads[t])
  }

  ghost predicate LocksApart(s: State) {
    forall t, u :: 0 <= t < |s.threads| && 0 <= u < |s.threads| && t != u && Locks(s.threads[t]) && Locks(s.threads[u])
      ==> s.threads[t].slot != s.threads[u].slot
  }

  ghost predicate Inv(s: State) {
    && ShapeOk(s)
    && SafeOk(s)
    && |s.drain| > 0
    && (forall i :: 0 <= i < |s.drain| ==> SlotOk(s, s.drain[i]))
    && PcsOk(s)
    && LocksApart(s)
  }

  /** What every step leaves behind: epochs only grow, and no bump gains a thread to wait for. */
  ghost predicate Grows(s: State, s': State) {
    && s'.scanned == s.scanned && |s'.table| == |s.table| && |s'.drain| == |s.drain| && |s'.threads| == |s.threads|
    && s.current <= s'.current
    && (forall e :: e in s.waiting ==> e in s'.waiting && s'.waiting[e] <= s.waiting[e])
  }

  /** The drain-list entry a step may write; it is locked, or about to be, by that thread. */
  predicate Edits(s: State, step: Step, i: nat)
    requires Enabled(s, step)
  {
    var pc := s.threads[step.t];
    && (step.kind.PopCas? || step.kind.PopRelease? || step.kind.TryPush? || step.kind.PushRelease?
        || step.kind.TrySwap? || step.kind.SwapRelease?)
    && i == pc.slot
    && (Locks(pc) || s.drain[i].trigger != Locked)
  }

  lemma StepFrame(s: State, step: Step)
    requires ShapeOk(s) && Enabled(s, step)
    ensures Grows(s, Apply(s, step))
    ensures forall i :: 0 <= i < |s.drain| && !Edits(s, step, i) ==> Apply(s, step).drain[i] == s.drain[i]
    ensures Apply(s, step).threads == s.threads[step.t := Apply(s, step).threads[step.t]]
  {
  }

  /** No bump waits for a thread that has just written its entry. */
  lemma PublishShape(s: State, t: nat, epoch: nat)
    requires ShapeOk(s) && t < |s.table| && epoch <= s.current
    ensures ShapeOk(Publish(s, t, epoch))
  {
    var s' := Publish(s, t, epoch);
    forall e | e in s'.waiting
      ensures WaitersOk(s'.table, s'.waiting[e], e)
    {
      assert WaitersOk(s.table, s.waiting[e], e);
    }
  }

  lemma BumpShape(s: State, s': State)
    requires ShapeOk(s) && |s'.threads| == |s.threads|
    requires s'.scanned == s.scanned && s'.safe == s.safe && s'.table == s.table
    requires s'.current == s.current + 1 && s'.waiting == s.waiting[s.current := Protected(s)]
    ensures ShapeOk(s')
  {
    forall e | e in s'.waiting
      ensures WaitersOk(s'.table, s'.waiting[e], e)
    {
      assert e != s.current ==> WaitersOk(s.table, s.waiting[e], e);
    }
  }

  lemma ScanDoneShape(s: State, s': State)
    requires ShapeOk(s) && |s'.threads| == |s.threads| && s'.scanned == s.scanned && s'.table == s.table
    requires s'.current == s.current && s'.waiting == s.waiting && s'.safe < s.current
    ensures ShapeOk(s')
  {
  }

  lemma ShapeProtectStep(s: State, step: Step)
    requires Enabled(s, step) && ShapeOk(s) && PcOk(s, s.threads[step.t]) && ProtectKind(step.kind)
    ensures ShapeOk(Apply(s, step))
  {
    var s', pc := Apply(s, step), s.threads[step.t];
    match step.kind
    case StoreLocal =>
      PublishShape(s, step.t, pc.epoch);
      SameShape(Publish(s, step.t, pc.epoch), s');
    case Unprotect => PublishShape(s, step.t, UNPROTECTED);
    case Bump(_) => BumpShape(s, s');
    case _ => ScanDoneShape(s, s');
  }

  lemma ShapeOtherStep(s: State, step: Step)
    requires Enabled(s, step) && ShapeOk(s) && !ProtectKind(step.kind)
    ensures ShapeOk(Apply(s, step))
  {
    SameShape(s, Apply(s, step));
  }

  lemma SameShape(s: State, s': State)
    requires ShapeOk(s) && |s'.threads| == |s.threads|
    requires s'.scanned == s.scanned && s'.current == s.current && s'.safe == s.safe
    requires s'.table == s.table && s'.waiting == s.waiting
    ensures ShapeOk(s')
  {
  }

  lemma ClearedGrows(s: State, s': State, e: nat)
    requires Grows(s, s') && Cleared(s, e)
    ensures Cleared(s', e)
  {
  }

  /** Where the scan ends, what it has established becomes the new safe epoch. */
  lemma SafeStep(s: State, step: Step, e: nat)
    requires Enabled(s, step) && ShapeOk(s) && SafeOk(s) && PcOk(s, s.threads[step.t])
    requires 1 <= e <= Apply(s, step).safe
    ensures Cleared(Apply(s, step), e)
  {
    StepFrame(s, step);
    if step.kind.ScanDone? {
      assert ScanOk(s, s.threads[step.t].oldest, s.scanned + 1);
      assert forall j :: 1 <= j <= s.scanned ==> e in s.waiting && j !in s.waiting[e];
    } else {
      assert Cleared(s, e);
    }
    ClearedGrows(s, Apply(s, step), e);
  }

  predicate ProtectKind(k: Kind) {
    k.LoadCurrent? || k.StoreLocal? || k.Unprotect? || k.Bump? || k.CheckCount? || k.ScanEntry? || k.ScanDone?
  }

  predicate DrainKind(k: Kind) {
    k.LoadTrigger? || k.Compare? || k.PopCas? || k.PopRelease? || k.PopRun? || k.PopCount? || k.DrainEnd?
  }

  lemma OwnProtectStep(s: State, step: Step)
    requires Enabled(s, step) && ShapeOk(s) && PcOk(s, s.threads[step.t]) && |s.drain| > 0
    requires ProtectKind(step.kind)
    ensures PcOk(Apply(s, step), Apply(s, step).threads[step.t])
  {
  }

  lemma OwnDrainStep(s: State, step: Step)
    requires Enabled(s, step) && ShapeOk(s) && SafeOk(s) && PcOk(s, s.threads[step.t]) && |s.drain| > 0
    requires forall i :: 0 <= i < |s.drain| ==> SlotOk(s, s.drain[i])
    requires DrainKind(step.kind)
    ensures PcOk(Apply(s, step), Apply(s, step).threads[step.t])
  {
    if step.kind.Compare? && Reclaimable(s, s.threads[step.t].trigger) {
      assert Cleared(s, s.threads[step.t].trigger.epoch);
    }
  }

  lemma OwnPushStep(s: State, step: Step)
    requires Enabled(s, step) && ShapeOk(s) && SafeOk(s) && PcOk(s, s.threads[step.t]) && |s.drain| > 0
    requires forall i :: 0 <= i < |s.drain| ==> SlotOk(s, s.drain[i])
    requires !ProtectKind(step.kind) && !DrainKind(step.kind)
    ensures PcOk(Apply(s, step), Apply(s, step).threads[step.t])
  {
    if step.kind.PushCompare? && Reclaimable(s, s.threads[step.t].trigger) {
      assert Cleared(s, s.threads[step.t].trigger.epoch);
    }
  }

  lemma OtherPcStep(s: State, s': State, pc: Pc)
    requires ShapeOk(s) && Grows(s, s') && PcOk(s, pc)
    requires Locks(pc) ==> s'.drain[pc.slot] == s.drain[pc.slot]
    ensures PcOk(s', pc)
  {
  }

  lemma SlotStep(s: State, step: Step, i: nat)
    requires Enabled(s, step) && ShapeOk(s) && PcOk(s, s.threads[step.t])
    requires i < |s.drain| && SlotOk(s, s.drain[i])
    ensures SlotOk(Apply(s, step), Apply(s, step).drain[i])
  {
  }

  /** A lock is gained only on an entry whose word was not Locked. */
  lemma OwnLockStep(s: State, step: Step)
    requires Enabled(s, step) && Locks(Apply(s, step).threads[step.t])
    ensures Apply(s, step).threads[step.t].slot < |s.drain|
    ensures s.drain[Apply(s, step).threads[step.t].slot].trigger != Locked
  {
  }

  lemma LocksStep(s: State, s': State, t: nat)
    requires PcsOk(s) && LocksApart(s) && t < |s.threads| == |s'.threads|
    requires s'.threads == s.threads[t := s'.threads[t]]
    requires Locks(s'.threads[t]) ==>
               s'.threads[t].slot < |s.drain| && s.drain[s'.threads[t].slot].trigger != Locked
    ensures LocksApart(s')
  {
    forall u | 0 <= u < |s.threads| ensures PcOk(s, s.threads[u]) {}
  }

  lemma ShapeStep(s: State, step: Step)
    requires Inv(s) && Enabled(s, step)
    ensures ShapeOk(Apply(s, step)) && SafeOk(Apply(s, step))
  {
    assert PcOk(s, s.threads[step.t]);
    forall e | 1 <= e <= Apply(s, step).safe ensures Cleared(Apply(s, step), e) {
      SafeStep(s, step, e);
    }
    if ProtectKind(step.kind) {
      ShapeProtectStep(s, step);
    } else {
      ShapeOtherStep(s, step);
    }
  }

  lemma OwnStep(s: State, step: Step)
    requires Inv(s) && Enabled(s, step) && SafeOk(Apply(s, step))
    ensures PcOk(Apply(s, step), Apply(s, step).threads[step.t])
  {
    assert PcOk(s, s.threads[step.t]);
    if ProtectKind(step.kind) {
      OwnProtectStep(s, step);
    } else if DrainKind(step.kind) {
      OwnDrainStep(s, step);
    } else {
      OwnPushStep(s, step);
    }
  }

  lemma InvStep(s: State, step: Step)
    requires Inv(s) && Enabled(s, step)
    ensures Inv(Apply(s, step))
  {
    var s' := Apply(s, step);
    StepFrame(s, step);
    ShapeStep(s, step);
    OwnStep(s, step);
    assert PcOk(s, s.threads[step.t]);
    forall u | 0 <= u < |s.threads| && u != step.t ensures PcOk(s', s.threads[u]) {
      OtherPcStep(s, s', s.threads[u]);
    }
    forall i | 0 <= i < |s.drain| ensures SlotOk(s', s'.drain[i]) {
      SlotStep(s, step, i);
    }
    if Locks(s'.threads[step.t]) {
      OwnLockStep(s, step);
    }
    LocksStep(s, s', step.t);
  }

  // ---------- Runs ----------

  ghost predicate Next(s: State, step: Step, s': State) {
    Enabled(s, step) && s' == Apply(s, step)
  }

  ghost predicate IsPath(run: seq<State>, steps: seq<Step>) {
    && |run| == |steps| + 1
    && forall i {:trigger steps[i]} :: 0 <= i < |steps| ==> Next(run[i], steps[i], run[i + 1])
  }

  ghost predicate IsRun(run: seq<State>, steps: seq<Step>) {
    IsPath(run, steps) && Init(run[0])
  }

  lemma InvNext(s: State, step: Step, s': State)
    requires Inv(s) && Next(s, step, s')
    ensures Inv(s')
  {
    InvStep(s, step);
  }

  lemma InvInit(s: State)
    requires Init(s)
    ensures Inv(s)
  {
  }

  lemma {:induction false} InvInRun(run: seq<State>, steps: seq<Step>, k: nat)
    requires IsRun(run, steps) && k < |run|
    ensures Inv(run[k])
  {
    if k == 0 {
      InvInit(run[0]);
    } else {
      InvInRun(run, steps, k - 1);
      InvNext(run[k - 1], steps[k - 1], run[k]);
    }
  }

  /** Time passes: the epoch does not fall, and the sizes stay. */
  predicate Later(s: State, s': State) {
    s.current <= s'.current && s.scanned == s'.scanned && |s.table| == |s'.table|
  }

  lemma LaterNext(s: State, step: Step, s': State)
    requires Next(s, step, s')
    ensures Later(s, s')
  {
  }

  lemma {:induction false} CurrentGrows(run: seq<State>, steps: seq<Step>, i: nat, k: nat)
    requires IsRun(run, steps) && i <= k < |run|
    ensures Later(run[i], run[k])
  {
    if i < k {
      CurrentGrows(run, steps, i, k - 1);
      LaterNext(run[k - 1], steps[k - 1], run[k]);
    }
  }

  /** Thread j stores to its own table entry: it refreshes, or unprotects itself. */
  predicate Stores(step: Step, j: nat) {
    step.t == j && (step.kind.StoreLocal? || step.kind.Unprotect?)
  }

  predicate RunsAction(s: State, step: Step, a: nat) {
    && Enabled(s, step)
    && (step.kind.PopRun? || step.kind.SwapRun?) && s.threads[step.t].action == a
  }

  predicate WaitsFor(s: State, e: nat, j: nat) {
    e in s.waiting && j in s.waiting[e]
  }

  lemma StillWaiting(s: State, step: Step, s': State, e: nat, j: nat)
    requires Next(s, step, s') && WaitsFor(s, e, j) && Ended(s, e) && !Stores(step, j)
    ensures WaitsFor(s', e, j)
  {
    if step.kind.Bump? {
      assert s'.waiting[e] == s.waiting[e];
    } else if step.kind.StoreLocal? || step.kind.Unprotect? {
      assert s'.waiting[e] == s.waiting[e] - {step.t};
    } else {
      assert s'.waiting == s.waiting;
    }
  }

  lemma StartsWaiting(s: State, step: Step, s': State, j: nat)
    requires Next(s, step, s') && step.kind.Bump? && j < |s.table| && s.table[j] != UNPROTECTED
    ensures WaitsFor(s', s.current, j)
  {
  }

  lemma {:induction false} WaitingPersists(run: seq<State>, steps: seq<Step>, b: nat, k: nat, j: nat)
    requires IsRun(run, steps) && b < k < |run|
    requires steps[b].kind.Bump? && j < |run[b].table| && run[b].table[j] != UNPROTECTED
    requires forall m :: b < m < k ==> !Stores(steps[m], j)
    ensures WaitsFor(run[k], run[b].current, j) && Ended(run[k], run[b].current)
  {
    InvInRun(run, steps, k);
    if k == b + 1 {
      StartsWaiting(run[b], steps[b], run[k], j);
    } else {
      WaitingPersists(run, steps, b, k - 1, j);
      StillWaiting(run[k - 1], steps[k - 1], run[k], run[b].current, j);
    }
  }

  lemma ActionCleared(s: State, step: Step, a: nat)
    requires Inv(s) && RunsAction(s, step, a)
    ensures Cleared(s, a) && Ended(s, a) && s.scanned < |s.table|
  {
    assert PcOk(s, s.threads[step.t]);
  }

  /**
    Main result: an action runs only after the bump that registered it, and only once every
    scanned thread that was protected at that bump has since refreshed or unprotected.
  */
  lemma NoActionRunsEarly(run: seq<State>, steps: seq<Step>, b: nat, r: nat, j: nat)
    requires IsRun(run, steps) && b < |steps| && r < |steps|
    requires steps[b].kind.Bump? && RunsAction(run[r], steps[r], run[b].current)
    requires 1 <= j <= run[b].scanned
    ensures b < r
    ensures j < |run[b].table|
    ensures run[b].table[j] != UNPROTECTED ==> exists m :: b < m < r && Stores(steps[m], j)
  {
    InvInRun(run, steps, r);
    ActionCleared(run[r], steps[r], run[b].current);
    if r <= b {
      CurrentGrows(run, steps, r, b);
    } else {
      CurrentGrows(run, steps, b, r);
      if run[b].table[j] != UNPROTECTED && forall m :: b < m < r ==> !Stores(steps[m], j) {
        WaitingPersists(run, steps, b, r, j);
      }
    }
  }

  // ---------- Part 2: every action runs at most once and none is lost ----------

  function Holds(o: Option<nat>, a: nat): int {
    if o == Some(a) then 1 else 0
  }

  /** How often a thread carries action a: to register it, or to run it. */
  function Carries(pc: Pc, a: nat): int {
    match pc
    case Idle => 0
    case Loaded(_, _) => 0
    case CheckingCount(_, next) => Holds(next, a)
    case Scanning(_, _, next) => Holds(next, a)
    case Draining(_, next) => Holds(next, a)
    case Comparing(_, _, next) => Holds(next, a)
    case Popping(_, _, next) => Holds(next, a)
    case PopLocked(_, next) => Holds(next, a)
    case PopRunning(_, x, next) => Holds(Some(x), a) + Holds(next, a)
    case PopCounting(_, next) => Holds(next, a)
    case Pushing(_, mine) => Holds(Some(mine), a)
    case PushComparing(_, mine, _) => Holds(Some(mine), a)
    case PushCas(_, mine) => Holds(Some(mine), a)
    case PushLocked(_, mine) => Holds(Some(mine), a)
    case PushCounting => 0
    case SwapCas(_, mine, _) => Holds(Some(mine), a)
    case SwapLocked(_, mine) => Holds(Some(mine), a)
    case SwapRunning(x) => Holds(Some(x), a)
  }

  function Carried(threads: seq<Pc>, a: nat): seq<int> {
    seq(|threads|, i requires 0 <= i < |threads| => Carries(threads[i], a))
  }

  function Stored(drain: seq<DrainSlot>, a: nat): seq<int> {
    seq(|drain|, i requires 0 <= i < |drain| => Holds(drain[i].action, a))
  }

  function TimesRun(s: State, a: nat): nat {
    multiset(s.ran)[a]
  }

  /** In how many places action a is: already run, in the drain list, or carried by a thread. */
  function Places(s: State, a: nat): int {
    TimesRun(s, a) + Total(Stored(s.drain, a)) + Total(Carried(s.threads, a))
  }

  function Registrations(s: State, a: nat): int {
    if a in s.registered then 1 else 0
  }

  ghost predicate Conserved(s: State, a: nat) {
    && Places(s, a) == Registrations(s, a)
    && forall e :: e in s.registered ==> Ended(s, e)
  }

  /** The drain-list entry a step works on, or 0 when it works on none. */
  function Focus(s: State, step: Step): nat
    requires Enabled(s, step) && |s.drain| > 0
    ensures Focus(s, step) < |s.drain|
  {
    if step.kind.PopCas? || step.kind.PopRelease? || step.kind.TryPush? || step.kind.PushRelease?
       || step.kind.TrySwap? || step.kind.SwapRelease?
    then s.threads[step.t].slot else 0
  }

  /** One step moves an action between its thread, one entry and the log, losing none. */
  ghost predicate Balanced(s: State, s': State, i: nat, t: nat, a: nat) {
    && i < |s.drain| == |s'.drain| && t < |s.threads| == |s'.threads|
    && s'.drain == s.drain[i := s'.drain[i]]
    && TimesRun(s', a) + Holds(s'.drain[i].action, a) + Carries(s'.threads[t], a) - Registrations(s', a)
       == TimesRun(s, a) + Holds(s.drain[i].action, a) + Carries(s.threads[t], a) - Registrations(s, a)
  }

  lemma ProtectBalance(s: State, step: Step, a: nat)
    requires Enabled(s, step) && |s.drain| > 0 && ProtectKind(step.kind)
    requires forall e :: e in s.registered ==> Ended(s, e)
    ensures Balanced(s, Apply(s, step), Focus(s, step), step.t, a)
  {
  }

  lemma DrainBalance(s: State, step: Step, a: nat)
    requires Enabled(s, step) && |s.drain| > 0 && DrainKind(step.kind)
    ensures Balanced(s, Apply(s, step), Focus(s, step), step.t, a)
  {
  }

  predicate SwapKind(k: Kind) {
    k.TrySwap? || k.SwapRelease? || k.SwapRun?
  }

  lemma PushBalance(s: State, step: Step, a: nat)
    requires Enabled(s, step) && |s.drain| > 0 && PcOk(s, s.threads[step.t])
    requires !ProtectKind(step.kind) && !DrainKind(step.kind) && !SwapKind(step.kind)
    ensures Balanced(s, Apply(s, step), Focus(s, step), step.t, a)
  {
  }

  lemma SwapBalance(s: State, step: Step, a: nat)
    requires Enabled(s, step) && |s.drain| > 0 && PcOk(s, s.threads[step.t]) && SwapKind(step.kind)
    ensures Balanced(s, Apply(s, step), Focus(s, step), step.t, a)
  {
  }

  lemma StepBalance(s: State, step: Step, a: nat)
    requires Enabled(s, step) && |s.drain| > 0 && PcOk(s, s.threads[step.t])
    requires forall e :: e in s.registered ==> Ended(s, e)
    ensures Balanced(s, Apply(s, step), Focus(s, step), step.t, a)
  {
    if ProtectKind(step.kind) {
      ProtectBalance(s, step, a);
    } else if DrainKind(step.kind) {
      DrainBalance(s, step, a);
    } else if SwapKind(step.kind) {
      SwapBalance(s, step, a);
    } else {
      PushBalance(s, step, a);
    }
  }

  lemma BalancedKeeps(s: State, s': State, i: nat, t: nat, a: nat)
    requires Balanced(s, s', i, t, a) && s'.threads == s.threads[t := s'.threads[t]]
    ensures Places(s', a) - Registrations(s', a) == Places(s, a) - Registrations(s, a)
  {
    TotalUpdate(Stored(s.drain, a), i, Holds(s'.drain[i].action, a));
    TotalUpdate(Carried(s.threads, a), t, Carries(s'.threads[t], a));
    assert Stored(s'.drain, a) == Stored(s.drain, a)[i := Holds(s'.drain[i].action, a)];
    assert Carried(s'.threads, a) == Carried(s.threads, a)[t := Carries(s'.threads[t], a)];
  }

  lemma RegisteredEnded(s: State, step: Step)
    requires Enabled(s, step) && 1 <= s.current && forall e :: e in s.registered ==> Ended(s, e)
    ensures forall e :: e in Apply(s, step).registered ==> Ended(Apply(s, step), e)
  {
  }

  lemma ConservedInit(s: State, a: nat)
    requires Init(s)
    ensures Conserved(s, a)
  {
    TotalZero(Stored(s.drain, a));
    TotalZero(Carried(s.threads, a));
  }

  lemma ConservedNext(s: State, step: Step, s': State, a: nat)
    requires Inv(s) && Next(s, step, s') && Conserved(s, a)
    ensures Conserved(s', a)
  {
    assert PcOk(s, s.threads[step.t]);
    StepBalance(s, step, a);
    StepFrame(s, step);
    BalancedKeeps(s, s', Focus(s, step), step.t, a);
    RegisteredEnded(s, step);
  }

  lemma {:induction false} ConservedInRun(run: seq<State>, steps: seq<Step>, k: nat, a: nat)
    requires IsRun(run, steps) && k < |run|
    ensures Conserved(run[k], a)
  {
    if k == 0 {
      ConservedInit(run[0], a);
    } else {
      ConservedInRun(run, steps, k - 1, a);
      InvInRun(run, steps, k - 1);
      ConservedNext(run[k - 1], steps[k - 1], run[k], a);
    }
  }

  /**
    Main result: at any time a registered action is in exactly one place, so it is never lost
    and never runs twice; nothing else is ever run.
  */
  lemma ActionsConserved(run: seq<State>, steps: seq<Step>, k: nat, a: nat)
    requires IsRun(run, steps) && k < |run|
    ensures Places(run[k], a) == Registrations(run[k], a)
    ensures TimesRun(run[k], a) <= 1
    ensures a in run[k].ran ==> a in run[k].registered
  {
    ConservedInRun(run, steps, k, a);
    TotalNonNegative(Stored(run[k].drain, a));
    TotalNonNegative(Carried(run[k].threads, a));
    if a in run[k].ran {
      assert a in multiset(run[k].ran);
    }
  }

  // ---------- Part 3: the drain count ----------

  function Occupied(drain: seq<DrainSlot>): seq<int> {
    seq(|drain|, i requires 0 <= i < |drain| => Weight(drain[i]))
  }

  function Weight(d: DrainSlot): int {
    if d.action.Some? then 1 else 0
  }

  /** How far a thread's own increment or decrement lags behind the drain list. */
  function Lag(pc: Pc): int {
    if pc.PushCounting? then -1 else if pc.PopRunning? || pc.PopCounting? then 1 else 0
  }

  function Lags(threads: seq<Pc>): seq<int> {
    seq(|threads|, i requires 0 <= i < |threads| => Lag(threads[i]))
  }

  /**
    drain_count_ is a 32-bit word that may wrap below zero when a pop is counted before the
    push it undoes; modulo 2^32 it always equals the occupied entries plus the lags.
  */
  ghost predicate CountOk(s: State) {
    s.count < WORD && (s.count - Total(Occupied(s.drain)) - Total(Lags(s.threads))) % WORD == 0
  }

  ghost predicate CountBalanced(s: State, s': State, i: nat, t: nat) {
    && i < |s.drain| == |s'.drain| && t < |s.threads| == |s'.threads|
    && s'.drain == s.drain[i := s'.drain[i]] && s'.count < WORD
    && (s'.count - Weight(s'.drain[i]) - Lag(s'.threads[t]) - s.count + Weight(s.drain[i]) + Lag(s.threads[t]))
       % WORD == 0
  }

  lemma DrainStepCount(s: State, step: Step)
    requires Enabled(s, step) && |s.drain| > 0 && s.count < WORD && DrainKind(step.kind)
    ensures CountBalanced(s, Apply(s, step), Focus(s, step), step.t)
  {
  }

  lemma StepCount(s: State, step: Step)
    requires Enabled(s, step) && |s.drain| > 0 && PcOk(s, s.threads[step.t]) && s.count < WORD
    ensures CountBalanced(s, Apply(s, step), Focus(s, step), step.t)
  {
    if DrainKind(step.kind) {
      DrainStepCount(s, step);
    }
  }

  lemma MultiplesAdd(x: int, y: int, z: int)
    requires x % WORD == 0 && y % WORD == 0 && z == x + y
    ensures z % WORD == 0
  {
  }

  lemma CountBalancedKeeps(s: State, s': State, i: nat, t: nat)
    requires CountOk(s) && CountBalanced(s, s', i, t) && s'.threads == s.threads[t := s'.threads[t]]
    ensures CountOk(s')
  {
    TotalUpdate(Occupied(s.drain), i, Weight(s'.drain[i]));
    TotalUpdate(Lags(s.threads), t, Lag(s'.threads[t]));
    assert Occupied(s'.drain) == Occupied(s.drain)[i := Weight(s'.drain[i])];
    assert Lags(s'.threads) == Lags(s.threads)[t := Lag(s'.threads[t])];
    MultiplesAdd(
      s.count - Total(Occupied(s.drain)) - Total(Lags(s.threads)),
      s'.count - Weight(s'.drain[i]) - Lag(s'.threads[t]) - s.count + Weight(s.drain[i]) + Lag(s.threads[t]),
      s'.count - Total(Occupied(s'.drain)) - Total(Lags(s'.threads)));
  }

  lemma CountInit(s: State)
    requires Init(s)
    ensures CountOk(s)
  {
    TotalZero(Occupied(s.drain));
    TotalZero(Lags(s.threads));
  }

  lemma CountNext(s: State, step: Step, s': State)
    requires Inv(s) && Next(s, step, s') && CountOk(s)
    ensures CountOk(s') && |s'.drain| == |s.drain|
  {
    assert PcOk(s, s.threads[step.t]);
    StepCount(s, step);
    StepFrame(s, step);
    CountBalancedKeeps(s, s', Focus(s, step), step.t);
  }

  lemma {:induction false} CountInRun(run: seq<State>, steps: seq<Step>, k: nat)
    requires IsRun(run, steps) && k < |run|
    ensures CountOk(run[k]) && |run[k].drain| < WORD
  {
    if k == 0 {
      CountInit(run[0]);
    } else {
      CountInRun(run, steps, k - 1);
      InvInRun(run, steps, k - 1);
      CountNext(run[k - 1], steps[k - 1], run[k]);
    }
  }

  /**
    Whenever no thread is inside an epoch call, drain_count_ is exactly the number of actions
    waiting in the drain list: the test drain_count_ > 0 never strands one.
  */
  lemma QuiescentCountExact(run: seq<State>, steps: seq<Step>, k: nat)
    requires IsRun(run, steps) && k < |run|
    requires forall t :: 0 <= t < |run[k].threads| ==> run[k].threads[t].Idle?
    ensures run[k].count == Total(Occupied(run[k].drain))
  {
    CountInRun(run, steps, k);
    TotalZero(Lags(run[k].threads));
    TotalBounds(Occupied(run[k].drain), 1);
  }

  // ---------- Part 4: exactly the indices 1..scanned are waited for ----------

  /** The scan starts at index 1, while thread identifiers start at 0. */
  predicate Unscanned(s: State, j: nat) {
    j < |s.table| && (j == 0 || j > s.scanned)
  }

  /** The same state with the thread at table index j unprotected. */
  function Without(s: State, j: nat): State
    requires j < |s.table|
  {
    s.(table := s.table[j := UNPROTECTED], waiting := map e | e in s.waiting :: s.waiting[e] - {j})
  }

  lemma PublishWithout(s: State, t: nat, epoch: nat, j: nat)
    requires t < |s.table| && j < |s.table| && t != j
    ensures Without(Publish(s, t, epoch), j) == Publish(Without(s, j), t, epoch)
  {
    assert s.table[t := epoch][j := UNPROTECTED] == s.table[j := UNPROTECTED][t := epoch];
    assert forall e :: e in s.waiting ==> s.waiting[e] - {t} - {j} == s.waiting[e] - {j} - {t};
  }

  lemma OtherWithout(s: State, step: Step, j: nat)
    requires Enabled(s, step) && ShapeOk(s) && Unscanned(s, j)
    requires step.kind.ScanEntry? ==> s.threads[step.t].index > 0
    requires !step.kind.StoreLocal? && !step.kind.Unprotect? && !step.kind.Bump?
    ensures Next(Without(s, j), step, Without(Apply(s, step), j))
  {
  }

  lemma BumpWithout(s: State, step: Step, j: nat)
    requires Enabled(s, step) && j < |s.table| && step.kind.Bump?
    ensures Next(Without(s, j), step, Without(Apply(s, step), j))
  {
    assert Protected(Without(s, j)) == Protected(s) - {j};
  }

  lemma StoreWithout(s: State, step: Step, j: nat)
    requires Enabled(s, step) && j < |s.table| && j != step.t && (step.kind.StoreLocal? || step.kind.Unprotect?)
    ensures Next(Without(s, j), step, Without(Apply(s, step), j))
  {
    if step.kind.StoreLocal? {
      PublishWithout(s, step.t, s.threads[step.t].epoch, j);
    } else {
      PublishWithout(s, step.t, UNPROTECTED, j);
    }
  }

  lemma NextWithout(s: State, step: Step, s': State, j: nat)
    requires Inv(s) && Next(s, step, s') && Unscanned(s, j) && !Stores(step, j)
    ensures |s'.table| == |s.table| && Next(Without(s, j), step, Without(s', j))
  {
    if step.kind.StoreLocal? || step.kind.Unprotect? {
      StoreWithout(s, step, j);
    } else if step.kind.Bump? {
      BumpWithout(s, step, j);
    } else {
      assert PcOk(s, s.threads[step.t]);
      OtherWithout(s, step, j);
    }
  }

  /**
    The protection of an unscanned thread is invisible: as long as that thread does not store to
    its entry, the same steps run the same actions from the state in which it is unprotected.
  */
  lemma UnscannedIsInvisible(run: seq<State>, steps: seq<Step>, b: nat, j: nat, bare: seq<State>)
    requires IsRun(run, steps) && b < |run| && Unscanned(run[0], j)
    requires forall k :: b <= k < |steps| ==> !Stores(steps[k], j)
    requires |bare| == |run| - b
    requires forall k :: 0 <= k < |bare| ==> j < |run[b + k].table| && bare[k] == Without(run[b + k], j)
    ensures IsPath(bare, steps[b..])
    ensures forall k, a :: b <= k < |steps| ==>
              (RunsAction(run[k], steps[k], a) <==> RunsAction(bare[k - b], steps[k], a))
  {
    forall k | b <= k < |steps|
      ensures Next(bare[k - b], steps[k], bare[k - b + 1])
      ensures forall a :: RunsAction(run[k], steps[k], a) <==> RunsAction(bare[k - b], steps[k], a)
    {
      InvInRun(run, steps, k);
      CurrentGrows(run, steps, 0, k);
      CurrentGrows(run, steps, 0, k + 1);
      assert bare[k - b] == Without(run[b + (k - b)], j);
      assert bare[k - b + 1] == Without(run[b + (k - b + 1)], j);
      NextWithout(run[k], steps[k], run[k + 1], j);
    }
  }

  /** A bump leaves out thread j, protected then, when it runs its action before j has stored. */
  ghost predicate RunsEarly(run: seq<State>, steps: seq<Step>, b: nat, r: nat, j: nat) {
    && b < r < |steps| < |run| && steps[b].kind.Bump?
    && j < |run[b].table| && run[b].table[j] != UNPROTECTED
    && RunsAction(run[r], steps[r], run[b].current)
    && forall m :: b < m < r ==> !Stores(steps[m], j)
  }

  /** From its initial state, no run runs an action while a bump still waits for j. */
  ghost predicate WaitedFor(init: State, j: nat) {
    forall run, steps, b, r :: IsRun(run, steps) && run[0] == init ==> !RunsEarly(run, steps, b, r, j)
  }

  /** A run from `init` to s that begins with the steps `first` and goes on with steps of u. */
  ghost predicate Reaches(run: seq<State>, steps: seq<Step>, init: State, first: seq<Step>, u: nat, s: State) {
    && IsRun(run, steps) && run[0] == init && run[|steps|] == s
    && first <= steps && forall m :: |first| <= m < |steps| ==> steps[m].t == u
  }

  lemma Go(run: seq<State>, steps: seq<Step>, init: State, first: seq<Step>, u: nat, s: State, kind: Kind)
    returns (run': seq<State>, steps': seq<Step>, s': State)
    requires Reaches(run, steps, init, first, u, s) && Enabled(s, Step(u, kind))
    ensures s' == Apply(s, Step(u, kind)) && Reaches(run', steps', init, first, u, s')
    ensures run <= run' && steps' == steps + [Step(u, kind)]
  {
    s' := Apply(s, Step(u, kind));
    run', steps' := run + [s'], steps + [Step(u, kind)];
  }

  /** Thread j is protected in epoch 1, and u has ended that epoch with an action to register. */
  ghost predicate Bumped(s: State, j: nat, u: nat) {
    && u < |s.threads| <= |s.table| && u != j && j < |s.table| && s.scanned < |s.table|
    && s.current == 2 && |s.drain| > 0
    && s.table[j] == 1 && (forall i :: 0 <= i < |s.table| && i != j ==> s.table[i] == UNPROTECTED || s.table[i] == 2)
  }

  lemma EarlyBump(init: State, j: nat, u: nat) returns (run: seq<State>, steps: seq<Step>, s: State)
    requires Init(init) && j < |init.threads| && u < |init.threads| && u != j
    ensures |steps| == 3 && steps[2].kind.Bump? && Reaches(run, steps, init, steps, u, s)
    ensures run[2].current == 1 && j < |run[2].table| && run[2].table[j] == 1
    ensures |run| > 2 && Bumped(s, j, u) && s.scanned == init.scanned && s.count == 0 && s.drain[0].trigger == Free
    ensures s.threads[u] == CheckingCount(2, Some(1))
  {
    var s1 := Apply(init, Step(j, LoadCurrent(false)));
    var s2 := Apply(s1, Step(j, StoreLocal));
    s := Apply(s2, Step(u, Bump(true)));
    run, steps := [init, s1, s2, s], [Step(j, LoadCurrent(false)), Step(j, StoreLocal), Step(u, Bump(true))];
  }

  lemma EarlyLock(run: seq<State>, steps: seq<Step>, init: State, first: seq<Step>, j: nat, u: nat, s: State)
    returns (run': seq<State>, steps': seq<Step>, s': State)
    requires Reaches(run, steps, init, first, u, s) && Bumped(s, j, u)
    requires s.count == 0 && s.drain[0].trigger == Free && s.threads[u] == CheckingCount(2, Some(1))
    ensures Reaches(run', steps', init, first, u, s') && run <= run' && Bumped(s', j, u)
    ensures s'.scanned == s.scanned && s'.count == 0 && s'.drain == s.drain && s'.threads[u] == PushCas(0, 1)
  {
    run', steps', s' := Go(run, steps, init, first, u, s, CheckCount);
    run', steps', s' := Go(run', steps', init, first, u, s', PushLoad);
    run', steps', s' := Go(run', steps', init, first, u, s', PushCompare);
  }

  lemma EarlyPush(run: seq<State>, steps: seq<Step>, init: State, first: seq<Step>, j: nat, u: nat, s: State)
    returns (run': seq<State>, steps': seq<Step>, s': State)
    requires Reaches(run, steps, init, first, u, s) && Bumped(s, j, u)
    requires s.count == 0 && s.drain[0].trigger == Free && s.threads[u] == PushCas(0, 1)
    ensures Reaches(run', steps', init, first, u, s') && run <= run' && Bumped(s', j, u)
    ensures s'.scanned == s.scanned && s'.count == 1 && s'.drain[0] == DrainSlot(At(1), Some(1)) && s'.threads[u].Idle?
  {
    run', steps', s' := Go(run, steps, init, first, u, s, TryPush);
    run', steps', s' := Go(run', steps', init, first, u, s', PushRelease);
    run', steps', s' := Go(run', steps', init, first, u, s', PushCount);
  }

  lemma EarlyRefresh(run: seq<State>, steps: seq<Step>, init: State, first: seq<Step>, j: nat, u: nat, s: State)
    returns (run': seq<State>, steps': seq<Step>, s': State)
    requires Reaches(run, steps, init, first, u, s) && Bumped(s, j, u) && s.threads[u].Idle?
    requires s.count == 1 && s.drain[0] == DrainSlot(At(1), Some(1))
    ensures Reaches(run', steps', init, first, u, s') && run <= run' && Bumped(s', j, u)
    ensures s'.scanned == s.scanned && s'.drain[0] == s.drain[0] && s'.threads[u] == Scanning(2, 1, None)
  {
    run', steps', s' := Go(run, steps, init, first, u, s, LoadCurrent(true));
    run', steps', s' := Go(run', steps', init, first, u, s', StoreLocal);
    run', steps', s' := Go(run', steps', init, first, u, s', CheckCount);
  }

  lemma {:induction false} EarlyScan(run: seq<State>, steps: seq<Step>, init: State, first: seq<Step>, j: nat, u: nat,
                                     s: State, i: nat)
    returns (run': seq<State>, steps': seq<Step>, s': State)
    requires Reaches(run, steps, init, first, u, s) && Bumped(s, j, u) && Unscanned(s, j)
    requires 1 <= i <= s.scanned + 1 && s.threads[u] == Scanning(2, i, None)
    ensures Reaches(run', steps', init, first, u, s') && run <= run' && Bumped(s', j, u)
    ensures s'.drain == s.drain && s'.threads[u] == Scanning(2, s'.scanned + 1, None)
    decreases s.scanned + 1 - i
  {
    run', steps', s' := run, steps, s;
    if i <= s.scanned {
      run', steps', s' := Go(run', steps', init, first, u, s', ScanEntry);
      run', steps', s' := EarlyScan(run', steps', init, first, j, u, s', i + 1);
    }
  }

  lemma EarlySafe(run: seq<State>, steps: seq<Step>, init: State, first: seq<Step>, j: nat, u: nat, s: State)
    returns (run': seq<State>, steps': seq<Step>, s': State)
    requires Reaches(run, steps, init, first, u, s) && Bumped(s, j, u)
    requires s.drain[0] == DrainSlot(At(1), Some(1)) && s.threads[u] == Scanning(2, s.scanned + 1, None)
    ensures Reaches(run', steps', init, first, u, s') && run <= run' && Bumped(s', j, u)
    ensures s'.drain == s.drain && s'.threads[u] == Popping(0, 1, None)
  {
    run', steps', s' := Go(run, steps, init, first, u, s, ScanDone);
    run', steps', s' := Go(run', steps', init, first, u, s', LoadTrigger);
    run', steps', s' := Go(run', steps', init, first, u, s', Compare);
  }

  lemma EarlyPop(run: seq<State>, steps: seq<Step>, init: State, first: seq<Step>, j: nat, u: nat, s: State)
    returns (run': seq<State>, steps': seq<Step>, s': State)
    requires Reaches(run, steps, init, first, u, s) && Bumped(s, j, u)
    requires s.drain[0] == DrainSlot(At(1), Some(1)) && s.threads[u] == Popping(0, 1, None)
    ensures Reaches(run', steps', init, first, u, s') && run <= run'
    ensures RunsAction(s', Step(u, PopRun), 1)
  {
    run', steps', s' := Go(run, steps, init, first, u, s, PopCas);
    run', steps', s' := Go(run', steps', init, first, u, s', PopRelease);
  }

  /** u registers the action of epoch 1 while j is protected. */
  lemma EarlyRegister(init: State, j: nat, u: nat)
    returns (run: seq<State>, steps: seq<Step>, first: seq<Step>, s: State)
    requires Init(init) && j < |init.threads| && u < |init.threads| && u != j
    ensures |first| == 3 && first[2].kind.Bump? && Reaches(run, steps, init, first, u, s)
    ensures |run| > 2 && run[2].current == 1 && j < |run[2].table| && run[2].table[j] == 1
    ensures Bumped(s, j, u) && s.scanned == init.scanned && |s.table| == |init.table|
    ensures s.count == 1 && s.drain[0] == DrainSlot(At(1), Some(1)) && s.threads[u].Idle?
  {
    run, first, s := EarlyBump(init, j, u);
    run, steps, s := EarlyLock(run, first, init, first, j, u, s);
    run, steps, s := EarlyPush(run, steps, init, first, j, u, s);
    CurrentGrows(run, steps, 0, |steps|);
  }

  lemma EarlyDrain(run: seq<State>, steps: seq<Step>, init: State, first: seq<Step>, j: nat, u: nat, s: State)
    returns (run': seq<State>, steps': seq<Step>, s': State)
    requires Reaches(run, steps, init, first, u, s) && Bumped(s, j, u) && Unscanned(s, j)
    requires s.count == 1 && s.drain[0] == DrainSlot(At(1), Some(1)) && s.threads[u].Idle?
    ensures Reaches(run', steps', init, first, u, s') && run <= run' && RunsAction(s', Step(u, PopRun), 1)
  {
    run', steps', s' := EarlyRefresh(run, steps, init, first, j, u, s);
    run', steps', s' := EarlyScan(run', steps', init, first, j, u, s', 1);
    run', steps', s' := EarlySafe(run', steps', init, first, j, u, s');
    run', steps', s' := EarlyPop(run', steps', init, first, j, u, s');
  }

  lemma EarlyEnd(run: seq<State>, steps: seq<Step>, init: State, first: seq<Step>, j: nat, u: nat, s: State)
    returns (run': seq<State>, steps': seq<Step>)
    requires Reaches(run, steps, init, first, u, s) && RunsAction(s, Step(u, PopRun), 1) && u != j
    requires |first| == 3 && first[2].kind.Bump? && run[2].current == 1 && j < |run[2].table| && run[2].table[j] == 1
    ensures IsRun(run', steps') && run'[0] == init && RunsEarly(run', steps', 2, |steps|, j)
  {
    var last;
    run', steps', last := Go(run, steps, init, first, u, s, PopRun);
    assert run'[2] == run[2] && steps'[2] == first[2];
    assert |steps'| == |steps| + 1 && steps'[|steps|].t == u;
  }

  /** Whatever the sizes, a thread at an unscanned index can be overtaken by an action. */
  lemma UnscannedOvertaken(init: State, j: nat, u: nat)
    returns (run: seq<State>, steps: seq<Step>, b: nat, r: nat)
    requires Init(init) && Unscanned(init, j) && j < |init.threads| && u < |init.threads| && u != j
    ensures IsRun(run, steps) && run[0] == init && RunsEarly(run, steps, b, r, j)
  {
    var run', steps', first, s := EarlyRegister(init, j, u);
    var run'', steps'', s' := EarlyDrain(run', steps', init, first, j, u, s);
    assert run''[2] == run'[2];
    b, r := 2, |steps''|;
    run, steps := EarlyEnd(run'', steps'', init, first, j, u, s');
  }

  /**
    Main result: with two threads or more, the deferred actions wait for the thread at index j
    if and only if the scan reads index j.
  */
  lemma WaitedForIffScanned(init: State, j: nat)
    requires Init(init) && j < |init.threads| && |init.threads| > 1
    ensures WaitedFor(init, j) <==> 1 <= j <= init.scanned
  {
    if 1 <= j <= init.scanned {
      forall run, steps, b, r | IsRun(run, steps) && run[0] == init
        ensures !RunsEarly(run, steps, b, r, j)
      {
        if RunsEarly(run, steps, b, r, j) {
          CurrentGrows(run, steps, 0, b);
          NoActionRunsEarly(run, steps, b, r, j);
        }
      }
    } else {
      var run, steps, b, r := UnscannedOvertaken(init, j, if j == 0 then 1 else 0);
    }
  }
}
