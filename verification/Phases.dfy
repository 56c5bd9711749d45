/**
  The phase protocol of FASTER's global actions: checkpoints, garbage collection and index
  growth. One system-state word moves along a fixed path of phases; each thread walks the same
  path in its own HandleSpecialPhases, acknowledging phases as it goes, and the word moves on
  when a thread has read every acknowledgement.

  The protected threads are the ones listed in the state, and stay the same during the action.
*/
module Phases {
  import opened Options

  datatype Action = NoAction | CheckpointFull | CheckpointIndex | CheckpointHybridLog | Recover | GC | GrowIndex

  datatype Phase =
    | PrepIndexChkpt | IndexChkpt | Prepare | InProgress | WaitPending | WaitFlush
    | Rest | PersistenceCallback
    | GcIoPending | GcInProgress
    | GrowPrepare | GrowInProgress

  datatype SystemState = SystemState(action: Action, phase: Phase, version: nat)

  /** The case table of the source; None where it asserts false and returns an invalid word. */
  function GetNextState(s: SystemState): Option<SystemState> {
    match s.action
    case CheckpointFull => (
      match s.phase
      case Rest => Some(s.(phase := PrepIndexChkpt))
      case PrepIndexChkpt => Some(s.(phase := IndexChkpt))
      case IndexChkpt => Some(s.(phase := Prepare))
      case Prepare => Some(s.(phase := InProgress, version := s.version + 1))
      case InProgress => Some(s.(phase := WaitPending))
      case WaitPending => Some(s.(phase := WaitFlush))
      case WaitFlush => Some(s.(phase := PersistenceCallback))
      case PersistenceCallback => Some(s.(phase := Rest))
      case _ => None)
    case CheckpointIndex => (
      match s.phase
      case Rest => Some(s.(phase := PrepIndexChkpt))
      case PrepIndexChkpt => Some(s.(phase := IndexChkpt))
      case IndexChkpt => Some(s.(phase := Rest))
      case _ => None)
    case CheckpointHybridLog => (
      match s.phase
      case Rest => Some(s.(phase := Prepare))
      case Prepare => Some(s.(phase := InProgress, version := s.version + 1))
      case InProgress => Some(s.(phase := WaitPending))
      case WaitPending => Some(s.(phase := WaitFlush))
      case WaitFlush => Some(s.(phase := PersistenceCallback))
      case PersistenceCallback => Some(s.(phase := Rest))
      case _ => None)
    case GC => (
      match s.phase
      case Rest => Some(s.(phase := GcIoPending))
      case GcIoPending => Some(s.(phase := GcInProgress))
      case GcInProgress => Some(s.(phase := Rest))
      case _ => None)
    case GrowIndex => (
      match s.phase
      case Rest => Some(s.(phase := GrowPrepare))
      case GrowPrepare => Some(s.(phase := GrowInProgress))
      case GrowInProgress => Some(s.(phase := Rest))
      case _ => None)
    case _ => None
  }

  // ---------- The path of an action ----------

  /** The phases an action goes through after REST and before it returns to REST. */
  function Path(a: Action): seq<Phase> {
    match a
    case CheckpointFull =>
      [PrepIndexChkpt, IndexChkpt, Prepare, InProgress, WaitPending, WaitFlush, PersistenceCallback]
    case CheckpointIndex => [PrepIndexChkpt, IndexChkpt]
    case CheckpointHybridLog => [Prepare, InProgress, WaitPending, WaitFlush, PersistenceCallback]
    case GC => [GcIoPending, GcInProgress]
    case GrowIndex => [GrowPrepare, GrowInProgress]
    case _ => []
  }

  /** An action with its path; from position `turn` on it works on the next version. */
  datatype Plan = Plan(action: Action, path: seq<Phase>, turn: nat)

  function PlanOf(a: Action): Plan {
    Plan(a, Path(a), if a == CheckpointFull then 4 else if a == CheckpointHybridLog then 2 else |Path(a)| + 2)
  }

  /** Position 0 is REST before the action, position |path| + 1 is REST after it. */
  function PhaseAt(p: Plan, k: nat): Phase {
    if 1 <= k <= |p.path| then p.path[k - 1] else Rest
  }

  function VersionAt(p: Plan, v: nat, k: nat): nat {
    if k >= p.turn then v + 1 else v
  }

  function WordAt(p: Plan, v: nat, k: nat): SystemState {
    SystemState(p.action, PhaseAt(p, k), VersionAt(p, v, k))
  }

  lemma PathDistinct(a: Action, i: nat, k: nat)
    requires i <= |Path(a)| && k <= |Path(a)| && PhaseAt(PlanOf(a), i) == PhaseAt(PlanOf(a), k)
    ensures i == k
  {
  }

  /** The case table walks the path: each position's word is followed by the next position's. */
  lemma NextFollowsPath(a: Action, v: nat, k: nat)
    requires k <= |Path(a)| && Path(a) != []
    ensures GetNextState(WordAt(PlanOf(a), v, k)) == Some(WordAt(PlanOf(a), v, k + 1))
  {
  }

  /**
    A thread can catch up from a local phase exactly when that phase is REST or lies on the
    action's path: a thread still in a phase of an earlier action of another kind, such as
    PERSISTENCE_CALLBACK when a garbage collection starts, has no next state.
  */
  lemma CatchUpDefined(a: Action, p: Phase, v: nat)
    requires Path(a) != []
    ensures GetNextState(SystemState(a, p, v)).Some? <==> p == Rest || p in Path(a)
  {
  }

  // ---------- The protocol ----------

  /**
    Where a thread stands: executing operations, or inside HandleSpecialPhases. There it is at
    the top of the catch-up loop, reading the acknowledgements one by one, about to move the
    system state, or about to record the phase it has just handled.
  */
  datatype Pc =
    | Operating
    | Looping(previous: SystemState, final: SystemState)
    | Scanning(current: SystemState, final: SystemState, index: nat)
    | Moving(current: SystemState, final: SystemState)
    | Recording(current: SystemState, final: SystemState)

  /**
    `phase` and `version` are the thread context, `finished` its entry in the epoch table. What
    an iteration writes to the context before recording the phase is left out: no other thread
    reads it, and the record overwrites it before the thread operates again.

    The last four fields are history: the positions on the path of `phase`, of `finished`, of
    the state being handled and of the state the thread is catching up with.
  */
  datatype Thread = Thread(phase: Phase, version: nat, finished: Phase, pc: Pc,
                           position: nat, acked: nat, handling: nat, target: nat)

  /** `position` is history: how far the system state has moved along the path. */
  datatype State = State(plan: Plan, start: nat, system: SystemState, threads: seq<Thread>, position: nat)

  datatype Step =
    | Load(t: nat)
    | Handle(t: nat, ready: bool)
    | ReadAck(t: nat)
    | Move(t: nat)
    | Record(t: nat)
    | Close

  /** The state a loop iteration handles. */
  function Current(previous: SystemState, final: SystemState): Option<SystemState> {
    if previous == final then Some(final) else GetNextState(previous)
  }

  /**
    Does this iteration acknowledge the phase? `ready` stands for what the thread finds outside
    the protocol: pending requests empty, pages flushed, index written, no chunk left to clean.
  */
  predicate Acknowledges(a: Action, previous: Phase, current: Phase, finished: Phase, ready: bool) {
    match current
    case PrepIndexChkpt => previous == Rest
    case IndexChkpt => ready && a == CheckpointIndex
    case Prepare => previous != Prepare
    case InProgress => previous == Prepare
    case WaitPending => finished != WaitPending && ready
    case WaitFlush => finished != WaitFlush && ready
    case PersistenceCallback => previous == WaitFlush
    case GcIoPending => finished != GcIoPending && ready
    case GcInProgress => finished != GcInProgress && ready
    case GrowPrepare => previous == Rest
    case GrowInProgress => true
    case Rest => false
  }

  /** The full checkpoint leaves INDEX_CHKPT as soon as one thread sees the index written. */
  predicate MovesWithoutAcks(a: Action, current: Phase, ready: bool) {
    a == CheckpointFull && current == IndexChkpt && ready
  }

  predicate Enabled(s: State, step: Step) {
    if step.Close? then
      s.system.phase == Rest && s.system.action != NoAction
    else
      step.t < |s.threads| &&
      var pc := s.threads[step.t].pc;
      match step
      case Load(_) => pc.Operating?
      case Handle(_, _) => pc.Looping? && Current(pc.previous, pc.final).Some?
      case ReadAck(_) => pc.Scanning? && pc.index < |s.threads|
      case Move(_) => pc.Moving? && GetNextState(pc.current).Some?
      case Record(_) => pc.Recording?
  }

  function Put(s: State, t: nat, th: Thread): State
    requires t < |s.threads|
  {
    s.(threads := s.threads[t := th])
  }

  function Apply(s: State, step: Step): State
    requires Enabled(s, step)
  {
    if step.Close? then
      s.(system := SystemState(NoAction, Rest, s.system.version))
    else
      var t := step.t;
      var th := s.threads[t];
      match step
      case Load(_) =>
        var final := s.system;
        if final.phase == Rest then
          Put(s, t, th.(phase := Rest, version := final.version, position := s.position))
        else
          Put(s, t, th.(pc := Looping(SystemState(final.action, th.phase, th.version), final), target := s.position))
      case Handle(_, ready) =>
        var current := Current(th.pc.previous, th.pc.final).value;
        var k := if th.pc.previous == th.pc.final then th.position else th.position + 1;
        if Acknowledges(current.action, th.pc.previous.phase, current.phase, th.finished, ready) then
          Put(s, t, th.(finished := current.phase, pc := Scanning(current, th.pc.final, 0), acked := k, handling := k))
        else if MovesWithoutAcks(current.action, current.phase, ready) then
          Put(s, t, th.(pc := Moving(current, th.pc.final), handling := k))
        else
          Put(s, t, th.(pc := Recording(current, th.pc.final), handling := k))
      case ReadAck(_) =>
        if s.threads[th.pc.index].finished != th.pc.current.phase then
          Put(s, t, th.(pc := Recording(th.pc.current, th.pc.final)))
        else if th.pc.index + 1 == |s.threads| then
          Put(s, t, th.(pc := Moving(th.pc.current, th.pc.final)))
        else
          Put(s, t, th.(pc := Scanning(th.pc.current, th.pc.final, th.pc.index + 1)))
      case Move(_) =>
        // compare_exchange_strong on the system state
        var moved := Put(s, t, th.(pc := Recording(th.pc.current, th.pc.final)));
        if s.system == th.pc.current then
          moved.(system := GetNextState(th.pc.current).value, position := s.position + 1)
        else
          moved
      case Record(_) =>
        var current := th.pc.current;
        Put(s, t, th.(phase := current.phase, version := current.version,
                      position := th.handling,
                      pc := if current == th.pc.final then Operating else Looping(current, th.pc.final)))
  }

  ghost predicate Init(s: State) {
    && s.plan == PlanOf(s.plan.action) && s.plan.path != []
    && s.position == 1 && s.system == WordAt(s.plan, s.start, 1)
    && forall t :: 0 <= t < |s.threads| ==>
         s.threads[t] == Thread(Rest, s.start, Rest, Operating, 0, 0, 0, 0)
  }

  // ---------- The invariant ----------

  predicate NeedsAcks(p: Plan, k: nat) {
    !(p.action == CheckpointFull && PhaseAt(p, k) == IndexChkpt)
  }

  ghost predicate AllAcked(s: State, k: nat) {
    forall j :: 0 <= j < |s.threads| ==> s.threads[j].acked >= k
  }

  ghost predicate ContextOk(s: State, th: Thread) {
    && th.position <= s.position <= |s.plan.path| + 1
    && th.phase == PhaseAt(s.plan, th.position)
    && th.version == VersionAt(s.plan, s.start, th.position)
    && th.acked <= s.position && th.acked <= |s.plan.path|
    && th.finished == PhaseAt(s.plan, th.acked)
  }

  /** The thread is handling position `handling` on its way to position `target`. */
  ghost predicate CourseOk(s: State, th: Thread, current: SystemState, final: SystemState) {
    && 1 <= th.handling && th.position <= th.handling <= th.position + 1
    && th.handling <= th.target <= |s.plan.path| && th.target <= s.position
    && current == WordAt(s.plan, s.start, th.handling)
    && final == WordAt(s.plan, s.start, th.target)
    && th.acked <= th.handling
  }

  ghost predicate ThreadOk(s: State, th: Thread) {
    && ContextOk(s, th)
    && match th.pc
       case Operating => th.acked <= th.position
       case Looping(previous, final) =>
         && 1 <= th.target <= |s.plan.path| && th.position <= th.target <= s.position
         && previous == WordAt(s.plan, s.start, th.position)
         && final == WordAt(s.plan, s.start, th.target)
         && th.acked <= th.position
       case Scanning(current, final, index) =>
         && CourseOk(s, th, current, final) && index < |s.threads|
         && forall j :: 0 <= j < index ==> s.threads[j].acked >= th.handling
       case Moving(current, final) =>
         CourseOk(s, th, current, final) && (NeedsAcks(s.plan, th.handling) ==> AllAcked(s, th.handling))
       case Recording(current, final) => CourseOk(s, th, current, final)
  }

  ghost predicate SystemOk(s: State) {
    && 1 <= s.position <= |s.plan.path| + 1
    && (s.system == WordAt(s.plan, s.start, s.position)
        || (s.position == |s.plan.path| + 1
            && s.system == SystemState(NoAction, Rest, VersionAt(s.plan, s.start, s.position))))
    && (forall k :: 1 <= k < s.position && NeedsAcks(s.plan, k) ==> AllAcked(s, k))
  }

  ghost predicate ThreadsOk(s: State) {
    forall t :: 0 <= t < |s.threads| ==> ThreadOk(s, s.threads[t])
  }

  ghost predicate Planned(s: State) {
    s.plan == PlanOf(s.plan.action) && s.plan.path != []
  }

  ghost predicate Inv(s: State) {
    Planned(s) && SystemOk(s) && ThreadsOk(s)
  }

  /** What a step never undoes. */
  ghost predicate Grows(s: State, s': State) {
    && s'.plan == s.plan && s'.start == s.start && |s'.threads| == |s.threads|
    && s.position <= s'.position <= |s.plan.path| + 1
    && forall j :: 0 <= j < |s.threads| ==> s.threads[j].acked <= s'.threads[j].acked
  }

  lemma WordsDistinct(s: State, i: nat, k: nat)
    requires Planned(s) && i <= |s.plan.path| && k <= |s.plan.path|
    requires WordAt(s.plan, s.start, i) == WordAt(s.plan, s.start, k)
    ensures i == k
  {
    PathDistinct(s.plan.action, i, k);
  }

  lemma NoRestOnPath(s: State, k: nat)
    requires Planned(s) && 1 <= k <= |s.plan.path|
    ensures PhaseAt(s.plan, k) != Rest
  {
  }

  lemma GrowsKeeps(s: State, s': State, th: Thread)
    requires Grows(s, s') && ThreadOk(s, th)
    ensures ThreadOk(s', th)
  {
  }

  /** Thread t moved on its own: the system state and the other threads are as before. */
  ghost predicate Quiet(s: State, s': State, t: nat) {
    && t < |s.threads| && Grows(s, s')
    && s'.system == s.system && s'.position == s.position
    && s'.threads == s.threads[t := s'.threads[t]]
  }

  lemma OthersKept(s: State, s': State, t: nat)
    requires ThreadsOk(s) && Grows(s, s') && t < |s.threads|
    requires s'.threads == s.threads[t := s'.threads[t]] && ThreadOk(s', s'.threads[t])
    ensures ThreadsOk(s')
  {
    forall u | 0 <= u < |s'.threads| ensures ThreadOk(s', s'.threads[u]) {
      if u != t {
        GrowsKeeps(s, s', s.threads[u]);
      }
    }
  }

  lemma QuietKeeps(s: State, s': State, t: nat)
    requires SystemOk(s) && ThreadsOk(s) && Quiet(s, s', t) && ThreadOk(s', s'.threads[t])
    ensures SystemOk(s') && ThreadsOk(s')
  {
    OthersKept(s, s', t);
  }

  /** The state an iteration handles is the next one on the path, or the final one. */
  lemma CurrentIsNext(s: State, th: Thread)
    requires Planned(s) && ThreadOk(s, th) && th.pc.Looping?
    ensures th.pc.previous == th.pc.final <==> th.position == th.target
    ensures Current(th.pc.previous, th.pc.final) == Some(WordAt(s.plan, s.start, Ahead(th)))
  {
    if th.pc.previous == th.pc.final {
      WordsDistinct(s, th.position, th.target);
    } else {
      NextFollowsPath(s.plan.action, s.start, th.position);
    }
  }

  function Ahead(th: Thread): nat {
    if th.position == th.target then th.position else th.position + 1
  }

  /** The iterations of the catch-up loop a thread still has to begin. */
  function Distance(th: Thread): int {
    if th.pc.Operating? then 0
    else if th.pc.Looping? then if th.position == th.target then 1 else th.target - th.position
    else th.target - th.handling
  }

  /** A Handle step begins one of the remaining iterations; the other steps of the loop do not. */
  predicate Closer(step: Step, before: Thread, after: Thread) {
    && (step.Handle? ==> Distance(after) == Distance(before) - 1)
    && (step.ReadAck? || step.Record? ==> Distance(after) == Distance(before))
  }

  lemma LoadOwn(s: State, step: Step)
    requires SystemOk(s) && Enabled(s, step) && step.Load? && ThreadOk(s, s.threads[step.t])
    requires s.position <= |s.plan.path| ==> s.system.phase != Rest
    ensures Quiet(s, Apply(s, step), step.t) && ThreadOk(Apply(s, step), Apply(s, step).threads[step.t])
  {
  }

  lemma HandleOwn(s: State, step: Step)
    requires SystemOk(s) && Enabled(s, step) && step.Handle? && ThreadOk(s, s.threads[step.t])
    requires var th := s.threads[step.t];
             && (th.pc.previous == th.pc.final <==> th.position == th.target)
             && Current(th.pc.previous, th.pc.final) == Some(WordAt(s.plan, s.start, Ahead(th)))
    ensures Quiet(s, Apply(s, step), step.t) && ThreadOk(Apply(s, step), Apply(s, step).threads[step.t])
    ensures Closer(step, s.threads[step.t], Apply(s, step).threads[step.t])
  {
  }

  lemma AckRead(s: State, th: Thread)
    requires Planned(s) && ThreadsOk(s) && ThreadOk(s, th) && th.pc.Scanning?
    requires s.threads[th.pc.index].finished == th.pc.current.phase
    ensures s.threads[th.pc.index].acked == th.handling
  {
    assert ThreadOk(s, s.threads[th.pc.index]);
    PathDistinct(s.plan.action, s.threads[th.pc.index].acked, th.handling);
  }

  lemma ReadAckOwn(s: State, step: Step)
    requires SystemOk(s) && Enabled(s, step) && step.ReadAck? && ThreadOk(s, s.threads[step.t])
    requires var th := s.threads[step.t];
             s.threads[th.pc.index].finished == th.pc.current.phase ==> s.threads[th.pc.index].acked == th.handling
    ensures Quiet(s, Apply(s, step), step.t) && ThreadOk(Apply(s, step), Apply(s, step).threads[step.t])
    ensures Closer(step, s.threads[step.t], Apply(s, step).threads[step.t])
  {
  }

  lemma RecordOwn(s: State, step: Step)
    requires SystemOk(s) && Enabled(s, step) && step.Record? && ThreadOk(s, s.threads[step.t])
    requires s.threads[step.t].pc.current == s.threads[step.t].pc.final ==>
               s.threads[step.t].handling == s.threads[step.t].target
    ensures Quiet(s, Apply(s, step), step.t) && ThreadOk(Apply(s, step), Apply(s, step).threads[step.t])
    ensures Closer(step, s.threads[step.t], Apply(s, step).threads[step.t])
  {
  }

  /** The compare-and-swap succeeds only while the system state is at the handled position. */
  lemma MoveOnlyFromHere(s: State, t: nat)
    requires Inv(s) && t < |s.threads| && s.threads[t].pc.Moving? && s.system == s.threads[t].pc.current
    ensures s.position == s.threads[t].handling
  {
    var th := s.threads[t];
    assert ThreadOk(s, th);
    NoRestOnPath(s, th.handling);
    if s.position <= |s.plan.path| {
      WordsDistinct(s, s.position, th.handling);
    }
  }

  lemma MoveKeeps(s: State, step: Step)
    requires SystemOk(s) && ThreadsOk(s) && Enabled(s, step) && step.Move?
    requires var th := s.threads[step.t];
             s.system == th.pc.current ==>
               && s.position == th.handling
               && GetNextState(th.pc.current) == Some(WordAt(s.plan, s.start, th.handling + 1))
    ensures SystemOk(Apply(s, step)) && ThreadsOk(Apply(s, step))
  {
    var s', th := Apply(s, step), s.threads[step.t];
    assert ThreadOk(s, th);
    if s.system == th.pc.current {
      forall k | 1 <= k < s'.position && NeedsAcks(s.plan, k) ensures AllAcked(s', k) {
        assert AllAcked(s, k);
      }
    }
    OthersKept(s, s', step.t);
  }

  lemma InvStep(s: State, step: Step)
    requires Inv(s) && Enabled(s, step)
    ensures Inv(Apply(s, step))
  {
    if step.Close? {
      CloseKeeps(s);
    } else {
      assert ThreadOk(s, s.threads[step.t]);
      if step.Move? {
        if s.system == s.threads[step.t].pc.current {
          MoveOnlyFromHere(s, step.t);
          NextFollowsPath(s.plan.action, s.start, s.position);
        }
        MoveKeeps(s, step);
      } else {
        QuietStep(s, step);
        QuietKeeps(s, Apply(s, step), step.t);
      }
    }
  }

  lemma QuietStep(s: State, step: Step)
    requires Inv(s) && Enabled(s, step) && !step.Close? && !step.Move? && ThreadOk(s, s.threads[step.t])
    ensures Quiet(s, Apply(s, step), step.t) && ThreadOk(Apply(s, step), Apply(s, step).threads[step.t])
    ensures Closer(step, s.threads[step.t], Apply(s, step).threads[step.t])
  {
    var th := s.threads[step.t];
    match step
    case Load(_) =>
      if s.position <= |s.plan.path| {
        NoRestOnPath(s, s.position);
      }
      LoadOwn(s, step);
    case Handle(_, _) =>
      CurrentIsNext(s, th);
      HandleOwn(s, step);
    case ReadAck(_) =>
      if s.threads[th.pc.index].finished == th.pc.current.phase {
        AckRead(s, th);
      }
      ReadAckOwn(s, step);
    case Record(_) =>
      if th.pc.current == th.pc.final {
        WordsDistinct(s, th.handling, th.target);
      }
      RecordOwn(s, step);
  }

  lemma CloseKeeps(s: State)
    requires Inv(s) && Enabled(s, Close)
    ensures Inv(Apply(s, Close))
  {
    if s.position <= |s.plan.path| {
      NoRestOnPath(s, s.position);
    }
    forall u | 0 <= u < |s.threads| ensures ThreadOk(Apply(s, Close), s.threads[u]) {
      GrowsKeeps(s, Apply(s, Close), s.threads[u]);
    }
  }

  // ---------- Runs ----------

  ghost predicate IsRun(run: seq<State>, steps: seq<Step>) {
    && |run| == |steps| + 1
    && Init(run[0])
    && forall i {:trigger steps[i]} ::
         0 <= i < |steps| ==> Enabled(run[i], steps[i]) && run[i + 1] == Apply(run[i], steps[i])
  }

  lemma {:induction false} InvInRun(run: seq<State>, steps: seq<Step>, k: nat)
    requires IsRun(run, steps) && k < |run|
    ensures Inv(run[k])
  {
    if k > 0 {
      InvInRun(run, steps, k - 1);
      InvStep(run[k - 1], steps[k - 1]);
    }
  }

  /** An operating thread is at most one acknowledged phase behind the system state. */
  lemma OperatingNearFront(s: State, t: nat)
    requires SystemOk(s) && ThreadsOk(s) && t < |s.threads| && s.threads[t].pc.Operating?
    ensures s.threads[t].position <= s.position
    ensures forall k :: 1 <= k < s.position && NeedsAcks(s.plan, k) ==> s.threads[t].position >= k
    ensures s.threads[t].phase == PhaseAt(s.plan, s.threads[t].position)
  {
    assert ThreadOk(s, s.threads[t]);
    forall k | 1 <= k < s.position && NeedsAcks(s.plan, k) ensures s.threads[t].position >= k {
      assert AllAcked(s, k);
    }
  }

  predicate IsCheckpoint(a: Action) {
    a == CheckpointFull || a == CheckpointHybridLog
  }

  /** The phases in which other threads may be executing operations while one is in phase p. */
  function Companions(p: Phase): set<Phase> {
    match p
    case InProgress => {Prepare, InProgress, WaitPending}
    case WaitPending => {InProgress, WaitPending, WaitFlush}
    case WaitFlush => {WaitPending, WaitFlush, PersistenceCallback}
    case _ => {}
  }

  lemma NeighboursOnPath(a: Action, front: nat, i: nat, k: nat)
    requires IsCheckpoint(a) && 1 <= front <= |Path(a)| + 1 && i <= front && k <= front
    requires forall j :: 1 <= j < front && NeedsAcks(PlanOf(a), j) ==> i >= j && k >= j
    requires PhaseAt(PlanOf(a), i) in {InProgress, WaitPending, WaitFlush}
    ensures PhaseAt(PlanOf(a), k) in Companions(PhaseAt(PlanOf(a), i))
  {
    var p := PlanOf(a);
    assert front > 1 && NeedsAcks(p, front - 1) ==> i >= front - 1 && k >= front - 1;
    assert front > 2 && NeedsAcks(p, front - 2) ==> i >= front - 2 && k >= front - 2;
  }

  /**
    Main result: during a checkpoint, a thread operating in IN_PROGRESS, WAIT_PENDING or
    WAIT_FLUSH shares the store only with threads at most one phase away.
  */
  lemma PhasesCoexist(run: seq<State>, steps: seq<Step>, k: nat, t: nat, u: nat)
    requires IsRun(run, steps) && k < |run| && IsCheckpoint(run[k].plan.action)
    requires t < |run[k].threads| && u < |run[k].threads|
    requires run[k].threads[t].pc.Operating? && run[k].threads[u].pc.Operating?
    requires run[k].threads[t].phase in {InProgress, WaitPending, WaitFlush}
    ensures run[k].threads[u].phase in Companions(run[k].threads[t].phase)
  {
    InvInRun(run, steps, k);
    OperatingNearFront(run[k], t);
    OperatingNearFront(run[k], u);
    NeighboursOnPath(run[k].plan.action, run[k].position, run[k].threads[t].position, run[k].threads[u].position);
  }

  /** A move of the system state that succeeds. */
  predicate Moves(s: State, step: Step) {
    Enabled(s, step) && step.Move? && s.system == s.threads[step.t].pc.current
  }

  lemma {:induction false} PositionGrows(run: seq<State>, steps: seq<Step>, i: nat, k: nat)
    requires IsRun(run, steps) && i <= k < |run|
    ensures run[i].position <= run[k].position && run[i].plan == run[k].plan && run[i].start == run[k].start
  {
    if i < k {
      PositionGrows(run, steps, i, k - 1);
      assert run[k] == Apply(run[k - 1], steps[k - 1]);
    }
  }

  /** A successful move leaves the state the word is at, for the next position. */
  lemma MoveAdvances(s: State, step: Step, s': State)
    requires Inv(s) && Moves(s, step) && s' == Apply(s, step)
    ensures s.position < s'.position && s.position <= |Path(s.plan.action)| && Planned(s)
    ensures s.system == WordAt(s.plan, s.start, s.position) && s'.plan == s.plan && s'.start == s.start
  {
    assert ThreadOk(s, s.threads[step.t]);
    MoveOnlyFromHere(s, step.t);
  }

  lemma MovesApart(s: State, step: Step, s': State, s2: State, step2: Step)
    requires Inv(s) && Moves(s, step) && s' == Apply(s, step) && Inv(s2) && Moves(s2, step2)
    requires s'.position <= s2.position && s2.plan == s'.plan && s2.start == s'.start
    ensures s.system != s2.system && s.position < s2.position <= |Path(s2.plan.action)|
    ensures s.system == WordAt(s2.plan, s2.start, s.position) && s2.system == WordAt(s2.plan, s2.start, s2.position)
  {
    MoveAdvances(s, step, s');
    MoveAdvances(s2, step2, Apply(s2, step2));
    if s.system == s2.system {
      WordsDistinct(s, s.position, s2.position);
    }
  }

  /** Main result: no global step happens twice; each successful move leaves a later state than the last. */
  lemma NoMoveHappensTwice(run: seq<State>, steps: seq<Step>, i: nat, k: nat)
    requires IsRun(run, steps) && i < k < |steps| && Moves(run[i], steps[i]) && Moves(run[k], steps[k])
    ensures run[i].system != run[k].system
    ensures run[i].position < run[k].position <= |Path(run[k].plan.action)|
    ensures run[i].system == WordAt(run[k].plan, run[k].start, run[i].position)
    ensures run[k].system == WordAt(run[k].plan, run[k].start, run[k].position)
  {
    InvInRun(run, steps, i);
    InvInRun(run, steps, k);
    PositionGrows(run, steps, i + 1, k);
    MovesApart(run[i], steps[i], run[i + 1], run[k], steps[k]);
  }

  lemma DistanceBounds(s: State, th: Thread)
    requires Planned(s) && ThreadOk(s, th)
    ensures 0 <= Distance(th) <= |s.plan.path|
    ensures th.pc.Looping? ==> Distance(th) > 0 && Current(th.pc.previous, th.pc.final).Some?
  {
    if th.pc.Looping? {
      CurrentIsNext(s, th);
    }
  }

  lemma MoveDistance(s: State, step: Step)
    requires Enabled(s, step) && step.Move?
    ensures Distance(Apply(s, step).threads[step.t]) == Distance(s.threads[step.t])
  {
  }

  lemma StepCloser(s: State, step: Step)
    requires Inv(s) && Enabled(s, step) && !step.Close? && !step.Load?
    ensures Distance(Apply(s, step).threads[step.t]) <= Distance(s.threads[step.t])
    ensures step.Handle? ==> Distance(Apply(s, step).threads[step.t]) < Distance(s.threads[step.t])
  {
    assert ThreadOk(s, s.threads[step.t]);
    if step.Move? {
      MoveDistance(s, step);
    } else {
      QuietStep(s, step);
    }
  }

  /**
    Main result: a thread in the catch-up loop always finds a next state, and each iteration
    brings it one step closer to the state it loaded, however far the others have moved.
  */
  lemma CatchUpTerminates(run: seq<State>, steps: seq<Step>, k: nat)
    requires IsRun(run, steps) && k < |steps| && !steps[k].Close? && !steps[k].Load?
    ensures var before, after := run[k].threads[steps[k].t], run[k + 1].threads[steps[k].t];
            && 0 <= Distance(after) <= Distance(before) <= |run[k].plan.path|
            && (steps[k].Handle? ==> Distance(after) < Distance(before))
            && (before.pc.Looping? ==> Distance(before) > 0 && Current(before.pc.previous, before.pc.final).Some?)
  {
    InvInRun(run, steps, k);
    InvInRun(run, steps, k + 1);
    StepCloser(run[k], steps[k]);
    DistanceBounds(run[k], run[k].threads[steps[k].t]);
    DistanceBounds(run[k + 1], run[k + 1].threads[steps[k].t]);
  }
}
