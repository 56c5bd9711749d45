/**
  Record versions across one checkpoint, for one hash entry and the checkpoint lock that guards it.
  Threads read the entry, take the lock their phase demands, allocate a record, which may move
  them to later phases, and install it by compare-and-swap. Read-modify-writes that could not go on
  wait in the thread's retry queue and are retried with the phase and version they started with.

  Versions are counted from the one being checkpointed: 0 is old, 1 is new. The head of the chain
  is in memory, so its version is always seen.
*/
module Cpr {
  // Phases, in the order in which every thread passes through them.
  const REST := 0
  const PREPARE := 1
  const IN_PROGRESS := 2
  const WAIT_PENDING := 3
  const WAIT_FLUSH := 4

  function Version(phase: nat): nat {
    if phase < IN_PROGRESS then 0 else 1
  }

  datatype Held = NoLock | OldLock | NewLock

  /** A new operation, or one taken from the retry queue that started in REST, in PREPARE or in a later phase. */
  datatype Kind = Fresh | RetryRest | RetryPrepare | RetryNew(phase: nat)

  /** A request that is retried with the old version. */
  predicate Old(kind: Kind) {
    kind.RetryRest? || kind.RetryPrepare?
  }

  datatype Pc =
    | Idle
    | Loaded(kind: Kind, expected: nat, latest: nat)
    | Creating(kind: Kind, expected: nat, held: Held)
    | Built(kind: Kind, expected: nat, held: Held, address: nat)

  /**
    `rest` and `prep` count the requests in the thread's retry queue by the phase they started in,
    `marked` its old-lock marks for them; `later` holds the phases of those that started with the
    new version.
  */
  datatype Thread = Thread(phase: nat, pc: Pc, rest: nat, prep: nat, marked: int, later: multiset<nat>)

  datatype Record = Record(version: nat, previous: nat)

  /**
    The record at address a is log[a - 1]; address 0 is invalid. History: the addresses installed,
    whether a new-version record was ever installed, whether a request from REST was ever queued
    after that, and whether a thread ever entered IN_PROGRESS while allocating.
  */
  datatype State = State(
    threads: seq<Thread>, olds: int, news: int, head: nat, log: seq<Record>, installed: seq<nat>,
    newer: bool, early: bool, crossed: bool)

  datatype Step =
    | Refresh(t: nat)
    | Load(t: nat, kind: Kind)
    | InPlace(t: nat)
    | GoPending(t: nat)
    | Decide(t: nat)
    | Allocate(t: nat)
    | Install(t: nat)

  predicate NoneOutstanding(s: State) {
    forall t :: 0 <= t < |s.threads| ==> s.threads[t].rest == 0
  }

  function VersionAt(s: State, address: nat): nat {
    if 0 < address <= |s.log| then s.log[address - 1].version else 0
  }

  /** A thread moves on once every thread has reached its phase, to WAIT_FLUSH once nothing is pending. */
  predicate MayMove(s: State, phase: nat) {
    forall u :: 0 <= u < |s.threads| ==>
      && phase <= s.threads[u].phase
      && (phase == WAIT_PENDING ==>
            s.threads[u].rest == 0 && s.threads[u].prep == 0 && !Retrying(s.threads[u]))
  }

  /** A request taken from the queue may still go back to it. */
  predicate Retrying(th: Thread) {
    th.pc.Loaded? && Old(th.pc.kind)
  }

  predicate Enabled(s: State, step: Step) {
    step.t < |s.threads| &&
    var th := s.threads[step.t];
    match step
    case Refresh(_) => (th.pc.Idle? || th.pc.Creating?) && th.phase <= WAIT_FLUSH && MayMove(s, th.phase)
    case Load(_, kind) =>
      && th.pc.Idle? && (kind.RetryRest? ==> th.rest > 0) && (kind.RetryPrepare? ==> th.prep > 0)
      && (kind.RetryNew? ==> kind.phase in th.later)
    case InPlace(_) => th.pc.Loaded?
    case GoPending(_) => th.pc.Loaded?
    case Decide(_) => th.pc.Loaded?
    case Allocate(_) => th.pc.Creating?
    case Install(_) => th.pc.Built? && th.pc.address <= |s.log|
  }

  function SetThread(s: State, t: nat, th: Thread): State
    requires t < |s.threads|
  {
    s.(threads := s.threads[t := th])
  }

  /**
    Which lock an operation needs, if any. One that may not go on yet shifts to the next version when
    it works in PREPARE, and else goes back to the queue.
  */
  datatype Decision = Wait | Go(held: Held)

  function DecisionFor(s: State, phase: nat, latest: nat): Decision {
    if phase == PREPARE then
      if s.news != 0 || latest > 0 then Wait else Go(OldLock)
    else if phase == IN_PROGRESS && latest == 0 then
      if s.olds != 0 then Wait else Go(NewLock)
    else if phase == WAIT_PENDING && latest == 0 then
      if s.olds != 0 then Wait else Go(NoLock)
    else Go(NoLock)
  }

  function PhaseOf(th: Thread, kind: Kind): nat {
    match kind
    case Fresh => th.phase
    case RetryRest => REST
    case RetryPrepare => PREPARE
    case RetryNew(phase) => phase
  }

  /** How much a lock adds to the two counts. */
  function OldPart(held: Held): int { if held.OldLock? then 1 else 0 }

  function NewPart(held: Held): int { if held.NewLock? then 1 else 0 }

  /** A retried request leaves the queue before it is tried. */
  function Popped(th: Thread, kind: Kind): Thread {
    if kind.RetryRest? && th.rest > 0 then th.(rest := th.rest - 1)
    else if kind.RetryPrepare? && th.prep > 0 then th.(prep := th.prep - 1)
    else if kind.RetryNew? then th.(later := th.later - multiset{kind.phase})
    else th
  }

  /** A retried request that succeeds gives up its mark only if the thread's version has moved on. */
  function Unmarks(th: Thread, success: bool): int {
    if success && !th.pc.Idle? && Old(th.pc.kind) && Version(th.phase) == 1 then 1 else 0
  }

  /** A request goes to the end of the queue, under the phase it started in. */
  function Queued(th: Thread): Thread
    requires !th.pc.Idle?
  {
    var phase := PhaseOf(th, th.pc.kind);
    if phase == REST then th.(pc := Idle, rest := th.rest + 1)
    else if phase == PREPARE then th.(pc := Idle, prep := th.prep + 1)
    else th.(pc := Idle, later := th.later + multiset{phase})
  }

  /** Records in the history that a request from REST is queued after the new version appeared. */
  function Noted(s: State): State {
    s.(early := s.early || (s.newer && !NoneOutstanding(s)))
  }

  function Apply(s: State, step: Step): State
    requires Enabled(s, step)
  {
    var t, th := step.t, s.threads[step.t];
    match step
    case Refresh(_) =>
      var marks := if th.phase == REST then th.rest else 0;
      SetThread(s, t, th.(phase := th.phase + 1, marked := th.marked + marks)).(
        olds := s.olds + marks, crossed := s.crossed || (th.phase == PREPARE && th.pc.Creating?))
    case Load(_, kind) => SetThread(s, t, Popped(th, kind).(pc := Loaded(kind, s.head, VersionAt(s, s.head))))
    case InPlace(_) =>
      SetThread(s, t, th.(pc := Idle, marked := th.marked - Unmarks(th, true))).(olds := s.olds - Unmarks(th, true))
    case GoPending(_) =>
      if th.phase != PREPARE then Noted(SetThread(s, t, Queued(th)))
      else if s.news != 0 then SetThread(s, t, th.(pc := Idle))
      else Noted(SetThread(s, t, Queued(th).(marked := th.marked + 1)).(olds := s.olds + 1))
    case Decide(_) =>
      var phase := PhaseOf(th, th.pc.kind);
      var d := DecisionFor(s, phase, th.pc.latest);
      if d.Wait? then SetThread(s, t, if phase == PREPARE then th.(pc := Idle) else Queued(th))
      else
        SetThread(s, t, th.(pc := Creating(th.pc.kind, th.pc.expected, d.held))).(
          olds := s.olds + OldPart(d.held), news := s.news + NewPart(d.held))
    case Allocate(_) =>
      var version := if th.pc.kind.Fresh? then Version(th.phase) else if Old(th.pc.kind) then 0 else 1;
      SetThread(s, t, th.(pc := Built(th.pc.kind, th.pc.expected, th.pc.held, |s.log| + 1))).(
        log := s.log + [Record(version, th.pc.expected)])
    case Install(_) =>
      var success := s.head == th.pc.expected;
      var s1 := SetThread(s, t, th.(pc := Idle, marked := th.marked - Unmarks(th, success))).(
                  olds := s.olds - OldPart(th.pc.held) - Unmarks(th, success), news := s.news - NewPart(th.pc.held));
      if !success then s1
      else
        var isNew := VersionAt(s, th.pc.address) == 1;
        Noted(s1.(head := th.pc.address, installed := s.installed + [th.pc.address], newer := s.newer || isNew))
  }

  ghost predicate Init(s: State) {
    && (forall t :: 0 <= t < |s.threads| ==> s.threads[t] == Thread(REST, Idle, 0, 0, 0, multiset{}))
    && s.olds == 0 && s.news == 0 && s.head <= |s.log| && s.installed == [] && !s.newer && !s.early && !s.crossed
    && forall a :: 0 <= a < |s.log| ==> s.log[a].version == 0 && s.log[a].previous <= a
  }

  // ---------- Versions follow the phases ----------

  predicate NewPhase(phase: nat, th: Thread) {
    IN_PROGRESS <= phase <= th.phase
  }

  /** Requests of the new version started in a phase the thread has reached. */
  ghost predicate LaterOk(th: Thread) {
    && (forall p :: p in th.later ==> NewPhase(p, th))
    && (!th.pc.Idle? && th.pc.kind.RetryNew? ==> NewPhase(th.pc.kind.phase, th))
  }

  /** What a thread knows of the entry it read, in terms of versions. */
  ghost predicate ReadOk(s: State, th: Thread) {
    && LaterOk(th)
    && match th.pc
       case Idle => true
       case Loaded(kind, expected, latest) =>
         && expected <= |s.log| && latest == VersionAt(s, expected) <= 1
         && (kind.Fresh? && th.phase == REST ==> latest == 0)
         && (kind.RetryRest? && !s.early ==> latest == 0)
       case Creating(kind, expected, _) =>
         && expected <= |s.log| && VersionAt(s, expected) <= 1
         && (kind.Fresh? ==> VersionAt(s, expected) <= Version(th.phase))
         && (kind.RetryPrepare? || (kind.RetryRest? && !s.early) ==> VersionAt(s, expected) == 0)
       case Built(kind, expected, _, address) =>
         && expected < address <= |s.log| && s.log[address - 1].previous == expected && VersionAt(s, expected) <= 1
         && (kind.Fresh? ==> VersionAt(s, expected) <= VersionAt(s, address) <= Version(th.phase))
         && (Old(kind) ==> VersionAt(s, address) == 0)
         && (kind.RetryNew? ==> VersionAt(s, address) == 1)
         && (kind.RetryPrepare? || (kind.RetryRest? && !s.early) ==> VersionAt(s, expected) == 0)
  }

  ghost predicate ReadsOk(s: State) {
    forall t :: 0 <= t < |s.threads| ==> ReadOk(s, s.threads[t])
  }

  ghost predicate Adjacent(s: State) {
    forall t, u :: 0 <= t < |s.threads| && 0 <= u < |s.threads| ==> s.threads[t].phase <= s.threads[u].phase + 1
  }

  /** New-version records exist only once every thread is in PREPARE or later. */
  ghost predicate LogOk(s: State) {
    && s.head <= |s.log|
    && (VersionAt(s, s.head) == 1 ==> s.newer)
    && forall a :: 0 <= a < |s.log| ==>
         && s.log[a].version <= 1
         && (s.log[a].version == 1 ==> forall t :: 0 <= t < |s.threads| ==> PREPARE <= s.threads[t].phase)
  }

  ghost predicate EarlyOk(s: State) {
    && (s.newer && !s.early ==> NoneOutstanding(s) && VersionAt(s, s.head) == 1)
    && (s.newer ==> forall t :: 0 <= t < |s.threads| ==> PREPARE <= s.threads[t].phase)
  }

  /** A record points below itself, to a record of no later version. */
  ghost predicate InOrder(s: State, a: nat) {
    && 0 < a <= |s.log|
    && var p := s.log[a - 1].previous;
       p < a && VersionAt(s, p) <= VersionAt(s, a)
  }

  ghost predicate Ordered(s: State) {
    forall i :: 0 <= i < |s.installed| ==> InOrder(s, s.installed[i])
  }

  ghost predicate Inv(s: State) {
    Adjacent(s) && LogOk(s) && ReadsOk(s) && EarlyOk(s) && (!s.early ==> Ordered(s))
  }

  // ---------- Steps keep the invariant ----------

  /** The log only grows and the history bits only rise. */
  ghost predicate Grows(s: State, s': State) {
    && |s.log| <= |s'.log| && (forall a :: 0 <= a < |s.log| ==> s'.log[a] == s.log[a])
    && (s.early ==> s'.early) && (s.newer ==> s'.newer)
  }

  lemma ReadKept(s: State, s': State, th: Thread)
    requires Grows(s, s') && ReadOk(s, th)
    ensures ReadOk(s', th)
  {
  }

  lemma ReadsKept(s: State, s': State, t: nat)
    requires Grows(s, s') && ReadsOk(s) && t < |s.threads| == |s'.threads|
    requires s'.threads == s.threads[t := s'.threads[t]] && ReadOk(s', s'.threads[t])
    ensures ReadsOk(s')
  {
    forall u | 0 <= u < |s'.threads|
      ensures ReadOk(s', s'.threads[u])
    {
      if u != t {
        ReadKept(s, s', s.threads[u]);
      }
    }
  }

  /** A step that moves no phase, adds no record and installs nothing. */
  lemma QuietStep(s: State, s': State, t: nat)
    requires Inv(s) && t < |s.threads| == |s'.threads| && s'.threads == s.threads[t := s'.threads[t]]
    requires s'.log == s.log && s'.head == s.head && s'.installed == s.installed && s'.newer == s.newer
    requires s.early ==> s'.early
    requires s'.threads[t].phase == s.threads[t].phase
    requires s'.threads[t].rest <= s.threads[t].rest || (s'.newer && !s'.early ==> NoneOutstanding(s'))
    requires ReadOk(s', s'.threads[t])
    ensures Inv(s')
  {
    ReadsKept(s, s', t);
  }

  lemma RefreshStep(s: State, t: nat)
    requires Inv(s) && Enabled(s, Refresh(t))
    ensures Inv(Apply(s, Refresh(t)))
  {
    var s' := Apply(s, Refresh(t));
    assert ReadOk(s, s.threads[t]);
    assert ReadOk(s', s'.threads[t]);
    ReadsKept(s, s', t);
  }

  lemma LoadStep(s: State, t: nat, kind: Kind)
    requires Inv(s) && Enabled(s, Load(t, kind))
    ensures Inv(Apply(s, Load(t, kind)))
  {
    var s' := Apply(s, Load(t, kind));
    assert VersionAt(s, s.head) <= 1;
    assert ReadOk(s', s'.threads[t]);
    QuietStep(s, s', t);
  }

  lemma InPlaceStep(s: State, t: nat)
    requires Inv(s) && Enabled(s, InPlace(t))
    ensures Inv(Apply(s, InPlace(t)))
  {
    assert ReadOk(s, s.threads[t]);
    QuietStep(s, Apply(s, InPlace(t)), t);
  }

  /** What going pending does to the thread, whichever queue it ends in. */
  ghost predicate Suspended(th: Thread, th': Thread) {
    && th'.phase == th.phase && th'.pc.Idle? && LaterOk(th')
    && (th'.rest > th.rest ==> !th.pc.Idle? && PhaseOf(th, th.pc.kind) == REST)
  }

  lemma QueuedSuspends(th: Thread, th': Thread)
    requires LaterOk(th) && th.pc.Loaded?
    requires th' == th.(pc := Idle) || exists m :: th' == Queued(th).(marked := m)
    ensures Suspended(th, th')
  {
  }

  lemma PendingEffect(s: State, t: nat, s': State)
    requires Enabled(s, GoPending(t)) && LaterOk(s.threads[t]) && s' == Apply(s, GoPending(t))
    ensures |s'.threads| == |s.threads| && s'.threads == s.threads[t := s'.threads[t]]
    ensures Suspended(s.threads[t], s'.threads[t])
    ensures s'.log == s.log && s'.head == s.head && s'.installed == s.installed && s'.newer == s.newer
    ensures s'.crossed == s.crossed && (s.early ==> s'.early)
    ensures s'.threads[t].rest <= s.threads[t].rest || (s'.newer && !s'.early ==> NoneOutstanding(s'))
  {
    var th := s.threads[t];
    assert Queued(th) == Queued(th).(marked := th.marked);
    QueuedSuspends(th, s'.threads[t]);
  }

  lemma PendingStep(s: State, t: nat, s': State)
    requires Inv(s) && Enabled(s, GoPending(t)) && s' == Apply(s, GoPending(t))
    ensures Inv(s')
  {
    assert ReadOk(s, s.threads[t]);
    PendingEffect(s, t, s');
    QuietStep(s, s', t);
  }

  lemma DecideStep(s: State, t: nat)
    requires Inv(s) && Enabled(s, Decide(t))
    ensures Inv(Apply(s, Decide(t)))
  {
    assert ReadOk(s, s.threads[t]);
    QuietStep(s, Apply(s, Decide(t)), t);
  }

  lemma OrderedKept(s: State, s': State)
    requires Grows(s, s') && Ordered(s) && s'.installed == s.installed
    ensures Ordered(s')
  {
    forall i | 0 <= i < |s'.installed|
      ensures InOrder(s', s'.installed[i])
    {
      assert InOrder(s, s.installed[i]);
    }
  }

  lemma Appended(s: State, s': State, t: nat, r: Record)
    requires Inv(s) && t < |s.threads| == |s'.threads| && s'.threads == s.threads[t := s'.threads[t]]
    requires s'.threads[t].phase == s.threads[t].phase && s'.threads[t].rest == s.threads[t].rest
    requires s'.log == s.log + [r] && r.version <= Version(s.threads[t].phase) && s'.head == s.head
    requires s'.installed == s.installed && s'.newer == s.newer && s'.early == s.early
    requires ReadOk(s', s'.threads[t])
    ensures Inv(s')
  {
    ReadsKept(s, s', t);
    if !s.early {
      OrderedKept(s, s');
    }
    assert forall u :: 0 <= u < |s.threads| ==> s.threads[t].phase <= s.threads[u].phase + 1;
  }

  lemma AllocateStep(s: State, t: nat)
    requires Inv(s) && Enabled(s, Allocate(t))
    ensures Inv(Apply(s, Allocate(t)))
  {
    var s', th := Apply(s, Allocate(t)), s.threads[t];
    assert ReadOk(s, th);
    assert VersionAt(s', th.pc.expected) == VersionAt(s, th.pc.expected);
    Appended(s, s', t, s'.log[|s.log|]);
  }

  /** What is installed is in order, unless it is the retry of a request from REST. */
  lemma BuiltInOrder(s: State, th: Thread)
    requires ReadOk(s, th) && th.pc.Built?
    ensures !th.pc.kind.RetryRest? || !s.early ==> InOrder(s, th.pc.address)
  {
  }

  lemma InstalledStep(s: State, s': State, t: nat, a: nat)
    requires Inv(s) && t < |s.threads| == |s'.threads| && s'.threads == s.threads[t := s'.threads[t]]
    requires s'.threads[t].phase == s.threads[t].phase && s'.threads[t].rest == s.threads[t].rest
    requires s'.threads[t].pc.Idle? && LaterOk(s'.threads[t])
    requires 0 < a <= |s.log| && s'.log == s.log && s'.head == a && s'.installed == s.installed + [a]
    requires VersionAt(s, a) == 1 ==> IN_PROGRESS <= s.threads[t].phase
    requires s'.newer == (s.newer || VersionAt(s, a) == 1)
    requires s'.early == (s.early || (s'.newer && !NoneOutstanding(s')))
    requires s.log[a - 1].previous == s.head && (!s.early ==> InOrder(s, a))
    ensures Inv(s')
  {
    ReadsKept(s, s', t);
    forall i | !s'.early && 0 <= i < |s'.installed|
      ensures InOrder(s', s'.installed[i])
    {
      assert i < |s.installed| ==> InOrder(s, s.installed[i]);
    }
    assert forall u :: 0 <= u < |s.threads| ==> s.threads[t].phase <= s.threads[u].phase + 1;
  }

  lemma InstallStep(s: State, t: nat)
    requires Inv(s) && Enabled(s, Install(t))
    ensures Inv(Apply(s, Install(t)))
  {
    var s', th := Apply(s, Install(t)), s.threads[t];
    assert ReadOk(s, th);
    if s.head == th.pc.expected {
      BuiltInOrder(s, th);
      InstalledStep(s, s', t, th.pc.address);
    } else {
      QuietStep(s, s', t);
    }
  }

  lemma InvStep(s: State, step: Step)
    requires Inv(s) && Enabled(s, step)
    ensures Inv(Apply(s, step))
  {
    match step
    case Refresh(t) => RefreshStep(s, t);
    case Load(t, kind) => LoadStep(s, t, kind);
    case InPlace(t) => InPlaceStep(s, t);
    case GoPending(t) => PendingStep(s, t, Apply(s, step));
    case Decide(t) => DecideStep(s, t);
    case Allocate(t) => AllocateStep(s, t);
    case Install(t) => InstallStep(s, t);
  }
}
