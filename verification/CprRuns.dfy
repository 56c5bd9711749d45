/** Which version every record of a run of Cpr gets, and that no request is lost. */
module CprRuns {
  import opened Cpr
  import opened CprOrder

  // ---------- The version of a record ----------

  /** The phase whose version an operation works in: a retried request keeps the phase it started in. */
  function Working(th: Thread, kind: Kind): nat {
    match kind
    case Fresh => th.phase
    case RetryRest => REST
    case RetryPrepare => PREPARE
    case RetryNew(phase) => phase
  }

  lemma AllocatesNext(s: State, step: Step, s': State)
    requires Inv(s) && Next(s, step, s') && step.Allocate?
    ensures var th := s.threads[step.t];
            && |s'.log| == |s.log| + 1
            && s'.log[|s.log|] == Record(if Working(th, th.pc.kind) >= IN_PROGRESS then 1 else 0, th.pc.expected)
  {
    assert ReadOk(s, s.threads[step.t]);
  }

  lemma LogKept(s: State, step: Step, s': State)
    requires Next(s, step, s')
    ensures |s.log| <= |s'.log| && forall a :: 0 <= a < |s.log| ==> s'.log[a] == s.log[a]
  {
  }

  lemma {:induction false} LogInRun(run: seq<State>, steps: seq<Step>, i: nat, k: nat)
    requires IsPath(run, steps) && i <= k < |run|
    ensures |run[i].log| <= |run[k].log| && forall a :: 0 <= a < |run[i].log| ==> run[k].log[a] == run[i].log[a]
  {
    if i < k {
      LogInRun(run, steps, i, k - 1);
      LogKept(run[k - 1], steps[k - 1], run[k]);
    }
  }

  /**
    Main result: whatever happens afterwards, a record that a new operation allocates is of the new version
    if and only if its thread is then in IN_PROGRESS or later, and a record that a retried request allocates
    if and only if the request started there.
  */
  lemma AllocatedVersion(run: seq<State>, steps: seq<Step>, i: nat, k: nat)
    requires IsRun(run, steps) && i < k < |run| && steps[i].Allocate?
    ensures steps[i].t < |run[i].threads| && run[i].threads[steps[i].t].pc.Creating?
    ensures var th := run[i].threads[steps[i].t];
            && |run[i].log| < |run[k].log|
            && run[k].log[|run[i].log|].version == (if Working(th, th.pc.kind) >= IN_PROGRESS then 1 else 0)
  {
    InvInRun(run, steps, i);
    assert Next(run[i], steps[i], run[i + 1]);
    AllocatesNext(run[i], steps[i], run[i + 1]);
    LogInRun(run, steps, i + 1, k);
  }

  lemma OwnPhase(s: State, step: Step, s': State)
    requires Next(s, step, s')
    ensures s.threads[step.t].phase <= s'.threads[step.t].phase
  {
  }

  lemma PhaseNext(s: State, step: Step, s': State, t: nat)
    requires Next(s, step, s') && t < |s.threads|
    ensures t < |s'.threads| && s.threads[t].phase <= s'.threads[t].phase
  {
    OthersStand(s, step, s');
    OwnPhase(s, step, s');
  }

  lemma {:induction false} PhaseGrows(run: seq<State>, steps: seq<Step>, i: nat, k: nat, t: nat)
    requires IsPath(run, steps) && i <= k < |run| && t < |run[i].threads|
    ensures t < |run[k].threads| && run[i].threads[t].phase <= run[k].threads[t].phase
  {
    if i < k {
      PhaseGrows(run, steps, i, k - 1, t);
      PhaseNext(run[k - 1], steps[k - 1], run[k], t);
    }
  }

  /**
    Main result: no record allocated after its thread entered IN_PROGRESS is of the old version, unless
    it retries an old request.
  */
  lemma NewAfterInProgress(run: seq<State>, steps: seq<Step>, i: nat, m: nat, k: nat, t: nat)
    requires IsRun(run, steps) && i <= m < k < |run| && t < |run[i].threads|
    requires run[i].threads[t].phase >= IN_PROGRESS && steps[m] == Allocate(t)
    ensures t < |run[m].threads| && run[m].threads[t].pc.Creating? && |run[m].log| < |run[k].log|
    ensures run[k].log[|run[m].log|].version == 0 ==> Old(run[m].threads[t].pc.kind)
  {
    PhaseGrows(run, steps, i, m, t);
    AllocatedVersion(run, steps, m, k);
    InvInRun(run, steps, m);
    assert ReadOk(run[m], run[m].threads[t]);
    if run[m].threads[t].pc.kind.RetryNew? {
      NewKindIsNew(run[m], t);
    }
  }

  lemma NewKindIsNew(s: State, t: nat)
    requires t < |s.threads| && ReadOk(s, s.threads[t]) && s.threads[t].pc.Creating?
    requires s.threads[t].pc.kind.RetryNew?
    ensures Working(s.threads[t], s.threads[t].pc.kind) >= IN_PROGRESS
  {
  }

  /** Thread t allocated its record in step m and has done nothing since. */
  ghost predicate AllocatedAt(run: seq<State>, steps: seq<Step>, m: nat, k: nat, t: nat)
    requires IsPath(run, steps) && m < k < |run|
  {
    && steps[m] == Allocate(t) && t < |run[m].threads| && t < |run[k].threads|
    && var th, th' := run[m].threads[t], run[k].threads[t];
       && th'.pc.Built? && th'.pc.address == |run[m].log| + 1 && th'.pc.kind == th.pc.kind
       && th'.pc.expected == th.pc.expected && th'.phase == th.phase
  }

  lemma OwnBuilt(s: State, step: Step, s': State)
    requires Next(s, step, s') && s'.threads[step.t].pc.Built?
    ensures step.Allocate?
  {
  }

  lemma BuiltNext(s: State, step: Step, s': State, t: nat)
    requires Next(s, step, s') && t < |s'.threads| && s'.threads[t].pc.Built?
    ensures t < |s.threads| && (step.t != t ==> s'.threads[t] == s.threads[t])
    ensures step.t == t ==> step.Allocate? && s'.threads[t].phase == s.threads[t].phase
    ensures step.t == t ==> s.threads[t].pc.Creating?
                            && s'.threads[t].pc == Built(s.threads[t].pc.kind, s.threads[t].pc.expected,
                                                         s.threads[t].pc.held, |s.log| + 1)
  {
    OthersStand(s, step, s');
    if step.t == t {
      OwnBuilt(s, step, s');
    }
  }

  lemma {:induction false} BuiltInRun(run: seq<State>, steps: seq<Step>, k: nat, t: nat) returns (m: nat)
    requires IsRun(run, steps) && k < |run| && t < |run[k].threads| && run[k].threads[t].pc.Built?
    ensures m < k && AllocatedAt(run, steps, m, k, t)
  {
    BuiltNext(run[k - 1], steps[k - 1], run[k], t);
    if steps[k - 1].t == t {
      m := k - 1;
    } else {
      m := BuiltInRun(run, steps, k - 1, t);
    }
  }

  /**
    Main result: every record that a new operation installs was allocated by its thread while the thread
    was in the phase it is still in, and is of the new version if and only if that is IN_PROGRESS or later.
    A retried request installs the version of the phase it started in.
  */
  lemma InstalledVersion(run: seq<State>, steps: seq<Step>, k: nat, t: nat)
    requires IsRun(run, steps) && k < |steps| && steps[k] == Install(t) && run[k + 1].installed != run[k].installed
    ensures t < |run[k].threads| && run[k].threads[t].pc.Built? && 0 < run[k + 1].head <= |run[k + 1].log|
    ensures var th := run[k].threads[t];
            && run[k + 1].installed == run[k].installed + [run[k + 1].head]
            && run[k + 1].log[run[k + 1].head - 1]
               == Record(if Working(th, th.pc.kind) >= IN_PROGRESS then 1 else 0, run[k].head)
    ensures exists m :: 0 <= m < k && AllocatedAt(run, steps, m, k, t) && run[k + 1].head == |run[m].log| + 1
  {
    assert Next(run[k], steps[k], run[k + 1]);
    var m := BuiltInRun(run, steps, k, t);
    AllocatedVersion(run, steps, m, k);
    InvInRun(run, steps, k);
    assert ReadOk(run[k], run[k].threads[t]);
  }

  // ---------- No request is lost ----------

  /** The requests of thread t that wait in its retry queue and started in a phase. */
  function Waiting(th: Thread, phase: nat): nat {
    if phase == REST then th.rest else if phase == PREPARE then th.prep else th.later[phase]
  }

  /** Thread t puts its operation into the retry queue: unless a shift of versions makes it start anew. */
  predicate Defers(s: State, step: Step, t: nat, phase: nat) {
    && Enabled(s, step) && step.t == t && (step.GoPending? || step.Decide?)
    && var th := s.threads[t];
       && Working(th, th.pc.kind) == phase
       && if step.GoPending? then th.phase != PREPARE || s.news == 0
          else phase >= IN_PROGRESS && th.pc.latest == 0 && s.olds != 0 && phase <= WAIT_PENDING
  }

  predicate TakesUp(step: Step, t: nat, th: Thread, phase: nat) {
    step.Load? && step.t == t && !step.kind.Fresh? && Working(th, step.kind) == phase
  }

  /** How many of the first k steps defer, and how many take up, a request of thread t from a phase. */
  function Deferred(run: seq<State>, steps: seq<Step>, k: nat, t: nat, phase: nat): nat
    requires |run| == |steps| + 1 && k <= |steps|
  {
    if k == 0 then 0
    else Deferred(run, steps, k - 1, t, phase) + if Defers(run[k - 1], steps[k - 1], t, phase) then 1 else 0
  }

  function TakenUp(run: seq<State>, steps: seq<Step>, k: nat, t: nat, phase: nat): nat
    requires |run| == |steps| + 1 && k <= |steps|
  {
    if k == 0 then 0
    else
      TakenUp(run, steps, k - 1, t, phase)
      + if t < |run[k - 1].threads| && TakesUp(steps[k - 1], t, run[k - 1].threads[t], phase) then 1 else 0
  }

  lemma QueuedWaits(th: Thread, phase: nat)
    requires !th.pc.Idle?
    ensures Waiting(Queued(th), phase) == Waiting(th, phase) + (if Working(th, th.pc.kind) == phase then 1 else 0)
  {
  }

  lemma LoadWaits(s: State, step: Step, s': State, phase: nat)
    requires Next(s, step, s') && step.Load? && (step.kind.RetryNew? ==> step.kind.phase >= IN_PROGRESS)
    ensures var th := s.threads[step.t];
            Waiting(s'.threads[step.t], phase) + (if TakesUp(step, step.t, th, phase) then 1 else 0)
            == Waiting(th, phase)
  {
  }

  lemma PendingWaits(s: State, step: Step, s': State, phase: nat)
    requires Next(s, step, s') && step.GoPending?
    ensures var th := s.threads[step.t];
            Waiting(s'.threads[step.t], phase)
            == Waiting(th, phase) + (if Defers(s, step, step.t, phase) then 1 else 0)
  {
    QueuedWaits(s.threads[step.t], phase);
  }

  lemma DecideWaits(s: State, step: Step, s': State, phase: nat)
    requires Next(s, step, s') && step.Decide?
    ensures var th := s.threads[step.t];
            Waiting(s'.threads[step.t], phase)
            == Waiting(th, phase) + (if Defers(s, step, step.t, phase) then 1 else 0)
  {
    QueuedWaits(s.threads[step.t], phase);
  }

  lemma OtherWaits(s: State, step: Step, s': State, phase: nat)
    requires Next(s, step, s') && !step.Load? && !step.GoPending? && !step.Decide?
    ensures Waiting(s'.threads[step.t], phase) == Waiting(s.threads[step.t], phase)
  {
  }

  lemma WaitingNext(s: State, step: Step, s': State, phase: nat)
    requires Next(s, step, s') && LaterOk(s.threads[step.t])
    ensures var th, th' := s.threads[step.t], s'.threads[step.t];
            Waiting(th', phase) + (if TakesUp(step, step.t, th, phase) then 1 else 0)
            == Waiting(th, phase) + (if Defers(s, step, step.t, phase) then 1 else 0)
  {
    if step.Load? {
      LoadWaits(s, step, s', phase);
    } else if step.GoPending? {
      PendingWaits(s, step, s', phase);
    } else if step.Decide? {
      DecideWaits(s, step, s', phase);
    } else {
      OtherWaits(s, step, s', phase);
    }
  }

  lemma RequestNext(s: State, step: Step, s': State, t: nat, phase: nat)
    requires Inv(s) && Next(s, step, s') && t < |s.threads| == |s'.threads|
    ensures Waiting(s'.threads[t], phase) + (if TakesUp(step, t, s.threads[t], phase) then 1 else 0)
            == Waiting(s.threads[t], phase) + (if Defers(s, step, t, phase) then 1 else 0)
  {
    OthersStand(s, step, s');
    if step.t == t {
      assert ReadOk(s, s.threads[t]);
      WaitingNext(s, step, s', phase);
    }
  }

  /**
    Main result: in every run, the requests of a thread that were deferred under a phase are those it has taken
    up again and those that wait: none is lost, and none is retried as if it had started in another phase.
  */
  lemma {:induction false} RequestsConserved(run: seq<State>, steps: seq<Step>, k: nat, t: nat, phase: nat)
    requires IsRun(run, steps) && k < |run| && t < |run[k].threads|
    ensures Deferred(run, steps, k, t, phase) == TakenUp(run, steps, k, t, phase) + Waiting(run[k].threads[t], phase)
  {
    if k > 0 {
      OthersStand(run[k - 1], steps[k - 1], run[k]);
      RequestsConserved(run, steps, k - 1, t, phase);
      InvInRun(run, steps, k - 1);
      RequestNext(run[k - 1], steps[k - 1], run[k], t, phase);
    }
  }

  // ---------- An operation left alone goes through ----------

  /** No lock of the other version stands in the way, and in PREPARE the head is still of the old version. */
  predicate NothingInTheWay(s: State, phase: nat) {
    && (phase == PREPARE ==> s.news == 0 && VersionAt(s, s.head) == 0)
    && (IN_PROGRESS <= phase <= WAIT_PENDING ==> s.olds == 0 || VersionAt(s, s.head) == 1)
  }

  /** The state after thread t has installed a record by itself and let go of what it held. */
  ghost predicate Updated(s: State, t: nat, kind: Kind, s': State)
    requires t < |s.threads|
  {
    var th := s.threads[t];
    var version := if Working(th, kind) >= IN_PROGRESS then 1 else 0;
    var unmarked := if Old(kind) && th.phase >= IN_PROGRESS then 1 else 0;
    && s'.log == s.log + [Record(version, s.head)] && s'.head == |s'.log| && s'.installed == s.installed + [s'.head]
    && s'.olds == s.olds - unmarked && s'.news == s.news
    && |s'.threads| == |s.threads| && s'.threads == s.threads[t := s'.threads[t]]
    && s'.threads[t].pc.Idle? && s'.threads[t].phase == th.phase && s'.threads[t].marked == th.marked - unmarked
  }

  lemma LoadsAlone(s: State, t: nat, kind: Kind, s1: State)
    requires Enabled(s, Load(t, kind)) && s1 == Apply(s, Load(t, kind))
    ensures |s1.threads| == |s.threads| && s1.threads == s.threads[t := s1.threads[t]]
    ensures s1 == s.(threads := s1.threads)
    ensures var th := s1.threads[t];
            && th.pc == Loaded(kind, s.head, VersionAt(s, s.head))
            && th.phase == s.threads[t].phase && th.marked == s.threads[t].marked
  {
  }

  lemma StartsAlone(s: State, t: nat, s': State)
    requires t < |s.threads| && s.threads[t].pc.Loaded? && s.threads[t].pc.latest == VersionAt(s, s.head) <= 1
    requires NothingInTheWay(s, Working(s.threads[t], s.threads[t].pc.kind)) && s.threads[t].pc.expected == s.head
    requires s' == Apply(s, Decide(t))
    ensures s'.log == s.log && s'.head == s.head && s'.installed == s.installed
    ensures |s'.threads| == |s.threads| && s'.threads == s.threads[t := s'.threads[t]]
    ensures var th := s'.threads[t];
            && th.pc.Creating? && th.pc.kind == s.threads[t].pc.kind && th.pc.expected == s.head
            && th.phase == s.threads[t].phase && th.marked == s.threads[t].marked
            && s'.olds == s.olds + OldPart(th.pc.held) && s'.news == s.news + NewPart(th.pc.held)
  {
  }

  lemma EndsAlone(s: State, t: nat, kind: Kind, s2: State, s3: State, s4: State)
    requires t < |s.threads| == |s2.threads| && s2.threads == s.threads[t := s2.threads[t]]
    requires s2.log == s.log && s2.head == s.head && s2.installed == s.installed
    requires var th := s2.threads[t];
             && th.pc.Creating? && th.pc.kind == kind && th.pc.expected == s.head
             && th.phase == s.threads[t].phase && th.marked == s.threads[t].marked
             && s2.olds == s.olds + OldPart(th.pc.held) && s2.news == s.news + NewPart(th.pc.held)
    requires kind.RetryNew? ==> kind.phase >= IN_PROGRESS
    requires Enabled(s2, Allocate(t)) && s3 == Apply(s2, Allocate(t))
    requires Enabled(s3, Install(t)) && s4 == Apply(s3, Install(t))
    ensures Updated(s, t, kind, s4)
  {
  }

  /**
    Main result: an operation with nothing in its way that runs by itself installs its record over the head
    it finds, with the version of its phase, and leaves the locks as they were but for the mark of an old request.
  */
  lemma UpdateAlone(s: State, t: nat, kind: Kind) returns (path: seq<State>, steps: seq<Step>)
    requires Inv(s) && Enabled(s, Load(t, kind)) && NothingInTheWay(s, Working(s.threads[t], kind))
    ensures IsPath(path, steps) && path[0] == s && Updated(s, t, kind, path[|steps|])
  {
    assert ReadOk(s, s.threads[t]);
    var s1 := Apply(s, Load(t, kind));
    LoadsAlone(s, t, kind, s1);
    assert VersionAt(s, s.head) <= 1;
    var s2 := Apply(s1, Decide(t));
    StartsAlone(s1, t, s2);
    var s3 := Apply(s2, Allocate(t));
    var s4 := Apply(s3, Install(t));
    EndsAlone(s, t, kind, s2, s3, s4);
    path, steps := [s4], [];
    path, steps := Prepend(s3, Install(t), path, steps);
    path, steps := Prepend(s2, Allocate(t), path, steps);
    path, steps := Prepend(s1, Decide(t), path, steps);
    path, steps := Prepend(s, Load(t, kind), path, steps);
  }
}
