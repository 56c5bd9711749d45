/**
  What has been done when an action of the phase protocol leaves a phase, and that every run can be
  continued until the action is over.
*/
module PhaseRuns {
  import opened Options
  import opened Phases

  // ---------- No phase is left before its work is done ----------

  /** Thread t handles phase p. */
  predicate Handles(s: State, step: Step, t: nat, p: Phase) {
    && Enabled(s, step) && step.Handle? && step.t == t
    && Current(s.threads[t].pc.previous, s.threads[t].pc.final).value.phase == p
  }

  /** Thread t handles phase p and finds the phase's work done. */
  predicate FindsReady(s: State, step: Step, t: nat, p: Phase) {
    Handles(s, step, t, p) && step.ready
  }

  /** Phases that wait for something outside the protocol, for every thread to see. */
  predicate Waits(a: Action, p: Phase) {
    p in {WaitPending, WaitFlush, GcIoPending, GcInProgress} || (a == CheckpointIndex && p == IndexChkpt)
  }

  /** What an acknowledgement of phase p is given for. */
  predicate Justifies(s: State, step: Step, t: nat, p: Phase) {
    Handles(s, step, t, p) && (Waits(s.plan.action, p) ==> step.ready)
  }

  ghost predicate Justified(run: seq<State>, steps: seq<Step>, k: nat, t: nat, p: Phase)
    requires |run| == |steps| + 1 && k < |run|
  {
    exists m {:trigger steps[m]} :: 0 <= m < k && Justifies(run[m], steps[m], t, p)
  }

  /** Only handling a phase acknowledges it. */
  lemma AckedByHandle(s: State, step: Step, s': State, t: nat)
    requires Enabled(s, step) && s' == Apply(s, step) && t < |s.threads| && s.threads[t].acked != s'.threads[t].acked
    ensures step.Handle? && step.t == t
  {
  }

  /** The state an iteration handles is the one at the position ahead. */
  predicate OnPath(s: State, th: Thread) {
    && th.pc.Looping?
    && (th.pc.previous == th.pc.final <==> th.position == th.target)
    && Current(th.pc.previous, th.pc.final) == Some(WordAt(s.plan, s.start, Ahead(th)))
  }

  lemma LoopsOnPath(s: State, t: nat)
    requires Inv(s) && t < |s.threads| && s.threads[t].pc.Looping?
    ensures OnPath(s, s.threads[t])
  {
    assert ThreadOk(s, s.threads[t]);
    CurrentIsNext(s, s.threads[t]);
  }

  lemma HandleAcks(s: State, step: Step, s': State)
    requires Enabled(s, step) && s' == Apply(s, step) && step.Handle? && OnPath(s, s.threads[step.t])
    requires s.threads[step.t].acked != s'.threads[step.t].acked
    ensures s'.threads[step.t].acked == Ahead(s.threads[step.t])
    ensures Justifies(s, step, step.t, PhaseAt(s.plan, Ahead(s.threads[step.t])))
  {
  }

  lemma AckJustified(s: State, step: Step, s': State, t: nat, k: nat)
    requires Enabled(s, step) && s' == Apply(s, step) && t < |s.threads|
    requires s.threads[t].acked < k <= s'.threads[t].acked
    requires s.threads[t].pc.Looping? ==> OnPath(s, s.threads[t]) && Ahead(s.threads[t]) <= k
    ensures Justifies(s, step, t, PhaseAt(s.plan, k))
  {
    AckedByHandle(s, step, s', t);
    HandleAcks(s, step, s');
  }

  /** A thread that is to handle a later position has acknowledged this one. */
  lemma AckedBehind(s: State, t: nat, k: nat)
    requires Inv(s) && t < |s.threads| && 1 <= k && NeedsAcks(s.plan, k)
    ensures s.threads[t].pc.Looping? ==> OnPath(s, s.threads[t])
    ensures s.threads[t].pc.Looping? && s.threads[t].acked < k ==> Ahead(s.threads[t]) <= k
  {
    assert ThreadOk(s, s.threads[t]);
    if s.threads[t].pc.Looping? {
      LoopsOnPath(s, t);
      assert k < Ahead(s.threads[t]) ==> AllAcked(s, k);
    }
  }

  lemma {:induction false} AcksJustified(run: seq<State>, steps: seq<Step>, k: nat, t: nat, p: nat)
    requires IsRun(run, steps) && k < |run| && t < |run[k].threads|
    requires 1 <= p && NeedsAcks(run[k].plan, p) && run[k].threads[t].acked >= p
    ensures Justified(run, steps, k, t, PhaseAt(run[k].plan, p))
  {
    if k > 0 {
      var s, step := run[k - 1], steps[k - 1];
      InvInRun(run, steps, k - 1);
      SameThreads(s, step, run[k]);
      if s.threads[t].acked >= p {
        AcksJustified(run, steps, k - 1, t, p);
      } else {
        AckedBehind(s, t, p);
        AckJustified(s, step, run[k], t, p);
      }
    }
  }

  /**
    Main result: when the system has left a phase, every thread has handled it; and if the phase waits
    for pending requests, flushes, an index checkpoint or a collection, every thread has found that done.
  */
  lemma LeftWhenDone(run: seq<State>, steps: seq<Step>, k: nat, t: nat, p: nat)
    requires IsRun(run, steps) && k < |run| && t < |run[k].threads|
    requires 1 <= p < run[k].position && NeedsAcks(run[k].plan, p)
    ensures Justified(run, steps, k, t, PhaseAt(run[k].plan, p))
  {
    InvInRun(run, steps, k);
    assert AllAcked(run[k], p);
    AcksJustified(run, steps, k, t, p);
  }

  /** Some thread has handled phase p and found its work done. */
  ghost predicate SomeReady(run: seq<State>, steps: seq<Step>, k: nat, p: Phase)
    requires |run| == |steps| + 1 && k < |run|
  {
    exists m {:trigger steps[m]} ::
      0 <= m < k && !steps[m].Close? && FindsReady(run[m], steps[m], steps[m].t, p)
  }

  /** The system has left position p, or thread t is about to take it on from there. */
  ghost predicate Leaves(s: State, p: nat) {
    || s.position > p
    || exists t {:trigger s.threads[t]} ::
         0 <= t < |s.threads| && (s.threads[t].pc.Moving? || s.threads[t].pc.Scanning?) && s.threads[t].handling == p
  }

  /** No acknowledgement is read at this phase: a thread that leaves it has found its work done. */
  lemma HandleLeaves(s: State, step: Step, s': State, p: nat)
    requires Enabled(s, step) && s' == Apply(s, step) && step.Handle? && !NeedsAcks(s.plan, p)
    requires Leaves(s', p) && !Leaves(s, p) && OnPath(s, s.threads[step.t])
    ensures FindsReady(s, step, step.t, IndexChkpt)
  {
    assert forall t :: 0 <= t < |s.threads| && t != step.t ==> s'.threads[t] == s.threads[t];
  }

  lemma LeavesReady(s: State, step: Step, s': State, p: nat)
    requires Inv(s) && Enabled(s, step) && s' == Apply(s, step)
    requires !NeedsAcks(s.plan, p) && Leaves(s', p) && !Leaves(s, p)
    ensures !step.Close? && FindsReady(s, step, step.t, IndexChkpt)
  {
    if !step.Close? {
      if step.Handle? {
        LoopsOnPath(s, step.t);
        HandleLeaves(s, step, s', p);
      } else {
        StillLeaves(s, step, s', p);
      }
    }
  }

  lemma StillLeaves(s: State, step: Step, s': State, p: nat)
    requires Inv(s) && Enabled(s, step) && s' == Apply(s, step) && !step.Close? && !step.Handle? && Leaves(s', p)
    ensures Leaves(s, p)
  {
    if step.Move? && s.system == s.threads[step.t].pc.current {
      MoveOnlyFromHere(s, step.t);
    }
    assert forall t :: 0 <= t < |s.threads| && t != step.t ==> s'.threads[t] == s.threads[t];
  }

  /** Main result: the full checkpoint leaves INDEX_CHKPT only after some thread found the index written. */
  lemma {:induction false} IndexWritten(run: seq<State>, steps: seq<Step>, k: nat, p: nat)
    requires IsRun(run, steps) && k < |run| && !NeedsAcks(run[k].plan, p) && Leaves(run[k], p)
    ensures SomeReady(run, steps, k, IndexChkpt)
  {
    if k > 0 {
      InvInRun(run, steps, k - 1);
      PositionGrows(run, steps, k - 1, k);
      if Leaves(run[k - 1], p) {
        IndexWritten(run, steps, k - 1, p);
      } else {
        LeavesReady(run[k - 1], steps[k - 1], run[k], p);
      }
    }
  }

  // ---------- Every run can be continued until the action is over ----------

  ghost predicate IsPath(path: seq<State>, steps: seq<Step>, s: State, s': State) {
    && |path| == |steps| + 1 && path[0] == s && path[|steps|] == s'
    && forall i {:trigger steps[i]} ::
         0 <= i < |steps| ==> Enabled(path[i], steps[i]) && path[i + 1] == Apply(path[i], steps[i])
  }

  ghost predicate Reaches(s: State, s': State) {
    exists path: seq<State>, steps: seq<Step> :: IsPath(path, steps, s, s')
  }

  lemma ReachesItself(s: State)
    ensures Reaches(s, s)
  {
    assert IsPath([s], [], s, s);
  }

  lemma ReachesNext(s: State, step: Step, s': State)
    requires Enabled(s, step) && s' == Apply(s, step)
    ensures Reaches(s, s')
  {
    assert IsPath([s, s'], [step], s, s');
  }

  lemma ReachesOn(s: State, s1: State, s2: State)
    requires Reaches(s, s1) && Reaches(s1, s2)
    ensures Reaches(s, s2)
  {
    var path: seq<State>, steps: seq<Step> :| IsPath(path, steps, s, s1);
    var path2: seq<State>, steps2: seq<Step> :| IsPath(path2, steps2, s1, s2);
    var path', steps' := path + path2[1..], steps + steps2;
    var n := |steps|;
    assert forall i :: n <= i < |path'| ==> path'[i] == path2[i - n];
    forall i {:trigger steps'[i]} | 0 <= i < |steps'|
      ensures Enabled(path'[i], steps'[i]) && path'[i + 1] == Apply(path'[i], steps'[i])
    {
      if i < n {
        assert steps'[i] == steps[i] && path'[i] == path[i] && path'[i + 1] == path[i + 1];
      } else {
        assert steps'[i] == steps2[i - n] && path'[i + 1] == path2[i - n + 1];
      }
    }
    assert IsPath(path', steps', s, s2);
  }

  /** Phases that a thread acknowledges when it first handles them, and only then. */
  predicate OneShot(p: Phase) {
    p in {PrepIndexChkpt, Prepare, InProgress, PersistenceCallback, GrowPrepare}
  }

  lemma OneShotAcks(a: Action, k: nat, finished: Phase, ready: bool)
    requires k < |Path(a)| && OneShot(PhaseAt(PlanOf(a), k + 1))
    ensures Acknowledges(a, PhaseAt(PlanOf(a), k), PhaseAt(PlanOf(a), k + 1), finished, ready)
  {
  }

  /** A thread past its first handling of a phase acknowledged then has acknowledged it. */
  ghost predicate Started(p: Plan, th: Thread) {
    && (OneShot(PhaseAt(p, th.position)) ==> th.acked >= th.position)
    && (!th.pc.Operating? && !th.pc.Looping? && OneShot(PhaseAt(p, th.handling)) ==> th.acked >= th.handling)
  }

  predicate Carries(s: State, t: nat) {
    t < |s.threads| && (s.threads[t].pc.Moving? || s.threads[t].pc.Scanning?) && s.threads[t].handling == s.position
  }

  /** When all have acknowledged the current phase, some thread is still to find that out. */
  ghost predicate Carried(s: State) {
    |s.threads| > 0 && AllAcked(s, s.position) ==> exists t :: Carries(s, t)
  }

  ghost predicate AllStarted(s: State) {
    forall t :: 0 <= t < |s.threads| ==> Started(s.plan, s.threads[t])
  }

  ghost predicate Live(s: State) {
    Inv(s) && Carried(s) && AllStarted(s)
  }

  lemma StartedKept(s: State, step: Step, s': State, t: nat)
    requires SystemOk(s) && Enabled(s, step) && s' == Apply(s, step) && t < |s.threads|
    requires Started(s.plan, s.threads[t]) && ThreadOk(s, s.threads[t])
    requires s.position <= |s.plan.path| ==> s.system.phase != Rest
    requires step.Handle? ==> step.t != t
    ensures Started(s'.plan, s'.threads[t])
  {
  }

  lemma StartedStep(s: State, step: Step, s': State, t: nat)
    requires Inv(s) && AllStarted(s) && Enabled(s, step) && s' == Apply(s, step) && t < |s.threads| == |s'.threads|
    ensures Started(s'.plan, s'.threads[t])
  {
    assert Started(s.plan, s.threads[t]) && ThreadOk(s, s.threads[t]);
    if step.Handle? && step.t == t {
      LoopsOnPath(s, t);
      HandleEffect(s, step, s');
      HandleStarts(s, s.threads[t], s'.threads[t], step.ready);
    } else {
      if s.position <= |s.plan.path| {
        NoRestOnPath(s, s.position);
      }
      StartedKept(s, step, s', t);
    }
  }

  /** What handling a phase does to the thread. */
  lemma HandleEffect(s: State, step: Step, s': State)
    requires Enabled(s, step) && s' == Apply(s, step) && step.Handle? && OnPath(s, s.threads[step.t])
    requires s.threads[step.t].pc.previous.phase == PhaseAt(s.plan, s.threads[step.t].position)
    ensures s'.plan == s.plan && |s'.threads| == |s.threads|
    ensures HandledTo(s.plan, s.threads[step.t], s'.threads[step.t], step.ready)
  {
  }

  ghost predicate HandledTo(p: Plan, th: Thread, th': Thread, ready: bool) {
    var phase := PhaseAt(p, Ahead(th));
    && th'.position == th.position && th'.target == th.target && th'.handling == Ahead(th)
    && !th'.pc.Operating? && !th'.pc.Looping?
    && if Acknowledges(p.action, PhaseAt(p, th.position), phase, th.finished, ready) then th'.acked == Ahead(th)
       else th'.acked == th.acked && (if MovesWithoutAcks(p.action, phase, ready) then th'.pc.Moving?
                                      else th'.pc.Recording?)
  }

  lemma HandleStarts(s: State, th: Thread, th': Thread, ready: bool)
    requires Planned(s) && ThreadOk(s, th) && th.pc.Looping? && Started(s.plan, th)
    requires HandledTo(s.plan, th, th', ready)
    ensures Started(s.plan, th')
  {
    if th.position < th.target && OneShot(PhaseAt(s.plan, th.position + 1)) {
      OneShotAcks(s.plan.action, th.position, th.finished, ready);
    }
  }

  /** The step a thread takes next. */
  function Own(th: Thread, t: nat): Step {
    match th.pc
    case Operating => Load(t)
    case Looping(_, _) => Handle(t, true)
    case Scanning(_, _, _) => ReadAck(t)
    case Moving(_, _) => Move(t)
    case Recording(_, _) => Record(t)
  }

  lemma OwnEnabled(s: State, t: nat)
    requires Inv(s) && t < |s.threads|
    ensures Enabled(s, Own(s.threads[t], t))
  {
    assert ThreadOk(s, s.threads[t]);
    if s.threads[t].pc.Looping? {
      CurrentIsNext(s, s.threads[t]);
    } else if s.threads[t].pc.Moving? {
      NextFollowsPath(s.plan.action, s.start, s.threads[t].handling);
    }
  }

  // Every step keeps a carrier.

  /** A thread about to move the system from its position does so. */
  lemma CarrierMoves(s: State, t: nat)
    requires Inv(s) && Carries(s, t) && s.threads[t].pc.Moving?
    ensures Enabled(s, Move(t)) && Apply(s, Move(t)).position == s.position + 1
  {
    assert ThreadOk(s, s.threads[t]);
    NextFollowsPath(s.plan.action, s.start, s.position);
  }

  lemma AckFound(s: State, th: Thread, u: Thread)
    requires ThreadOk(s, th) && ThreadOk(s, u) && th.pc.Scanning? && th.handling == s.position <= u.acked
    ensures u.finished == th.pc.current.phase
  {
  }

  lemma CarrierScans(s: State, t: nat)
    requires Inv(s) && AllAcked(s, s.position) && Carries(s, t) && s.threads[t].pc.Scanning?
    ensures Enabled(s, ReadAck(t)) && Carries(Apply(s, ReadAck(t)), t)
  {
    OwnEnabled(s, t);
    AckFound(s, s.threads[t], s.threads[s.threads[t].pc.index]);
  }

  lemma CarriedByScan(s: State, step: Step, s': State, t: nat)
    requires Inv(s) && Enabled(s, step) && s' == Apply(s, step) && AllAcked(s, s.position) && Carries(s, t)
    ensures s'.position == s.position ==> Carries(s', t)
  {
    if !step.Close? && step.t == t {
      if step.Move? {
        CarrierMoves(s, t);
      } else {
        CarrierScans(s, t);
      }
    }
  }

  lemma HandlerCarries(s: State, step: Step, s': State)
    requires Enabled(s, step) && s' == Apply(s, step) && step.Handle?
    requires s.threads[step.t].acked < s.position <= s'.threads[step.t].acked <= s'.position == s.position
    ensures Carries(s', step.t)
  {
  }

  lemma AckerCarries(s: State, step: Step, s': State)
    requires ThreadsOk(s') && Enabled(s, step) && s' == Apply(s, step)
    requires |s'.threads| == |s.threads| && s'.position == s.position
    requires !AllAcked(s, s.position) && AllAcked(s', s.position)
    ensures !step.Close? && Carries(s', step.t)
  {
    var t :| 0 <= t < |s.threads| && s.threads[t].acked < s.position;
    AckedByHandle(s, step, s', t);
    assert s'.threads[t].acked >= s.position && ThreadOk(s', s'.threads[t]);
    HandlerCarries(s, step, s');
  }

  lemma CarriedOn(s: State, step: Step, s': State)
    requires Inv(s) && Carried(s) && Enabled(s, step) && s' == Apply(s, step) && |s.threads| > 0
    requires AllAcked(s, s.position) && s'.position == s.position
    ensures exists t :: Carries(s', t)
  {
    var t :| Carries(s, t);
    CarriedByScan(s, step, s', t);
  }

  lemma CarriedStep(s: State, step: Step, s': State)
    requires Inv(s) && Inv(s') && Carried(s) && Enabled(s, step) && s' == Apply(s, step) && |s'.threads| == |s.threads|
    ensures Carried(s')
  {
    if |s.threads| > 0 && AllAcked(s', s'.position) {
      NotYetAcked(s, step, s');
      if AllAcked(s, s.position) {
        CarriedOn(s, step, s');
      } else {
        AckerCarries(s, step, s');
      }
    }
  }

  /** No thread has acknowledged a phase that the system is just entering. */
  lemma NotYetAcked(s: State, step: Step, s': State)
    requires ThreadsOk(s) && Enabled(s, step) && s' == Apply(s, step)
    ensures s'.position != s.position ==> !AllAcked(s', s'.position)
  {
    if s'.position != s.position {
      assert ThreadOk(s, s.threads[step.t]);
      assert s'.threads[step.t].acked < s'.position;
    }
  }

  lemma SameThreads(s: State, step: Step, s': State)
    requires Enabled(s, step) && s' == Apply(s, step)
    ensures |s'.threads| == |s.threads| && s'.plan == s.plan
  {
  }

  lemma LiveStep(s: State, step: Step, s': State)
    requires Live(s) && Enabled(s, step) && s' == Apply(s, step)
    ensures Live(s')
  {
    InvStep(s, step);
    SameThreads(s, step, s');
    CarriedStep(s, step, s');
    forall t | 0 <= t < |s'.threads|
      ensures Started(s'.plan, s'.threads[t])
    {
      StartedStep(s, step, s', t);
    }
  }

  lemma {:induction false} LiveInRun(run: seq<State>, steps: seq<Step>, k: nat)
    requires IsRun(run, steps) && k < |run|
    ensures Live(run[k])
  {
    if k > 0 {
      LiveInRun(run, steps, k - 1);
      LiveStep(run[k - 1], steps[k - 1], run[k]);
    } else {
      InvInRun(run, steps, k);
      assert |run[k].threads| > 0 ==> run[k].threads[0].acked < 1;
    }
  }

  // A thread goes on by itself.

  /** Within an iteration, the steps that remain. */
  function Remaining(s: State, th: Thread): nat {
    match th.pc
    case Scanning(_, _, index) => if index < |s.threads| then |s.threads| - index + 2 else 2
    case Moving(_, _) => 2
    case Recording(_, _) => 1
    case _ => 0
  }

  /** Thread t takes its next step, and only thread t moves. */
  ghost predicate Proceeds(s: State, t: nat, s': State) {
    && t < |s.threads| == |s'.threads| && !s.threads[t].pc.Operating?
    && var step := Own(s.threads[t], t);
       Enabled(s, step) && s' == Apply(s, step)
  }

  lemma ProceedsFrame(s: State, t: nat, s': State)
    requires Proceeds(s, t, s')
    ensures |s'.threads| == |s.threads| && s'.threads == s.threads[t := s'.threads[t]] && s'.plan == s.plan
    ensures s.position <= s'.position
    ensures !s.threads[t].pc.Looping? ==> Remaining(s', s'.threads[t]) < Remaining(s, s.threads[t])
  {
  }

  lemma ProceedsCloser(s: State, t: nat, s': State)
    requires Inv(s) && Inv(s') && Proceeds(s, t, s')
    ensures 0 <= Distance(s'.threads[t]) <= Distance(s.threads[t])
    ensures Distance(s'.threads[t]) == Distance(s.threads[t]) ==>
              Remaining(s', s'.threads[t]) < Remaining(s, s.threads[t])
  {
    ProceedsFrame(s, t, s');
    StepCloser(s, Own(s.threads[t], t));
    DistanceBounds(s', s'.threads[t]);
  }

  /** Thread t has done its part for the system to leave position p. */
  ghost predicate Done(s: State, t: nat, p: nat)
    requires t < |s.threads|
  {
    var th := s.threads[t];
    s.position > p || (if NeedsAcks(s.plan, p) then th.acked >= p else th.pc.Moving? && th.handling == p)
  }

  /** Thread t has done its part for position p, or is on its way there. */
  ghost predicate OnCourse(s: State, t: nat, p: nat)
    requires t < |s.threads|
  {
    var th := s.threads[t];
    Done(s, t, p) || (!th.pc.Operating? && th.target == p && (th.pc.Looping? || th.handling < p))
  }

  lemma AckedGrows(s: State, t: nat, s': State)
    requires Inv(s) && Proceeds(s, t, s')
    ensures s.threads[t].acked <= s'.threads[t].acked
  {
    assert ThreadOk(s, s.threads[t]);
    if s.threads[t].acked != s'.threads[t].acked {
      AckedByHandle(s, Own(s.threads[t], t), s', t);
      LoopsOnPath(s, t);
      HandleAcks(s, Own(s.threads[t], t), s');
    }
  }

  lemma DoneKept(s: State, t: nat, p: nat, s': State)
    requires Inv(s) && Proceeds(s, t, s') && Done(s, t, p) && p <= s.position
    ensures Done(s', t, p)
  {
    ProceedsFrame(s, t, s');
    if s.position <= p && NeedsAcks(s.plan, p) {
      AckedGrows(s, t, s');
    } else if s.position <= p {
      CarrierMoves(s, t);
    }
  }

  /** The iteration that handles the position the thread aims for does the thread's part. */
  lemma LastHandleDoes(a: Action, k: nat, same: bool, finished: Phase)
    requires 1 <= k <= |Path(a)| && (NeedsAcks(PlanOf(a), k) ==> finished != PhaseAt(PlanOf(a), k))
    requires OneShot(PhaseAt(PlanOf(a), k)) ==> !same
    ensures var p := PlanOf(a);
            var acks := Acknowledges(a, PhaseAt(p, if same then k else k - 1), PhaseAt(p, k), finished, true);
            acks == NeedsAcks(p, k) && (!acks ==> MovesWithoutAcks(a, PhaseAt(p, k), true))
  {
    if OneShot(PhaseAt(PlanOf(a), k)) {
      OneShotAcks(a, k - 1, finished, true);
    }
  }

  lemma NotAckedYet(s: State, t: nat, p: nat)
    requires Planned(s) && t < |s.threads| && ThreadOk(s, s.threads[t]) && Started(s.plan, s.threads[t])
    requires 1 <= p <= |s.plan.path| && !Done(s, t, p)
    ensures NeedsAcks(s.plan, p) ==> s.threads[t].finished != PhaseAt(s.plan, p)
    ensures OneShot(PhaseAt(s.plan, p)) ==> s.threads[t].position != p
  {
    if NeedsAcks(s.plan, p) && s.threads[t].finished == PhaseAt(s.plan, p) {
      PathDistinct(s.plan.action, s.threads[t].acked, p);
    }
  }

  lemma HandleCourse(s: State, t: nat, p: nat, s': State)
    requires Live(s) && Proceeds(s, t, s') && s.threads[t].pc.Looping?
    requires s.threads[t].target == p && !Done(s, t, p)
    ensures OnCourse(s', t, p)
  {
    var th := s.threads[t];
    assert ThreadOk(s, th) && Started(s.plan, th);
    NotAckedYet(s, t, p);
    LoopsOnPath(s, t);
    if Ahead(th) == p {
      LastHandleDoes(s.plan.action, p, th.position == p, th.finished);
    }
    HandleEffect(s, Own(th, t), s');
  }

  lemma IterationCourse(s: State, t: nat, p: nat, s': State)
    requires Inv(s) && Proceeds(s, t, s') && !s.threads[t].pc.Looping?
    requires s.threads[t].target == p && s.threads[t].handling < p
    ensures OnCourse(s', t, p)
  {
    var th := s.threads[t];
    assert ThreadOk(s, th);
    if th.pc.Recording? && th.pc.current == th.pc.final {
      WordsDistinct(s, th.handling, th.target);
    }
  }

  lemma OwnProceeds(s: State, t: nat) returns (s': State)
    requires Live(s) && t < |s.threads| && !s.threads[t].pc.Operating?
    ensures Proceeds(s, t, s') && Live(s') && Reaches(s, s')
  {
    var step := Own(s.threads[t], t);
    OwnEnabled(s, t);
    s' := Apply(s, step);
    LiveStep(s, step, s');
    ReachesNext(s, step, s');
  }

  lemma GoesOn(s: State, t: nat, p: nat) returns (s': State)
    requires Live(s) && t < |s.threads| && OnCourse(s, t, p) && p <= s.position && !s.threads[t].pc.Operating?
    ensures Live(s') && Reaches(s, s') && |s'.threads| == |s.threads|
    ensures s'.threads == s.threads[t := s'.threads[t]] && s'.plan == s.plan && s.position <= s'.position
    ensures 0 <= Distance(s'.threads[t]) <= Distance(s.threads[t])
    ensures Distance(s'.threads[t]) == Distance(s.threads[t]) ==>
              Remaining(s', s'.threads[t]) < Remaining(s, s.threads[t])
    ensures OnCourse(s', t, p)
  {
    s' := OwnProceeds(s, t);
    ProceedsFrame(s, t, s');
    ProceedsCloser(s, t, s');
    CourseKept(s, t, p, s');
  }

  /** A thread left alone until it operates again has done its part. */
  lemma {:induction false} LeavesLoop(s: State, t: nat, p: nat) returns (s': State)
    requires Live(s) && t < |s.threads| && OnCourse(s, t, p) && p <= s.position
    ensures Live(s') && Reaches(s, s') && |s'.threads| == |s.threads| && s'.threads[t].pc.Operating?
    ensures s'.threads == s.threads[t := s'.threads[t]] && s'.plan == s.plan && s.position <= s'.position
    ensures Done(s', t, p)
    decreases if s.threads[t].pc.Operating? then 0 else 1, Distance(s.threads[t]), Remaining(s, s.threads[t])
  {
    if s.threads[t].pc.Operating? {
      ReachesItself(s);
      s' := s;
    } else {
      var s1 := GoesOn(s, t, p);
      s' := LeavesLoop(s1, t, p);
      ReachesOn(s, s1, s');
    }
  }

  lemma CourseKept(s: State, t: nat, p: nat, s': State)
    requires Live(s) && Proceeds(s, t, s') && OnCourse(s, t, p) && p <= s.position
    ensures OnCourse(s', t, p)
  {
    if Done(s, t, p) {
      DoneKept(s, t, p, s');
    } else if s.threads[t].pc.Looping? {
      HandleCourse(s, t, p, s');
    } else {
      IterationCourse(s, t, p, s');
    }
  }

  ghost predicate AllOperating(s: State) {
    forall t :: 0 <= t < |s.threads| ==> s.threads[t].pc.Operating?
  }

  /** Thread t looks at the system state and walks through its catch-up loop. */
  lemma Visits(s: State, t: nat) returns (s': State)
    requires Live(s) && t < |s.threads| && AllOperating(s) && s.position <= |s.plan.path|
    ensures Live(s') && Reaches(s, s') && AllOperating(s')
    ensures |s'.threads| == |s.threads| && s'.threads == s.threads[t := s'.threads[t]]
    ensures s'.plan == s.plan && s.position <= s'.position && Done(s', t, s.position)
  {
    NoRestOnPath(s, s.position);
    var s1 := Apply(s, Load(t));
    LiveStep(s, Load(t), s1);
    ReachesNext(s, Load(t), s1);
    s' := LeavesLoop(s1, t, s.position);
    ReachesOn(s, s1, s');
  }

  /** The threads from i on visit one after the other, and the system leaves position p. */
  lemma {:induction false} Round(s: State, p: nat, i: nat) returns (s': State)
    requires Live(s) && AllOperating(s) && 0 < |s.threads| && i <= |s.threads| && 1 <= p <= |s.plan.path|
    requires p <= s.position && forall t :: 0 <= t < i ==> Done(s, t, p)
    ensures Live(s') && Reaches(s, s') && AllOperating(s') && |s'.threads| == |s.threads|
    ensures s'.plan == s.plan && p < s'.position
    decreases |s.threads| - i
  {
    if s.position > p {
      ReachesItself(s);
      s' := s;
    } else {
      NotAllDone(s, p, i);
      var s1 := Visits(s, i);
      forall t | 0 <= t < i + 1
        ensures Done(s1, t, p)
      {
        assert t < i ==> Done(s, t, p);
      }
      s' := Round(s1, p, i + 1);
      ReachesOn(s, s1, s');
    }
  }

  lemma NotAllDone(s: State, p: nat, i: nat)
    requires Live(s) && AllOperating(s) && 0 < |s.threads| && i <= |s.threads| && p == s.position
    requires forall t :: 0 <= t < i ==> Done(s, t, p)
    ensures i < |s.threads|
  {
    if i == |s.threads| {
      forall t | 0 <= t < |s.threads|
        ensures s.threads[t].acked >= p
      {
        assert Done(s, t, p);
      }
    }
  }

  lemma {:induction false} Completes(s: State) returns (s': State)
    requires Live(s) && AllOperating(s) && 0 < |s.threads|
    ensures Live(s') && Reaches(s, s') && AllOperating(s') && s'.position == |s.plan.path| + 1 && s'.plan == s.plan
    decreases |s.plan.path| + 1 - s.position
  {
    if s.position > |s.plan.path| {
      ReachesItself(s);
      s' := s;
    } else {
      var s1 := Round(s, s.position, 0);
      s' := Completes(s1);
      ReachesOn(s, s1, s');
    }
  }

  /** Threads from i on finish the catch-up loops they are in. */
  lemma {:induction false} Quiesces(s: State, i: nat) returns (s': State)
    requires Live(s) && i <= |s.threads| && forall t :: 0 <= t < i ==> s.threads[t].pc.Operating?
    ensures Live(s') && Reaches(s, s') && AllOperating(s') && |s'.threads| == |s.threads| && s'.plan == s.plan
    decreases |s.threads| - i
  {
    if i == |s.threads| {
      ReachesItself(s);
      s' := s;
    } else {
      var s1 := LeavesLoop(s, i, 0);
      s' := Quiesces(s1, i + 1);
      ReachesOn(s, s1, s');
    }
  }

  /**
    Main result: from whatever state a run has reached, the threads can take the action to its end: the
    system is back in REST and every thread executes operations. No acknowledgement is ever lost.
  */
  lemma EveryRunCanFinish(run: seq<State>, steps: seq<Step>, k: nat) returns (s': State)
    requires IsRun(run, steps) && k < |run| && 0 < |run[k].threads|
    ensures Reaches(run[k], s') && AllOperating(s') && s'.plan == run[k].plan
    ensures s'.position == |s'.plan.path| + 1 && s'.system.phase == Rest
  {
    LiveInRun(run, steps, k);
    var s1 := Quiesces(run[k], 0);
    s' := Completes(s1);
    ReachesOn(run[k], s1, s');
  }
}
