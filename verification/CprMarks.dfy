/** The old-lock marks of requests: which of them are given back, and which stay behind. */
module CprMarks {
  import opened Sums
  import opened Cpr
  import opened CprOrder
  import opened CprLocks

  /** Thread t tries a request of the old version that it took from its queue. */
  predicate TriesOld(th: Thread) {
    !th.pc.Idle? && Old(th.pc.kind)
  }

  /**
    A retried request of the old version is done with its mark but leaves it in the lock: in PREPARE, where
    it is not seen that it has one, whatever becomes of it; later, when it has to start anew.
  */
  predicate Leaves(s: State, step: Step) {
    && Enabled(s, step)
    && var th := s.threads[step.t];
       && TriesOld(th)
       && if th.phase == PREPARE then step.InPlace? || step.GoPending? || step.Decide?
          else th.phase >= IN_PROGRESS && StartsAnew(s, step)
  }

  /** Its record is not installed because the head has changed, or it meets a shift of versions. */
  predicate StartsAnew(s: State, step: Step)
    requires Enabled(s, step)
  {
    var th := s.threads[step.t];
    || (step.Install? && s.head != th.pc.expected)
    || (step.Decide? && th.pc.kind.RetryPrepare? && (s.news != 0 || th.pc.latest > 0))
  }

  /** How many marks thread t has left behind in the first k steps. */
  function Left(run: seq<State>, steps: seq<Step>, k: nat, t: nat): nat
    requires |run| == |steps| + 1 && k <= |steps|
  {
    if k == 0 then 0
    else Left(run, steps, k - 1, t) + if steps[k - 1].t == t && Leaves(run[k - 1], steps[k - 1]) then 1 else 0
  }

  /** The marks of a thread are those of its queued requests, of the one it tries, and `left` others. */
  ghost predicate Accounted(th: Thread, left: nat) {
    if th.phase == REST then th.marked == 0 == left && th.prep == 0 && !(TriesOld(th) && th.pc.kind.RetryPrepare?)
    else th.marked == th.rest + th.prep + Trying(th) + left
  }

  lemma QueuedAccounted(th: Thread, left: nat)
    requires th.pc.Loaded? && Accounted(th, left)
    ensures th.phase >= IN_PROGRESS && !Old(th.pc.kind) && LaterOk(th) ==> Accounted(Queued(th), left)
    ensures th.phase >= IN_PROGRESS && Old(th.pc.kind) ==> Accounted(Queued(th), left)
  {
  }

  lemma RefreshAccounted(s: State, t: nat, s': State, left: nat)
    requires Enabled(s, Refresh(t)) && s' == Apply(s, Refresh(t)) && Accounted(s.threads[t], left) && !s'.crossed
    ensures Accounted(s'.threads[t], left)
  {
  }

  lemma LoadAccounted(s: State, t: nat, kind: Kind, s': State, left: nat)
    requires Enabled(s, Load(t, kind)) && s' == Apply(s, Load(t, kind)) && Accounted(s.threads[t], left)
    ensures Accounted(s'.threads[t], left)
  {
  }

  lemma OtherAccounted(s: State, step: Step, s': State, left: nat)
    requires Enabled(s, step) && s' == Apply(s, step) && LaterOk(s.threads[step.t])
    requires step.InPlace? || step.Allocate? || step.Install?
    requires Accounted(s.threads[step.t], left)
    ensures Accounted(s'.threads[step.t], left + if Leaves(s, step) then 1 else 0)
  {
  }

  lemma PendingAccounted(s: State, t: nat, s': State, left: nat)
    requires Enabled(s, GoPending(t)) && s' == Apply(s, GoPending(t)) && LaterOk(s.threads[t])
    requires Accounted(s.threads[t], left)
    ensures Accounted(s'.threads[t], left + if Leaves(s, GoPending(t)) then 1 else 0)
  {
    QueuedAccounted(s.threads[t], left);
  }

  lemma DecideAccounted(s: State, t: nat, s': State, left: nat)
    requires Enabled(s, Decide(t)) && s' == Apply(s, Decide(t)) && LaterOk(s.threads[t])
    requires Accounted(s.threads[t], left)
    ensures Accounted(s'.threads[t], left + if Leaves(s, Decide(t)) then 1 else 0)
  {
  }

  lemma AccountedNext(s: State, step: Step, s': State, left: nat)
    requires Next(s, step, s') && LaterOk(s.threads[step.t]) && !s'.crossed && Accounted(s.threads[step.t], left)
    ensures step.t < |s'.threads| && Accounted(s'.threads[step.t], left + if Leaves(s, step) then 1 else 0)
  {
    match step
    case Refresh(t) => RefreshAccounted(s, t, s', left);
    case Load(t, kind) => LoadAccounted(s, t, kind, s', left);
    case GoPending(t) => PendingAccounted(s, t, s', left);
    case Decide(t) => DecideAccounted(s, t, s', left);
    case _ => OtherAccounted(s, step, s', left);
  }

  /**
    Main result: as long as no thread has entered IN_PROGRESS while it allocates, the marks of a thread are, one
    for one, those of its queued requests, that of the request it tries, and those it has left behind.
  */
  lemma {:induction false} MarksExact(run: seq<State>, steps: seq<Step>, k: nat, t: nat)
    requires IsRun(run, steps) && k < |run| && t < |run[k].threads| && !run[k].crossed
    ensures Accounted(run[k].threads[t], Left(run, steps, k, t))
  {
    if k > 0 {
      var s, step := run[k - 1], steps[k - 1];
      OthersStand(s, step, run[k]);
      MarksExact(run, steps, k - 1, t);
      if step.t == t {
        InvInRun(run, steps, k - 1);
        assert ReadOk(s, s.threads[t]);
        AccountedNext(s, step, run[k], Left(run, steps, k - 1, t));
      }
    }
  }

  function AllLeft(run: seq<State>, steps: seq<Step>, k: nat): seq<int>
    requires |run| == |steps| + 1 && k <= |steps|
  {
    seq(|run[k].threads|, t requires 0 <= t < |run[k].threads| => Left(run, steps, k, t))
  }

  /** No request of the old version is queued or being tried, and no thread is at work. */
  ghost predicate OldDone(s: State) {
    forall t :: 0 <= t < |s.threads| ==>
      s.threads[t].pc.Idle? && s.threads[t].rest == 0 && s.threads[t].prep == 0
  }

  lemma {:induction false} LeftBySteps(run: seq<State>, steps: seq<Step>, k: nat, t: nat)
    requires |run| == |steps| + 1 && k <= |steps|
    ensures Left(run, steps, k, t) == 0 <==>
            forall m {:trigger steps[m]} :: 0 <= m < k && steps[m].t == t ==> !Leaves(run[m], steps[m])
  {
    if k > 0 {
      LeftBySteps(run, steps, k - 1, t);
    }
  }

  lemma {:induction false} SameNumber(run: seq<State>, steps: seq<Step>, m: nat, k: nat)
    requires IsRun(run, steps) && m <= k < |run|
    ensures |run[m].threads| == |run[k].threads|
  {
    if m < k {
      SameNumber(run, steps, m, k - 1);
      OthersStand(run[k - 1], steps[k - 1], run[k]);
    }
  }

  lemma NoneLeftBySteps(run: seq<State>, steps: seq<Step>, k: nat)
    requires IsRun(run, steps) && k < |run|
    ensures (forall t :: 0 <= t < |run[k].threads| ==> Left(run, steps, k, t) == 0) <==>
            forall m {:trigger steps[m]} :: 0 <= m < k ==> !Leaves(run[m], steps[m])
  {
    if m :| 0 <= m < k && Leaves(run[m], steps[m]) {
      SameNumber(run, steps, m, k);
      LeftBySteps(run, steps, k, steps[m].t);
      assert Left(run, steps, k, steps[m].t) != 0;
    } else {
      forall t | 0 <= t < |run[k].threads|
        ensures Left(run, steps, k, t) == 0
      {
        LeftBySteps(run, steps, k, t);
      }
    }
  }

  lemma NoneLeft(run: seq<State>, steps: seq<Step>, k: nat)
    requires |run| == |steps| + 1 && k <= |steps|
    ensures Total(AllLeft(run, steps, k)) == 0 <==>
            forall t :: 0 <= t < |run[k].threads| ==> Left(run, steps, k, t) == 0
  {
    var left := AllLeft(run, steps, k);
    TotalZeroIff(left);
    if Total(left) == 0 {
      forall t | 0 <= t < |run[k].threads|
        ensures Left(run, steps, k, t) == 0
      {
        assert left[t] == 0;
      }
    } else {
      var t :| 0 <= t < |left| && left[t] != 0;
      assert Left(run, steps, k, t) != 0;
    }
  }

  /**
    Main result: when all requests of the old version are done and no thread is at work, the old count of the lock
    is the number of marks left behind, so it is zero if and only if no step has left one.
  */
  lemma OldCountAtRest(run: seq<State>, steps: seq<Step>, k: nat)
    requires IsRun(run, steps) && k < |run| && !run[k].crossed && OldDone(run[k])
    ensures run[k].olds == Total(AllLeft(run, steps, k))
    ensures run[k].olds == 0 <==> forall m {:trigger steps[m]} :: 0 <= m < k ==> !Leaves(run[m], steps[m])
  {
    var s, left := run[k], AllLeft(run, steps, k);
    CleanInRun(run, steps, k);
    forall t | 0 <= t < |s.threads|
      ensures OldShares(s.threads)[t] == left[t]
    {
      MarksExact(run, steps, k, t);
    }
    assert OldShares(s.threads) == left;
    NoneLeft(run, steps, k);
    NoneLeftBySteps(run, steps, k);
  }

  // ---------- A mark can stay behind ----------

  function One(phase: nat, pc: Pc, rest: nat, marked: int): State {
    State([With(phase, pc, rest, 0, marked)], marked, 0, 0, [], [], false, false, false)
  }

  lemma Suspends()
    ensures Next(One(REST, Idle, 0, 0), Load(0, Fresh), One(REST, Loaded(Fresh, 0, 0), 0, 0))
    ensures Next(One(REST, Loaded(Fresh, 0, 0), 0, 0), GoPending(0), One(REST, Idle, 1, 0))
  {
  }

  lemma Marks()
    ensures Next(One(REST, Idle, 1, 0), Refresh(0), One(PREPARE, Idle, 1, 1))
  {
  }

  lemma Retries()
    ensures Next(One(PREPARE, Idle, 1, 1), Load(0, RetryRest), One(PREPARE, Loaded(RetryRest, 0, 0), 0, 1))
    ensures Next(One(PREPARE, Loaded(RetryRest, 0, 0), 0, 1), InPlace(0), One(PREPARE, Idle, 0, 1))
  {
  }

  /** A request from REST is marked when its thread enters PREPARE, retried there, and done; its mark stays. */
  lemma MarkCanStay() returns (run: seq<State>, steps: seq<Step>)
    ensures IsRun(run, steps) && !run[|steps|].crossed && OldDone(run[|steps|]) && run[|steps|].olds == 1
  {
    Suspends();
    Marks();
    Retries();
    run, steps := [One(PREPARE, Idle, 0, 1)], [];
    run, steps := Prepend(One(PREPARE, Loaded(RetryRest, 0, 0), 0, 1), InPlace(0), run, steps);
    run, steps := Prepend(One(PREPARE, Idle, 1, 1), Load(0, RetryRest), run, steps);
    run, steps := Prepend(One(REST, Idle, 1, 0), Refresh(0), run, steps);
    run, steps := Prepend(One(REST, Loaded(Fresh, 0, 0), 0, 0), GoPending(0), run, steps);
    run, steps := Prepend(One(REST, Idle, 0, 0), Load(0, Fresh), run, steps);
  }
}
