/** The checkpoint lock, and what it protects as long as no thread crosses into IN_PROGRESS while allocating. */
module CprLocks {
  import opened Sums
  import opened Cpr
  import opened CprOrder

  // ---------- The lock ----------

  function HeldBy(pc: Pc): Held {
    if pc.Creating? || pc.Built? then pc.held else NoLock
  }

  function OldShare(th: Thread): int { th.marked + OldPart(HeldBy(th.pc)) }

  function NewShare(th: Thread): int { NewPart(HeldBy(th.pc)) }

  function OldShares(threads: seq<Thread>): seq<int> {
    seq(|threads|, i requires 0 <= i < |threads| => OldShare(threads[i]))
  }

  function NewShares(threads: seq<Thread>): seq<int> {
    seq(|threads|, i requires 0 <= i < |threads| => NewShare(threads[i]))
  }

  /** A retried request that is being tried, and that still has its mark. */
  function Trying(th: Thread): nat {
    if !th.pc.Idle? && Old(th.pc.kind) && (IN_PROGRESS <= th.phase || (th.phase == PREPARE && th.pc.Loaded?))
    then 1 else 0
  }

  ghost predicate MarksOk(th: Thread) {
    && 0 <= th.marked
    && (th.phase == REST ==> th.prep == 0 && (!th.pc.Idle? ==> !th.pc.kind.RetryPrepare?))
    && (PREPARE <= th.phase ==> th.rest + th.prep + Trying(th) <= th.marked)
    && (HeldBy(th.pc).NewLock? ==> IN_PROGRESS <= th.phase)
  }

  /** Each count is what the threads hold, and one of them is zero. */
  ghost predicate LockOk(s: State) {
    && (forall t :: 0 <= t < |s.threads| ==> MarksOk(s.threads[t]))
    && s.olds == Total(OldShares(s.threads)) && s.news == Total(NewShares(s.threads))
    && (s.olds == 0 || s.news == 0)
  }

  lemma SharesUpdate(threads: seq<Thread>, t: nat, th: Thread)
    requires t < |threads|
    ensures Total(OldShares(threads[t := th])) == Total(OldShares(threads)) - OldShare(threads[t]) + OldShare(th)
    ensures Total(NewShares(threads[t := th])) == Total(NewShares(threads)) - NewShare(threads[t]) + NewShare(th)
  {
    assert OldShares(threads[t := th]) == OldShares(threads)[t := OldShare(th)];
    assert NewShares(threads[t := th]) == NewShares(threads)[t := NewShare(th)];
    TotalUpdate(OldShares(threads), t, OldShare(th));
    TotalUpdate(NewShares(threads), t, NewShare(th));
  }

  lemma SharesBound(s: State)
    requires LockOk(s)
    ensures 0 <= s.olds && 0 <= s.news
    ensures forall t :: 0 <= t < |s.threads| ==> OldShare(s.threads[t]) <= s.olds && NewShare(s.threads[t]) <= s.news
  {
    TotalNonNegative(OldShares(s.threads));
    TotalNonNegative(NewShares(s.threads));
    forall t | 0 <= t < |s.threads|
      ensures OldShare(s.threads[t]) <= s.olds && NewShare(s.threads[t]) <= s.news
    {
      TotalAtLeast(OldShares(s.threads), t);
      TotalAtLeast(NewShares(s.threads), t);
    }
  }

  /** A thread changes its share of the lock. */
  lemma LockStep(s: State, s': State, t: nat)
    requires LockOk(s) && t < |s.threads| == |s'.threads| && s'.threads == s.threads[t := s'.threads[t]]
    requires MarksOk(s'.threads[t])
    requires s'.olds == s.olds - OldShare(s.threads[t]) + OldShare(s'.threads[t])
    requires s'.news == s.news - NewShare(s.threads[t]) + NewShare(s'.threads[t])
    requires s'.olds > s.olds ==> s.news == 0 && s'.news == 0
    requires s'.news > s.news ==> s.olds == 0 && s'.olds == 0
    ensures LockOk(s')
  {
    SharesUpdate(s.threads, t, s'.threads[t]);
    SharesBound(s);
    assert 0 <= OldShare(s'.threads[t]) && 0 <= NewShare(s'.threads[t]);
  }

  /** A request from REST is queued, or may yet go back to the queue. */
  predicate Waits(th: Thread) {
    th.rest > 0 || (th.pc.Loaded? && th.pc.kind.RetryRest?)
  }

  ghost predicate NoneWaits(s: State) {
    forall t :: 0 <= t < |s.threads| ==> !Waits(s.threads[t])
  }

  /** With no request from REST waiting whenever a thread is about to install the new version. */
  ghost predicate Claim(s: State, th: Thread) {
    && (th.pc.Loaded? && th.pc.latest == 1 ==> s.newer)
    && (th.pc.Creating? && !Old(th.pc.kind) && IN_PROGRESS <= th.phase ==> NoneWaits(s))
    && (th.pc.Built? && VersionAt(s, th.pc.address) == 1 ==> IN_PROGRESS <= th.phase && NoneWaits(s))
    && (WAIT_FLUSH <= th.phase ==> NoneWaits(s))
  }

  ghost predicate Claims(s: State) {
    (s.newer ==> NoneWaits(s)) && forall t :: 0 <= t < |s.threads| ==> Claim(s, s.threads[t])
  }

  ghost predicate Clean(s: State) {
    !s.crossed && !s.early && LockOk(s) && Claims(s)
  }

  /** No request from REST appears once a thread is in IN_PROGRESS. */
  lemma ClaimsKept(s: State, s': State, t: nat)
    requires Inv(s) && Inv(s') && Claims(s) && Grows(s, s')
    requires t < |s.threads| == |s'.threads| && s'.threads == s.threads[t := s'.threads[t]] && Claim(s', s'.threads[t])
    requires Waits(s'.threads[t]) ==> Waits(s.threads[t]) || s.threads[t].phase == REST
    requires s'.newer == s.newer || NoneWaits(s')
    ensures Claims(s')
  {
    forall u | 0 <= u < |s'.threads|
      ensures Claim(s', s'.threads[u])
    {
      if u != t {
        var th := s.threads[u];
        assert Claim(s, th) && ReadOk(s, th);
        if NoneWaits(s) && IN_PROGRESS <= th.phase {
          assert th.phase <= s.threads[t].phase + 1;
          assert NoneWaits(s');
        }
      }
    }
  }

  /** When no old lock is held, nothing from REST waits, once all threads have marked. */
  lemma NothingMarked(s: State)
    requires LockOk(s) && s.olds == 0
    requires forall t :: 0 <= t < |s.threads| ==> PREPARE <= s.threads[t].phase
    ensures NoneWaits(s)
  {
    SharesBound(s);
    forall t | 0 <= t < |s.threads|
      ensures !Waits(s.threads[t])
    {
      assert MarksOk(s.threads[t]) && OldShare(s.threads[t]) <= 0;
    }
  }

  /** A thread in IN_PROGRESS or later that may go on has nothing from REST left to fear. */
  lemma DecisionIsSafe(s: State, t: nat)
    requires Inv(s) && Clean(s) && Enabled(s, Decide(t))
    requires !Old(s.threads[t].pc.kind) && IN_PROGRESS <= s.threads[t].phase
    requires DecisionFor(s, PhaseOf(s.threads[t], s.threads[t].pc.kind), s.threads[t].pc.latest).Go?
    ensures NoneWaits(s)
  {
    var th := s.threads[t];
    assert Claim(s, th) && ReadOk(s, th);
    assert forall u :: 0 <= u < |s.threads| ==> th.phase <= s.threads[u].phase + 1;
    if s.olds == 0 {
      NothingMarked(s);
    }
  }

  lemma NoNewLockYet(s: State, t: nat)
    requires Inv(s) && LockOk(s) && t < |s.threads| && s.threads[t].phase == REST
    ensures s.news == 0
  {
    forall u | 0 <= u < |s.threads|
      ensures NewShares(s.threads)[u] == 0
    {
      assert MarksOk(s.threads[u]) && s.threads[u].phase <= s.threads[t].phase + 1;
    }
    TotalZero(NewShares(s.threads));
  }

  lemma CleanRefresh(s: State, t: nat)
    requires Inv(s) && Clean(s) && Enabled(s, Refresh(t)) && !Apply(s, Refresh(t)).crossed && Inv(Apply(s, Refresh(t)))
    ensures Clean(Apply(s, Refresh(t)))
  {
    var s', th := Apply(s, Refresh(t)), s.threads[t];
    assert MarksOk(th) && Claim(s, th) && ReadOk(s, th);
    if th.phase == REST {
      NoNewLockYet(s, t);
    }
    LockStep(s, s', t);
    ClaimsKept(s, s', t);
  }

  lemma CleanLoad(s: State, t: nat, kind: Kind)
    requires Inv(s) && Clean(s) && Enabled(s, Load(t, kind)) && Inv(Apply(s, Load(t, kind)))
    ensures Clean(Apply(s, Load(t, kind)))
  {
    var s' := Apply(s, Load(t, kind));
    assert MarksOk(s.threads[t]) && Claim(s, s.threads[t]);
    LockStep(s, s', t);
    ClaimsKept(s, s', t);
  }

  lemma InPlaceLocks(s: State, t: nat)
    requires LockOk(s) && Enabled(s, InPlace(t))
    ensures LockOk(Apply(s, InPlace(t)))
  {
    assert MarksOk(s.threads[t]);
    LockStep(s, Apply(s, InPlace(t)), t);
  }

  lemma PendingLocks(s: State, t: nat)
    requires LockOk(s) && Enabled(s, GoPending(t)) && LaterOk(s.threads[t])
    ensures LockOk(Apply(s, GoPending(t)))
  {
    assert MarksOk(s.threads[t]);
    LockStep(s, Apply(s, GoPending(t)), t);
  }

  lemma CleanInPlace(s: State, t: nat)
    requires Inv(s) && Clean(s) && Enabled(s, InPlace(t)) && Inv(Apply(s, InPlace(t)))
    ensures Clean(Apply(s, InPlace(t)))
  {
    assert Claim(s, s.threads[t]);
    InPlaceLocks(s, t);
    ClaimsKept(s, Apply(s, InPlace(t)), t);
  }

  lemma CleanPending(s: State, t: nat, s': State)
    requires Inv(s) && Clean(s) && Enabled(s, GoPending(t)) && s' == Apply(s, GoPending(t)) && Inv(s')
    ensures Clean(s')
  {
    assert Claim(s, s.threads[t]) && ReadOk(s, s.threads[t]);
    PendingLocks(s, t);
    PendingEffect(s, t, s');
    ClaimsKept(s, s', t);
  }

  predicate MayGo(s: State, th: Thread)
    requires th.pc.Loaded?
  {
    DecisionFor(s, PhaseOf(th, th.pc.kind), th.pc.latest).Go?
  }

  lemma WaitEffect(s: State, t: nat, s': State)
    requires Enabled(s, Decide(t)) && s' == Apply(s, Decide(t)) && !MayGo(s, s.threads[t])
    ensures |s'.threads| == |s.threads| && s'.threads == s.threads[t := s'.threads[t]]
    ensures s'.olds == s.olds && s'.news == s.news
    ensures s'.threads[t] == s.threads[t].(pc := Idle, later := s'.threads[t].later)
  {
  }

  lemma WaitLocks(s: State, t: nat, s': State)
    requires LockOk(s) && Enabled(s, Decide(t)) && s' == Apply(s, Decide(t)) && !MayGo(s, s.threads[t])
    ensures LockOk(s')
  {
    assert MarksOk(s.threads[t]);
    WaitEffect(s, t, s');
    LockStep(s, s', t);
  }

  lemma GoLocks(s: State, t: nat, s': State)
    requires LockOk(s) && Enabled(s, Decide(t)) && LaterOk(s.threads[t])
    requires s' == Apply(s, Decide(t)) && MayGo(s, s.threads[t])
    ensures LockOk(s')
  {
    assert MarksOk(s.threads[t]);
    LockStep(s, s', t);
  }

  lemma DecideLocks(s: State, t: nat)
    requires LockOk(s) && Enabled(s, Decide(t)) && LaterOk(s.threads[t])
    ensures LockOk(Apply(s, Decide(t)))
  {
    if MayGo(s, s.threads[t]) {
      GoLocks(s, t, Apply(s, Decide(t)));
    } else {
      WaitLocks(s, t, Apply(s, Decide(t)));
    }
  }

  lemma CleanDecide(s: State, t: nat)
    requires Inv(s) && Clean(s) && Enabled(s, Decide(t)) && Inv(Apply(s, Decide(t)))
    ensures Clean(Apply(s, Decide(t)))
  {
    var s', th := Apply(s, Decide(t)), s.threads[t];
    assert Claim(s, th) && ReadOk(s, th);
    DecideLocks(s, t);
    if !MayGo(s, th) {
      WaitEffect(s, t, s');
    } else if !Old(th.pc.kind) && IN_PROGRESS <= th.phase {
      DecisionIsSafe(s, t);
    }
    ClaimsKept(s, s', t);
  }

  lemma CleanAllocate(s: State, t: nat)
    requires Inv(s) && Clean(s) && Enabled(s, Allocate(t)) && Inv(Apply(s, Allocate(t)))
    ensures Clean(Apply(s, Allocate(t)))
  {
    var s', th := Apply(s, Allocate(t)), s.threads[t];
    assert MarksOk(th) && Claim(s, th);
    LockStep(s, s', t);
    ClaimsKept(s, s', t);
  }

  lemma InstallLocks(s: State, t: nat)
    requires LockOk(s) && Enabled(s, Install(t))
    ensures LockOk(Apply(s, Install(t)))
  {
    assert MarksOk(s.threads[t]);
    LockStep(s, Apply(s, Install(t)), t);
  }

  lemma CleanInstall(s: State, t: nat)
    requires Inv(s) && Clean(s) && Enabled(s, Install(t)) && Inv(Apply(s, Install(t)))
    ensures Clean(Apply(s, Install(t)))
  {
    assert Claim(s, s.threads[t]);
    InstallLocks(s, t);
    ClaimsKept(s, Apply(s, Install(t)), t);
  }

  lemma CleanStep(s: State, step: Step)
    requires Inv(s) && Clean(s) && Enabled(s, step) && !Apply(s, step).crossed && Inv(Apply(s, step))
    ensures Clean(Apply(s, step))
  {
    match step
    case Refresh(t) => CleanRefresh(s, t);
    case Load(t, kind) => CleanLoad(s, t, kind);
    case InPlace(t) => CleanInPlace(s, t);
    case GoPending(t) => CleanPending(s, t, Apply(s, step));
    case Decide(t) => CleanDecide(s, t);
    case Allocate(t) => CleanAllocate(s, t);
    case Install(t) => CleanInstall(s, t);
  }

  lemma IdleShares(threads: seq<Thread>)
    requires forall t :: 0 <= t < |threads| ==> threads[t] == Thread(REST, Idle, 0, 0, 0, multiset{})
    ensures Total(OldShares(threads)) == 0 && Total(NewShares(threads)) == 0
  {
    TotalZero(OldShares(threads));
    TotalZero(NewShares(threads));
  }

  lemma InitClean(s: State)
    requires Init(s)
    ensures Clean(s)
  {
    IdleShares(s.threads);
    InitClaims(s);
  }

  lemma InitClaims(s: State)
    requires Init(s)
    ensures Claims(s)
  {
    forall t | 0 <= t < |s.threads|
      ensures Claim(s, s.threads[t])
    {
      assert s.threads[t] == Thread(REST, Idle, 0, 0, 0, multiset{});
    }
  }

  lemma CrossedStays(s: State, step: Step)
    requires Enabled(s, step)
    ensures s.crossed ==> Apply(s, step).crossed
  {
  }

  lemma NextClean(s: State, s': State, step: Step)
    requires Next(s, step, s') && Inv(s) && Inv(s') && (!s.crossed ==> Clean(s)) && !s'.crossed
    ensures Clean(s')
  {
    CrossedStays(s, step);
    CleanStep(s, step);
  }

  lemma {:induction false} CleanInRun(run: seq<State>, steps: seq<Step>, k: nat)
    requires IsRun(run, steps) && k < |run| && !run[k].crossed
    ensures Clean(run[k])
  {
    if k == 0 {
      InitClean(run[0]);
    } else {
      InvInRun(run, steps, k - 1);
      InvInRun(run, steps, k);
      if !run[k - 1].crossed {
        CleanInRun(run, steps, k - 1);
      }
      NextClean(run[k - 1], run[k], steps[k - 1]);
    }
  }

  /**
    Main result: if no thread enters IN_PROGRESS while it allocates, the old and the new lock are
    never held both ways, their counts never go below zero, and all records are in order.
  */
  lemma OrderedWithoutCrossing(run: seq<State>, steps: seq<Step>, k: nat)
    requires IsRun(run, steps) && k < |run| && !run[k].crossed
    ensures 0 <= run[k].olds && 0 <= run[k].news && (run[k].olds == 0 || run[k].news == 0)
    ensures !run[k].early && Ordered(run[k])
  {
    CleanInRun(run, steps, k);
    SharesBound(run[k]);
    OrderedUnlessEarly(run, steps, k);
  }
}
