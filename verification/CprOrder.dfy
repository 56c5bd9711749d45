/** The order of record versions in every run of Cpr, and where it is lost. */
module CprOrder {
  import opened Cpr

  // ---------- Runs ----------

  ghost predicate Next(s: State, step: Step, s': State) {
    Enabled(s, step) && s' == Apply(s, step)
  }

  ghost predicate IsPath(path: seq<State>, steps: seq<Step>) {
    && |path| == |steps| + 1
    && forall i {:trigger steps[i]} :: 0 <= i < |steps| ==> Next(path[i], steps[i], path[i + 1])
  }

  ghost predicate IsRun(run: seq<State>, steps: seq<Step>) {
    IsPath(run, steps) && Init(run[0])
  }

  /** Only the thread that takes a step moves. */
  lemma OthersStand(s: State, step: Step, s': State)
    requires Next(s, step, s')
    ensures |s'.threads| == |s.threads| && s'.threads == s.threads[step.t := s'.threads[step.t]]
    ensures s.crossed ==> s'.crossed
  {
  }

  lemma InvNext(s: State, step: Step, s': State)
    requires Inv(s) && Next(s, step, s')
    ensures Inv(s')
  {
    InvStep(s, step);
  }

  lemma {:induction false} InvInRun(run: seq<State>, steps: seq<Step>, k: nat)
    requires IsRun(run, steps) && k < |run|
    ensures Inv(run[k])
  {
    if k > 0 {
      InvInRun(run, steps, k - 1);
      InvNext(run[k - 1], steps[k - 1], run[k]);
    }
  }

  // ---------- The chain of addresses, in every run ----------

  /** The head that the i-th install replaced. */
  function Replaced(s: State, base: nat, i: nat): nat
    requires i <= |s.installed|
  {
    if i == 0 then base else s.installed[i - 1]
  }

  /** The i-th record installed points to the head it replaced, which lies below it. */
  ghost predicate Link(s: State, base: nat, i: nat)
    requires i < |s.installed|
  {
    && 0 < s.installed[i] <= |s.log|
    && s.log[s.installed[i] - 1].previous == Replaced(s, base, i) < s.installed[i]
  }

  /** From the head that was there at the start, the installs form one chain of rising addresses. */
  ghost predicate Linked(s: State, base: nat) {
    s.head == Replaced(s, base, |s.installed|) && forall i :: 0 <= i < |s.installed| ==> Link(s, base, i)
  }

  lemma LinkedKept(s: State, s': State, base: nat)
    requires Linked(s, base) && s'.installed == s.installed && s'.head == s.head
    requires |s.log| <= |s'.log| && forall a :: 0 <= a < |s.log| ==> s'.log[a] == s.log[a]
    ensures Linked(s', base)
  {
    forall i | 0 <= i < |s'.installed|
      ensures Link(s', base, i)
    {
      assert Link(s, base, i);
    }
  }

  lemma LinkedInstall(s: State, s': State, base: nat, a: nat)
    requires Linked(s, base) && s'.installed == s.installed + [a] && s'.head == a && s'.log == s.log
    requires 0 < a <= |s.log| && s.log[a - 1].previous == s.head < a
    ensures Linked(s', base)
  {
    forall i | 0 <= i < |s'.installed|
      ensures Link(s', base, i)
    {
      assert i < |s.installed| ==> Link(s, base, i);
    }
  }

  lemma LinkedNext(s: State, step: Step, s': State, base: nat)
    requires Inv(s) && Next(s, step, s') && Linked(s, base)
    ensures Linked(s', base)
  {
    var th := s.threads[step.t];
    if step.Install? && s.head == th.pc.expected {
      assert ReadOk(s, th);
      LinkedInstall(s, s', base, th.pc.address);
    } else {
      LinkedKept(s, s', base);
    }
  }

  /**
    Main result: whatever is pending and whoever crosses, in every run each record installed points
    to the head it replaced, at a lower address.
  */
  lemma {:induction false} LinkedInRun(run: seq<State>, steps: seq<Step>, k: nat)
    requires IsRun(run, steps) && k < |run|
    ensures Linked(run[k], run[0].head)
  {
    if k > 0 {
      LinkedInRun(run, steps, k - 1);
      InvInRun(run, steps, k - 1);
      LinkedNext(run[k - 1], steps[k - 1], run[k], run[0].head);
    }
  }

  // ---------- The order of versions ----------

  /**
    Main result: whatever is pending, a record installed by an operation that is not the retry of a
    request from REST points to a record of no later version.
  */
  lemma FreshInstallsInOrder(run: seq<State>, steps: seq<Step>, k: nat, t: nat)
    requires IsRun(run, steps) && k < |steps| && steps[k] == Install(t) && Enabled(run[k], Install(t))
    requires run[k].head == run[k].threads[t].pc.expected && !run[k].threads[t].pc.kind.RetryRest?
    ensures var s' := run[k + 1]; InOrder(s', s'.head) && s'.log[s'.head - 1].previous == run[k].head
  {
    InvInRun(run, steps, k);
    assert ReadOk(run[k], run[k].threads[t]);
    BuiltInOrder(run[k], run[k].threads[t]);
  }

  /** Main result: all records are in order as long as no request from REST is queued over the new version. */
  lemma OrderedUnlessEarly(run: seq<State>, steps: seq<Step>, k: nat)
    requires IsRun(run, steps) && k < |run| && !run[k].early
    ensures Ordered(run[k])
  {
    InvInRun(run, steps, k);
  }

  // ---------- The other half: a request queued over the new version leads to disorder ----------

  lemma Prepend(s: State, step: Step, path: seq<State>, steps: seq<Step>) returns (path': seq<State>, steps': seq<Step>)
    requires Enabled(s, step) && IsPath(path, steps) && path[0] == Apply(s, step)
    ensures IsPath(path', steps') && path'[0] == s && path'[|steps'|] == path[|steps|]
  {
    path', steps' := [s] + path, [step] + steps;
  }

  /** The states of a thread that retries a request from REST while the others stand still. */
  lemma RetryOverNew(s: State, t: nat, s1: State, s2: State, s3: State, s4: State)
    requires Inv(s) && VersionAt(s, s.head) == 1 && t < |s.threads| && s.threads[t].pc.Idle? && s.threads[t].rest > 0
    requires s1 == Apply(s, Load(t, RetryRest))
    requires Enabled(s1, Decide(t)) && s2 == Apply(s1, Decide(t))
    requires Enabled(s2, Allocate(t)) && s3 == Apply(s2, Allocate(t))
    requires Enabled(s3, Install(t)) && s4 == Apply(s3, Install(t))
    ensures s4.installed == s.installed + [|s.log| + 1] && !InOrder(s4, |s.log| + 1)
  {
  }

  /** An idle thread retries its request to completion with the old version, and the order is lost. */
  lemma IdleRetry(s: State, t: nat) returns (path: seq<State>, steps: seq<Step>)
    requires Inv(s) && VersionAt(s, s.head) == 1 && t < |s.threads| && s.threads[t].pc.Idle? && s.threads[t].rest > 0
    ensures IsPath(path, steps) && path[0] == s && !Ordered(path[|steps|])
  {
    var s1 := Apply(s, Load(t, RetryRest));
    var s2 := Apply(s1, Decide(t));
    var s3 := Apply(s2, Allocate(t));
    var s4 := Apply(s3, Install(t));
    RetryOverNew(s, t, s1, s2, s3, s4);
    path, steps := [s4], [];
    path, steps := Prepend(s3, Install(t), path, steps);
    path, steps := Prepend(s2, Allocate(t), path, steps);
    path, steps := Prepend(s1, Decide(t), path, steps);
    path, steps := Prepend(s, Load(t, RetryRest), path, steps);
    assert s4.installed[|s.installed|] == |s.log| + 1;
  }

  /** Finishing an install over a new head leaves a new head, or the order is lost at once. */
  lemma FinishInstall(s: State, s': State, t: nat)
    requires Inv(s) && VersionAt(s, s.head) == 1 && Next(s, Install(t), s') && s.threads[t].rest > 0
    ensures s'.threads[t].pc.Idle? && s'.threads[t].rest > 0 && (!Ordered(s') || VersionAt(s', s'.head) == 1)
  {
    var th := s.threads[t];
    assert ReadOk(s, th);
    if s.head == th.pc.expected && VersionAt(s, th.pc.address) == 0 {
      assert s'.installed[|s.installed|] == th.pc.address && !InOrder(s', th.pc.address);
    }
  }

  lemma BuiltRetry(s: State, t: nat) returns (path: seq<State>, steps: seq<Step>)
    requires Inv(s) && VersionAt(s, s.head) == 1 && t < |s.threads| && s.threads[t].pc.Built? && s.threads[t].rest > 0
    ensures IsPath(path, steps) && path[0] == s && !Ordered(path[|steps|])
  {
    assert ReadOk(s, s.threads[t]);
    var s' := Apply(s, Install(t));
    FinishInstall(s, s', t);
    if Ordered(s') {
      InvStep(s, Install(t));
      path, steps := IdleRetry(s', t);
    } else {
      path, steps := [s'], [];
    }
    path, steps := Prepend(s, Install(t), path, steps);
  }

  /** The step of a thread that is not yet idle, and where it leads. */
  lemma Finish(s: State, t: nat, step: Step)
    requires Inv(s) && t < |s.threads| && (s.threads[t].pc.Loaded? || s.threads[t].pc.Creating?)
    requires step == if s.threads[t].pc.Loaded? then InPlace(t) else Allocate(t)
    ensures Enabled(s, step)
    ensures var s' := Apply(s, step); s'.head == s.head && VersionAt(s', s.head) == VersionAt(s, s.head)
    ensures var th := Apply(s, step).threads[t];
            && th.rest == s.threads[t].rest
            && (s.threads[t].pc.Loaded? ==> th.pc.Idle?) && (s.threads[t].pc.Creating? ==> th.pc.Built?)
  {
  }

  /**
    Main result, the other half: from every state whose head is of the new version while some
    thread, wherever it stands, has a request from REST in its queue, the order can be lost.
  */
  lemma LateRetryBreaksOrder(s: State, t: nat) returns (path: seq<State>, steps: seq<Step>)
    requires Inv(s) && VersionAt(s, s.head) == 1 && t < |s.threads| && s.threads[t].rest > 0
    ensures IsPath(path, steps) && path[0] == s && !Ordered(path[|steps|])
  {
    var pc := s.threads[t].pc;
    if pc.Idle? {
      path, steps := IdleRetry(s, t);
    } else if pc.Built? {
      path, steps := BuiltRetry(s, t);
    } else {
      var step := if pc.Loaded? then InPlace(t) else Allocate(t);
      Finish(s, t, step);
      InvStep(s, step);
      var s' := Apply(s, step);
      if pc.Loaded? {
        path, steps := IdleRetry(s', t);
      } else {
        path, steps := BuiltRetry(s', t);
      }
      path, steps := Prepend(s, step, path, steps);
    }
  }

  /** The history bit is set only where the head is new and a request from REST is queued. */
  lemma EarlyMeans(s: State, step: Step, s': State)
    requires Inv(s) && !s.early && Next(s, step, s') && s'.early
    ensures VersionAt(s', s'.head) == 1 && !NoneOutstanding(s')
  {
    var th := s.threads[step.t];
    assert ReadOk(s, th);
    assert step.Install? || step.GoPending?;
    if step.Install? {
      BuiltInOrder(s, th);
    }
  }

  /**
    Main result: the order holds until a request from REST is queued over the new version, and from
    the very state in which that happens it can be lost.
  */
  lemma EarlyLosesOrder(run: seq<State>, steps: seq<Step>, k: nat) returns (path: seq<State>, more: seq<Step>)
    requires IsRun(run, steps) && k < |steps| && !run[k].early && run[k + 1].early
    ensures IsPath(path, more) && path[0] == run[k + 1] && !Ordered(path[|more|])
  {
    InvInRun(run, steps, k);
    InvInRun(run, steps, k + 1);
    EarlyMeans(run[k], steps[k], run[k + 1]);
    var t :| 0 <= t < |run[k + 1].threads| && run[k + 1].threads[t].rest != 0;
    path, more := LateRetryBreaksOrder(run[k + 1], t);
  }

  // ---------- A run that crosses ----------

  function With(phase: nat, pc: Pc, rest: nat, prep: nat, marked: int): Thread {
    Thread(phase, pc, rest, prep, marked, multiset{})
  }

  function Two(a: Thread, b: Thread, olds: int, log: seq<Record>, head: nat, crossed: bool): State {
    State([a, b], olds, 0, head, log, if head == 0 then [] else [head], head != 0, head != 0, crossed)
  }

  /**
    The states of the run. Two threads start in REST: one leaves a request pending, the other, with
    no lock, goes through PREPARE into IN_PROGRESS while it allocates, and installs.
  */
  function Cross0(): State { Two(With(REST, Idle, 0, 0, 0), With(REST, Idle, 0, 0, 0), 0, [], 0, false) }

  function Cross1(): State {
    Two(With(REST, Loaded(Fresh, 0, 0), 0, 0, 0), With(REST, Idle, 0, 0, 0), 0, [], 0, false)
  }

  function Cross2(): State { Two(With(REST, Idle, 1, 0, 0), With(REST, Idle, 0, 0, 0), 0, [], 0, false) }

  function Cross3(): State {
    Two(With(REST, Idle, 1, 0, 0), With(REST, Loaded(Fresh, 0, 0), 0, 0, 0), 0, [], 0, false)
  }

  function Allocating(): Pc { Creating(Fresh, 0, NoLock) }

  function Cross4(): State { Two(With(REST, Idle, 1, 0, 0), With(REST, Allocating(), 0, 0, 0), 0, [], 0, false) }

  function Cross5(): State { Two(With(PREPARE, Idle, 1, 0, 1), With(REST, Allocating(), 0, 0, 0), 1, [], 0, false) }

  function Cross6(): State {
    Two(With(PREPARE, Idle, 1, 0, 1), With(PREPARE, Allocating(), 0, 0, 0), 1, [], 0, false)
  }

  function Cross7(): State {
    Two(With(PREPARE, Idle, 1, 0, 1), With(IN_PROGRESS, Allocating(), 0, 0, 0), 1, [], 0, true)
  }

  function Cross8(): State {
    Two(With(PREPARE, Idle, 1, 0, 1), With(IN_PROGRESS, Built(Fresh, 0, NoLock, 1), 0, 0, 0),
        1, [Record(1, 0)], 0, true)
  }

  function Cross9(): State {
    Two(With(PREPARE, Idle, 1, 0, 1), With(IN_PROGRESS, Idle, 0, 0, 0), 1, [Record(1, 0)], 1, true)
  }

  lemma CrossingStarts()
    ensures Init(Cross0()) && Enabled(Cross0(), Load(0, Fresh)) && Cross1() == Apply(Cross0(), Load(0, Fresh))
    ensures Enabled(Cross1(), GoPending(0)) && Cross2() == Apply(Cross1(), GoPending(0))
    ensures Enabled(Cross2(), Load(1, Fresh)) && Cross3() == Apply(Cross2(), Load(1, Fresh))
    ensures Enabled(Cross3(), Decide(1)) && Cross4() == Apply(Cross3(), Decide(1))
  {
  }

  lemma CrossingRefreshes()
    ensures Enabled(Cross4(), Refresh(0)) && Cross5() == Apply(Cross4(), Refresh(0))
    ensures Enabled(Cross5(), Refresh(1)) && Cross6() == Apply(Cross5(), Refresh(1))
    ensures Enabled(Cross6(), Refresh(1)) && Cross7() == Apply(Cross6(), Refresh(1))
  {
  }

  lemma CrossingInstalls()
    ensures Enabled(Cross7(), Allocate(1)) && Cross8() == Apply(Cross7(), Allocate(1))
    ensures Enabled(Cross8(), Install(1)) && Cross9() == Apply(Cross8(), Install(1))
  {
    var s' := Apply(Cross8(), Install(1));
    assert s'.threads[0].rest == 1 && !NoneOutstanding(s') && s'.early;
    assert s'.threads == Cross9().threads && s'.installed == Cross9().installed;
  }

  lemma CrossingRun() returns (run: seq<State>, steps: seq<Step>)
    ensures IsRun(run, steps) && run[|steps|] == Cross9()
  {
    CrossingStarts();
    CrossingRefreshes();
    CrossingInstalls();
    run, steps := [Cross9()], [];
    run, steps := Prepend(Cross8(), Install(1), run, steps);
    run, steps := Prepend(Cross7(), Allocate(1), run, steps);
    run, steps := Prepend(Cross6(), Refresh(1), run, steps);
    run, steps := Prepend(Cross5(), Refresh(1), run, steps);
    run, steps := Prepend(Cross4(), Refresh(0), run, steps);
    run, steps := Prepend(Cross3(), Decide(1), run, steps);
    run, steps := Prepend(Cross2(), Load(1, Fresh), run, steps);
    run, steps := Prepend(Cross1(), GoPending(0), run, steps);
    run, steps := Prepend(Cross0(), Load(0, Fresh), run, steps);
  }

  lemma Joined(run: seq<State>, steps: seq<Step>, path: seq<State>, more: seq<Step>)
    requires IsRun(run, steps) && IsPath(path, more) && path[0] == run[|steps|]
    ensures IsRun(run + path[1..], steps + more) && (run + path[1..])[|steps + more|] == path[|more|]
  {
    var run', steps', n := run + path[1..], steps + more, |steps|;
    forall i {:trigger steps'[i]} | 0 <= i < |steps'|
      ensures Next(run'[i], steps'[i], run'[i + 1])
    {
      if i < n {
        assert Next(run[i], steps[i], run[i + 1]);
      } else {
        assert Next(path[i - n], more[i - n], path[i - n + 1]);
        assert run'[i] == path[i - n] && run'[i + 1] == path[i - n + 1];
      }
    }
  }

  /** Main result: a thread that crosses while it allocates can put the chain out of order. */
  lemma OrderCanFail() returns (run: seq<State>, steps: seq<Step>)
    ensures IsRun(run, steps) && !Ordered(run[|steps|])
  {
    run, steps := CrossingRun();
    InvInRun(run, steps, |steps|);
    var path, more := LateRetryBreaksOrder(Cross9(), 0);
    Joined(run, steps, path, more);
    run, steps := run + path[1..], steps + more;
  }
}
