/** What a thread that drains by itself runs, and that a lone refresh empties the drain list. */
module EpochDrain {
  import opened Options
  import opened Sums
  import opened Epoch

  /** Steps of thread t alone take s to s'. */
  ghost predicate IsLone(path: seq<State>, steps: seq<Step>, s: State, t: nat, s': State) {
    && IsPath(path, steps) && path[0] == s && path[|steps|] == s'
    && forall i {:trigger steps[i]} :: 0 <= i < |steps| ==> steps[i].t == t
  }

  ghost predicate Leads(s: State, t: nat, s': State) {
    exists path: seq<State>, steps: seq<Step> :: IsLone(path, steps, s, t, s')
  }

  lemma LeadsNowhere(s: State, t: nat)
    ensures Leads(s, t, s)
  {
    assert IsLone([s], [], s, t, s);
  }

  lemma LeadsFrom(s: State, t: nat, kind: Kind, s': State)
    requires Enabled(s, Step(t, kind)) && Leads(Apply(s, Step(t, kind)), t, s')
    ensures Leads(s, t, s')
  {
    var path: seq<State>, steps: seq<Step> :| IsLone(path, steps, Apply(s, Step(t, kind)), t, s');
    var path', steps' := [s] + path, [Step(t, kind)] + steps;
    forall i {:trigger steps'[i]} | 0 <= i < |steps'|
      ensures Next(path'[i], steps'[i], path'[i + 1]) && steps'[i].t == t
    {
      assert i > 0 ==> steps'[i] == steps[i - 1] && path'[i] == path[i - 1];
    }
    assert IsLone(path', steps', s, t, s');
  }

  // ---------- A drain by one thread ----------

  /** The action of this entry may run. */
  predicate Due(d: DrainSlot, safe: nat) {
    d.trigger.At? && d.trigger.epoch <= safe
  }

  ghost predicate Filled(drain: seq<DrainSlot>) {
    forall i :: 0 <= i < |drain| && drain[i].trigger.At? ==> drain[i].action == Some(drain[i].trigger.epoch)
  }

  /** The drain list without the entries from i on that are due, and their actions in order. */
  function Emptied(drain: seq<DrainSlot>, i: nat, safe: nat): seq<DrainSlot> {
    seq(|drain|, j requires 0 <= j < |drain| =>
      if i <= j && Due(drain[j], safe) then DrainSlot(Free, None) else drain[j])
  }

  function DueFrom(drain: seq<DrainSlot>, i: nat, safe: nat): seq<nat>
    decreases |drain| - i
  {
    if i >= |drain| then []
    else (if Due(drain[i], safe) then [drain[i].trigger.epoch] else []) + DueFrom(drain, i + 1, safe)
  }

  /** Where a drain from entry i on by thread t alone ends. */
  function Drained(s: State, t: nat, i: nat, next: Option<nat>): State
    requires t < |s.threads| && |DueFrom(s.drain, i, s.safe)| <= s.count
  {
    s.(drain := Emptied(s.drain, i, s.safe), ran := s.ran + DueFrom(s.drain, i, s.safe),
       count := s.count - |DueFrom(s.drain, i, s.safe)|, threads := s.threads[t := AfterDrain(next)])
  }

  lemma {:induction false} DueBounded(drain: seq<DrainSlot>, i: nat, safe: nat)
    requires Filled(drain) && i <= |drain|
    ensures |DueFrom(drain, i, safe)| <= Total(Occupied(drain[i..]))
    decreases |drain| - i
  {
    if i < |drain| {
      DueBounded(drain, i + 1, safe);
      assert Occupied(drain[i..])[1..] == Occupied(drain[i + 1..]);
    } else {
      assert Occupied(drain[i..]) == [];
    }
  }

  lemma {:induction false} TotalSuffix(xs: seq<int>, i: nat)
    requires i <= |xs| && forall j :: 0 <= j < |xs| ==> 0 <= xs[j]
    ensures Total(xs[i..]) <= Total(xs)
    decreases i
  {
    if i > 0 {
      TotalSuffix(xs, i - 1);
      TotalNonNegative(xs[i - 1..]);
      assert xs[i - 1..][1..] == xs[i..];
    } else {
      assert xs[0..] == xs;
    }
  }

  lemma DueCounted(s: State, i: nat)
    requires Filled(s.drain) && i <= |s.drain| && s.count == Total(Occupied(s.drain))
    ensures |DueFrom(s.drain, i, s.safe)| <= s.count
  {
    DueBounded(s.drain, i, s.safe);
    TotalSuffix(Occupied(s.drain), i);
    assert Occupied(s.drain)[i..] == Occupied(s.drain[i..]);
  }

  lemma {:induction false} NoneDue(drain: seq<DrainSlot>, i: nat, safe: nat)
    requires i <= |drain| && forall j :: i <= j < |drain| ==> !Due(drain[j], safe)
    ensures DueFrom(drain, i, safe) == [] && Emptied(drain, i, safe) == drain
    decreases |drain| - i
  {
    if i < |drain| {
      NoneDue(drain, i + 1, safe);
    }
  }

  /** Emptying entry i does not change what is due after it. */
  lemma {:induction false} DueAfter(drain: seq<DrainSlot>, i: nat, k: nat, safe: nat, d: DrainSlot)
    requires i < k <= |drain|
    ensures DueFrom(drain[i := d], k, safe) == DueFrom(drain, k, safe)
    decreases |drain| - k
  {
    if k < |drain| {
      DueAfter(drain, i, k + 1, safe, d);
    }
  }

  /** Thread t finds that entry i is due and locks it. */
  lemma LocksDue(s: State, t: nat, i: nat, next: Option<nat>) returns (s': State)
    requires t < |s.threads| <= |s.table| && i < |s.drain| && s.threads[t] == Draining(i, next)
    requires Due(s.drain[i], s.safe)
    ensures s' == s.(drain := s.drain[i := s.drain[i].(trigger := Locked)],
                     threads := s.threads[t := PopLocked(i, next)])
    ensures forall e :: Leads(s', t, e) ==> Leads(s, t, e)
  {
    var s1 := Apply(s, Step(t, LoadTrigger));
    var s2 := Apply(s1, Step(t, Compare));
    s' := Apply(s2, Step(t, PopCas));
    assert s'.threads == s.threads[t := PopLocked(i, next)];
    forall e | Leads(s', t, e)
      ensures Leads(s, t, e)
    {
      LeadsFrom(s2, t, PopCas, e);
      LeadsFrom(s1, t, Compare, e);
      LeadsFrom(s, t, LoadTrigger, e);
    }
  }

  /** Thread t empties the entry it has locked and runs its action. */
  lemma Runs(s: State, t: nat, i: nat, a: nat, next: Option<nat>) returns (s': State)
    requires t < |s.threads| <= |s.table| && i < |s.drain| && s.threads[t] == PopLocked(i, next)
    requires s.drain[i].action == Some(a) && 0 < s.count < WORD
    ensures s' == s.(drain := s.drain[i := DrainSlot(Free, None)], ran := s.ran + [a], count := s.count - 1,
                     threads := s.threads[t := if s.count == 1 then AfterDrain(next) else Draining(i + 1, next)])
    ensures forall e :: Leads(s', t, e) ==> Leads(s, t, e)
  {
    var s1 := Apply(s, Step(t, PopRelease));
    var s2 := Apply(s1, Step(t, PopRun));
    s' := Apply(s2, Step(t, PopCount));
    assert s'.threads == s.threads[t := s'.threads[t]];
    forall e | Leads(s', t, e)
      ensures Leads(s, t, e)
    {
      LeadsFrom(s2, t, PopCount, e);
      LeadsFrom(s1, t, PopRun, e);
      LeadsFrom(s, t, PopRelease, e);
    }
  }

  /** Thread t runs the action of entry i, which is due. */
  lemma Pops(s: State, t: nat, i: nat, next: Option<nat>) returns (s': State)
    requires t < |s.threads| <= |s.table| && i < |s.drain| && s.threads[t] == Draining(i, next)
    requires Filled(s.drain) && Due(s.drain[i], s.safe) && 0 < s.count < WORD
    ensures s' == s.(drain := s.drain[i := DrainSlot(Free, None)], ran := s.ran + [s.drain[i].trigger.epoch],
                     count := s.count - 1,
                     threads := s.threads[t := if s.count == 1 then AfterDrain(next) else Draining(i + 1, next)])
    ensures forall e :: Leads(s', t, e) ==> Leads(s, t, e)
  {
    var s1 := LocksDue(s, t, i, next);
    s' := Runs(s1, t, i, s.drain[i].trigger.epoch, next);
    assert s1.drain[i := DrainSlot(Free, None)] == s.drain[i := DrainSlot(Free, None)];
    assert s1.threads[t := s'.threads[t]] == s.threads[t := s'.threads[t]];
  }

  lemma Passes(s: State, t: nat, i: nat, next: Option<nat>) returns (s': State)
    requires t < |s.threads| <= |s.table| && i < |s.drain| && s.threads[t] == Draining(i, next)
    requires !Due(s.drain[i], s.safe)
    ensures s' == s.(threads := s.threads[t := Draining(i + 1, next)])
    ensures forall e :: Leads(s', t, e) ==> Leads(s, t, e)
  {
    var s1 := Apply(s, Step(t, LoadTrigger));
    s' := Apply(s1, Step(t, Compare));
    assert s'.threads == s.threads[t := s'.threads[t]];
    forall e | Leads(s', t, e)
      ensures Leads(s, t, e)
    {
      LeadsFrom(s1, t, Compare, e);
      LeadsFrom(s, t, LoadTrigger, e);
    }
  }

  /** With a count of zero no entry is due. */
  lemma NothingLeft(s: State, i: nat)
    requires Filled(s.drain) && s.count == 0 == Total(Occupied(s.drain)) && i <= |s.drain|
    ensures DueFrom(s.drain, i, s.safe) == [] && Emptied(s.drain, i, s.safe) == s.drain
  {
    forall j | i <= j < |s.drain|
      ensures !Due(s.drain[j], s.safe)
    {
      TotalAtLeast(Occupied(s.drain), j);
    }
    NoneDue(s.drain, i, s.safe);
  }

  /** Emptying entry i first and then those after it is emptying those from i on. */
  lemma DrainedAfterPop(s: State, t: nat, i: nat, next: Option<nat>, s1: State)
    requires t < |s.threads| && i < |s.drain| && Due(s.drain[i], s.safe) && Filled(s.drain)
    requires s.count == Total(Occupied(s.drain)) > 0
    requires s1 == s.(drain := s.drain[i := DrainSlot(Free, None)], ran := s.ran + [s.drain[i].trigger.epoch],
                      count := s.count - 1, threads := s1.threads)
    requires |s1.threads| == |s.threads| && s1.threads == s.threads[t := s1.threads[t]]
    ensures Filled(s1.drain) && s1.count == Total(Occupied(s1.drain))
    ensures |DueFrom(s1.drain, i + 1, s1.safe)| <= s1.count && |DueFrom(s.drain, i, s.safe)| <= s.count
    ensures Drained(s1, t, i + 1, next) == Drained(s, t, i, next)
  {
    var d := DrainSlot(Free, None);
    TotalUpdate(Occupied(s.drain), i, 0);
    assert Occupied(s1.drain) == Occupied(s.drain)[i := 0];
    DueAfter(s.drain, i, i + 1, s.safe, d);
    DueCounted(s1, i + 1);
    DueCounted(s, i);
    assert Emptied(s1.drain, i + 1, s.safe) == Emptied(s.drain, i, s.safe);
    assert s1.threads[t := AfterDrain(next)] == s.threads[t := AfterDrain(next)];
    assert s1.ran + DueFrom(s1.drain, i + 1, s.safe) == s.ran + DueFrom(s.drain, i, s.safe);
  }

  /**
    Main result: a thread that drains by itself, while the count is exact, runs every action from entry i on
    that is due, in the order of the entries, each once; it empties those entries and leaves the others.
  */
  lemma {:induction false} DrainAlone(s: State, t: nat, i: nat, next: Option<nat>)
    requires t < |s.threads| <= |s.table| && i <= |s.drain| && s.threads[t] == Draining(i, next)
    requires Filled(s.drain) && s.count == Total(Occupied(s.drain)) < WORD
    ensures |DueFrom(s.drain, i, s.safe)| <= s.count && Leads(s, t, Drained(s, t, i, next))
    decreases |s.drain| - i
  {
    DueCounted(s, i);
    if i == |s.drain| {
      NoneDue(s.drain, i, s.safe);
      assert Drained(s, t, i, next) == Apply(s, Step(t, DrainEnd));
      LeadsNowhere(Drained(s, t, i, next), t);
      LeadsFrom(s, t, DrainEnd, Drained(s, t, i, next));
    } else if Due(s.drain[i], s.safe) {
      TotalAtLeast(Occupied(s.drain), i);
      var s1 := Pops(s, t, i, next);
      DrainedAfterPop(s, t, i, next, s1);
      if s.count == 1 {
        NothingLeft(s1, i + 1);
        assert Drained(s1, t, i + 1, next) == s1;
        LeadsNowhere(s1, t);
      } else {
        DrainAlone(s1, t, i + 1, next);
      }
    } else {
      var s1 := Passes(s, t, i, next);
      DrainAlone(s1, t, i + 1, next);
      assert Emptied(s1.drain, i + 1, s.safe) == Emptied(s.drain, i, s.safe);
      assert Drained(s1, t, i + 1, next) == Drained(s, t, i, next);
    }
  }

  // ---------- A refresh by one thread when all the others are idle ----------

  ghost predicate Held(s: State, i: nat) {
    exists t :: 0 <= t < |s.threads| && Locks(s.threads[t]) && s.threads[t].slot == i
  }

  ghost predicate LocksHeld(s: State) {
    forall i :: 0 <= i < |s.drain| && s.drain[i].trigger.Locked? ==> Held(s, i)
  }

  /** A thread with a lock can only release the entry. */
  lemma HolderReleases(s: State, step: Step, s': State)
    requires Next(s, step, s') && Locks(s.threads[step.t])
    ensures step.kind.PopRelease? || step.kind.PushRelease? || step.kind.SwapRelease?
    ensures var i := s.threads[step.t].slot; i < |s'.drain| && !s'.drain[i].trigger.Locked?
  {
  }

  lemma HolderComes(s: State, step: Step, s': State, i: nat)
    requires Next(s, step, s') && i < |s.drain| == |s'.drain|
    requires s'.drain[i].trigger.Locked? && !s.drain[i].trigger.Locked?
    ensures step.t < |s'.threads| && Locks(s'.threads[step.t]) && s'.threads[step.t].slot == i
  {
  }

  lemma LocksHeldNext(s: State, step: Step, s': State, i: nat)
    requires Inv(s) && Next(s, step, s') && LocksHeld(s)
    requires i < |s.drain| == |s'.drain| && s'.drain[i].trigger.Locked?
    ensures Held(s', i)
  {
    if s.drain[i].trigger.Locked? {
      var t :| 0 <= t < |s.threads| && Locks(s.threads[t]) && s.threads[t].slot == i;
      StepFrame(s, step);
      if t == step.t {
        HolderReleases(s, step, s');
      } else {
        assert s'.threads[t] == s.threads[t];
      }
    } else {
      HolderComes(s, step, s', i);
    }
  }

  lemma {:induction false} LocksHeldInRun(run: seq<State>, steps: seq<Step>, k: nat)
    requires IsRun(run, steps) && k < |run|
    ensures LocksHeld(run[k])
  {
    if k > 0 {
      LocksHeldInRun(run, steps, k - 1);
      InvInRun(run, steps, k - 1);
      StepFrame(run[k - 1], steps[k - 1]);
      forall i | 0 <= i < |run[k].drain| && run[k].drain[i].trigger.Locked?
        ensures Held(run[k], i)
      {
        LocksHeldNext(run[k - 1], steps[k - 1], run[k], i);
      }
    }
  }

  ghost predicate AllIdle(s: State) {
    forall u :: 0 <= u < |s.threads| ==> s.threads[u].Idle?
  }

  /** Every thread the scan reads is unprotected or in the current epoch, or is t. */
  ghost predicate UpToDate(s: State, t: nat) {
    forall j :: 1 <= j <= s.scanned && j < |s.table| && j != t ==> s.table[j] == UNPROTECTED || s.table[j] == s.current
  }

  /** The scan of thread t, from entry i on, finds no epoch but the current one. */
  lemma {:induction false} ScansAlone(s: State, t: nat, i: nat, next: Option<nat>) returns (s': State)
    requires t < |s.threads| <= |s.table| && 1 <= i <= s.scanned + 1 <= |s.table| && s.current > 0
    requires s.threads[t] == Scanning(s.current, i, next)
    requires forall j :: 1 <= j <= s.scanned ==> s.table[j] == UNPROTECTED || s.table[j] == s.current
    ensures s' == s.(safe := s.current - 1, threads := s.threads[t := Draining(0, next)])
    ensures forall e :: Leads(s', t, e) ==> Leads(s, t, e)
    decreases s.scanned + 1 - i
  {
    var kind := if i <= s.scanned then ScanEntry else ScanDone;
    var s1 := Apply(s, Step(t, kind));
    s' := s1;
    if i <= s.scanned {
      s' := ScansAlone(s1, t, i + 1, next);
      assert s1.threads[t := Draining(0, next)] == s.threads[t := Draining(0, next)];
    }
    forall e | Leads(s', t, e)
      ensures Leads(s, t, e)
    {
      LeadsFrom(s, t, kind, e);
    }
  }

  /** When no thread is in an epoch call, an action that has not run waits in an entry of the drain list. */
  lemma WaitsInEntry(s: State, a: nat) returns (i: nat)
    requires AllIdle(s) && Conserved(s, a) && a in s.registered && a !in s.ran
    ensures i < |s.drain| && s.drain[i].action == Some(a)
  {
    TotalZero(Carried(s.threads, a));
    if forall j :: 0 <= j < |s.drain| ==> s.drain[j].action != Some(a) {
      TotalZero(Stored(s.drain, a));
      assert false;
    }
    i :| 0 <= i < |s.drain| && s.drain[i].action == Some(a);
  }

  lemma {:induction false} DueListed(drain: seq<DrainSlot>, i: nat, safe: nat, j: nat)
    requires i <= j < |drain| && Due(drain[j], safe)
    ensures drain[j].trigger.epoch in DueFrom(drain, i, safe)
    decreases j - i
  {
    if i < j {
      DueListed(drain, i + 1, safe, j);
    }
  }

  /** With no lock held, an entry with an action is due once the safe epoch is the last. */
  lemma EntryDue(s: State, i: nat)
    requires ShapeOk(s) && AllIdle(s) && LocksHeld(s) && i < |s.drain| && SlotOk(s, s.drain[i])
    requires s.drain[i].action.Some?
    ensures Due(s.drain[i], s.current - 1) && s.drain[i].action == Some(s.drain[i].trigger.epoch)
  {
  }

  lemma RegisteredDue(s: State, a: nat)
    requires Inv(s) && AllIdle(s) && LocksHeld(s) && Conserved(s, a) && a in s.registered && a !in s.ran
    ensures a in DueFrom(s.drain, 0, s.current - 1)
  {
    var i := WaitsInEntry(s, a);
    EntryDue(s, i);
    DueListed(s.drain, 0, s.current - 1, i);
  }

  /** The refresh of thread t, up to the point where it reads the drain count. */
  lemma RefreshStarts(s: State, t: nat) returns (s': State)
    requires ShapeOk(s) && t < |s.threads| && s.threads[t].Idle? && UpToDate(s, t)
    ensures s' == s.(table := s'.table, waiting := s'.waiting,
                     threads := s.threads[t := if s.count > 0 then Scanning(s.current, 1, None) else Idle])
    ensures |s'.table| == |s.table|
    ensures forall j :: 1 <= j <= s.scanned ==> s'.table[j] == UNPROTECTED || s'.table[j] == s.current
    ensures forall e :: Leads(s', t, e) ==> Leads(s, t, e)
  {
    var s1 := Apply(s, Step(t, LoadCurrent(true)));
    var s2 := Apply(s1, Step(t, StoreLocal));
    s' := Apply(s2, Step(t, CheckCount));
    assert s'.threads == s.threads[t := s'.threads[t]];
    forall e | Leads(s', t, e)
      ensures Leads(s, t, e)
    {
      LeadsFrom(s2, t, CheckCount, e);
      LeadsFrom(s1, t, StoreLocal, e);
      LeadsFrom(s, t, LoadCurrent(true), e);
    }
  }

  /** Where a refresh by thread t alone ends. */
  lemma RefreshEnds(s: State, t: nat) returns (s': State)
    requires Inv(s) && t < |s.threads| && AllIdle(s) && UpToDate(s, t) && s.count == Total(Occupied(s.drain)) < WORD
    ensures Leads(s, t, s') && AllIdle(s') && s'.registered == s.registered
    ensures s'.ran == s.ran + DueFrom(s.drain, 0, s.current - 1)
    ensures s'.drain == Emptied(s.drain, 0, s.current - 1)
  {
    var s1 := RefreshStarts(s, t);
    if s.count == 0 {
      NothingLeft(s1.(safe := s.current - 1), 0);
      LeadsNowhere(s1, t);
      s' := s1;
    } else {
      var s2 := ScansAlone(s1, t, 1, None);
      DrainAlone(s2, t, 0, None);
      s' := Drained(s2, t, 0, None);
    }
  }

  /**
    Main result: whenever no thread is inside an epoch call and every thread the scan reads is unprotected or in
    the current epoch, one refresh by any thread runs every action that is still waiting, and empties the list.
  */
  lemma LoneRefreshRunsAll(run: seq<State>, steps: seq<Step>, k: nat, t: nat) returns (s': State)
    requires IsRun(run, steps) && k < |run| && t < |run[k].threads| && AllIdle(run[k]) && UpToDate(run[k], t)
    ensures Leads(run[k], t, s') && AllIdle(s') && s'.registered == run[k].registered && run[k].ran <= s'.ran
    ensures forall a :: a in s'.registered ==> a in s'.ran
    ensures forall i :: 0 <= i < |s'.drain| ==> s'.drain[i].action.None?
  {
    var s := run[k];
    InvInRun(run, steps, k);
    QuiescentCountExact(run, steps, k);
    CountInRun(run, steps, k);
    LocksHeldInRun(run, steps, k);
    s' := RefreshEnds(s, t);
    forall a | a in s'.registered
      ensures a in s'.ran
    {
      ConservedInRun(run, steps, k, a);
      if a !in s.ran {
        RegisteredDue(s, a);
      }
    }
    forall i | 0 <= i < |s'.drain|
      ensures s'.drain[i].action.None?
    {
      assert SlotOk(s, s.drain[i]);
      if s.drain[i].action.Some? {
        EntryDue(s, i);
      }
    }
  }

  // ---------- Registering an action by one thread ----------

  /** An action can be put into this entry, perhaps in exchange for one that is due. */
  predicate Usable(d: DrainSlot, safe: nat) {
    d.trigger.Free? || Due(d, safe)
  }

  /** Thread t has put its action into entry k; the action it may have found there has run. */
  ghost predicate Registered(s: State, t: nat, mine: nat, k: nat, s': State) {
    && k < |s.drain| && Usable(s.drain[k], s.safe) && t < |s.threads|
    && s' == s.(drain := s.drain[k := DrainSlot(At(mine), Some(mine))], threads := s.threads[t := Idle],
                ran := if s.drain[k].trigger.Free? then s.ran else s.ran + [s.drain[k].trigger.epoch],
                count := if s.drain[k].trigger.Free? then (s.count + 1) % WORD else s.count)
  }

  function Steps(i: nat, j: nat, n: nat): int {
    if i <= j then j - i else n - i + j
  }

  /** Thread t finds entry i free and locks it. */
  lemma LocksFree(s: State, t: nat, i: nat, mine: nat) returns (s': State)
    requires t < |s.threads| <= |s.table| && i < |s.drain| && s.threads[t] == Pushing(i, mine)
    requires s.drain[i].trigger.Free?
    ensures s' == s.(drain := s.drain[i := s.drain[i].(trigger := Locked)],
                     threads := s.threads[t := PushLocked(i, mine)])
    ensures forall e :: Leads(s', t, e) ==> Leads(s, t, e)
  {
    var s1 := Apply(s, Step(t, PushLoad));
    var s2 := Apply(s1, Step(t, PushCompare));
    s' := Apply(s2, Step(t, TryPush));
    assert s'.threads == s.threads[t := PushLocked(i, mine)];
    forall e | Leads(s', t, e)
      ensures Leads(s, t, e)
    {
      LeadsFrom(s2, t, TryPush, e);
      LeadsFrom(s1, t, PushCompare, e);
      LeadsFrom(s, t, PushLoad, e);
    }
  }

  /** Thread t finds that the action of entry i may run, and locks the entry. */
  lemma LocksForSwap(s: State, t: nat, i: nat, mine: nat) returns (s': State)
    requires t < |s.threads| <= |s.table| && i < |s.drain| && s.threads[t] == Pushing(i, mine)
    requires Due(s.drain[i], s.safe)
    ensures s' == s.(drain := s.drain[i := s.drain[i].(trigger := Locked)],
                     threads := s.threads[t := SwapLocked(i, mine)])
    ensures forall e :: Leads(s', t, e) ==> Leads(s, t, e)
  {
    var s1 := Apply(s, Step(t, PushLoad));
    var s2 := Apply(s1, Step(t, PushCompare));
    s' := Apply(s2, Step(t, TrySwap));
    assert s'.threads == s.threads[t := SwapLocked(i, mine)];
    forall e | Leads(s', t, e)
      ensures Leads(s, t, e)
    {
      LeadsFrom(s2, t, TrySwap, e);
      LeadsFrom(s1, t, PushCompare, e);
      LeadsFrom(s, t, PushLoad, e);
    }
  }

  lemma Fills(s: State, t: nat, i: nat, mine: nat) returns (s': State)
    requires t < |s.threads| <= |s.table| && i < |s.drain| && s.threads[t] == Pushing(i, mine)
    requires s.drain[i].trigger.Free?
    ensures Registered(s, t, mine, i, s') && forall e :: Leads(s', t, e) ==> Leads(s, t, e)
  {
    var s1 := LocksFree(s, t, i, mine);
    var s2 := Apply(s1, Step(t, PushRelease));
    s' := Apply(s2, Step(t, PushCount));
    assert s'.threads == s.threads[t := Idle] && s'.drain == s.drain[i := DrainSlot(At(mine), Some(mine))];
    forall e | Leads(s', t, e)
      ensures Leads(s, t, e)
    {
      LeadsFrom(s2, t, PushCount, e);
      LeadsFrom(s1, t, PushRelease, e);
    }
  }

  lemma Swaps(s: State, t: nat, i: nat, mine: nat) returns (s': State)
    requires t < |s.threads| <= |s.table| && i < |s.drain| && s.threads[t] == Pushing(i, mine)
    requires Due(s.drain[i], s.safe) && s.drain[i].action == Some(s.drain[i].trigger.epoch)
    ensures Registered(s, t, mine, i, s') && forall e :: Leads(s', t, e) ==> Leads(s, t, e)
  {
    var s1 := LocksForSwap(s, t, i, mine);
    var s2 := Apply(s1, Step(t, SwapRelease));
    s' := Apply(s2, Step(t, SwapRun));
    assert s'.threads == s.threads[t := Idle] && s'.drain == s.drain[i := DrainSlot(At(mine), Some(mine))];
    forall e | Leads(s', t, e)
      ensures Leads(s, t, e)
    {
      LeadsFrom(s2, t, SwapRun, e);
      LeadsFrom(s1, t, SwapRelease, e);
    }
  }

  lemma GoesRound(s: State, t: nat, i: nat, mine: nat) returns (s': State)
    requires t < |s.threads| <= |s.table| && i < |s.drain| && s.threads[t] == Pushing(i, mine)
    requires !Usable(s.drain[i], s.safe)
    ensures s' == s.(threads := s.threads[t := Pushing(NextSlot(s, i), mine)])
    ensures forall e :: Leads(s', t, e) ==> Leads(s, t, e)
  {
    var s1 := Apply(s, Step(t, PushLoad));
    s' := Apply(s1, Step(t, PushCompare));
    assert s'.threads == s.threads[t := Pushing(NextSlot(s, i), mine)];
    forall e | Leads(s', t, e)
      ensures Leads(s, t, e)
    {
      LeadsFrom(s1, t, PushCompare, e);
      LeadsFrom(s, t, PushLoad, e);
    }
  }

  /**
    Main result: a thread that pushes its action by itself, while some entry j is free or due, comes to an entry
    that it can use: it leaves its action there, and runs the action that it takes out, if any.
  */
  lemma {:induction false} PushAlone(s: State, t: nat, i: nat, mine: nat, j: nat) returns (k: nat, s': State)
    requires t < |s.threads| <= |s.table| && i < |s.drain| && s.threads[t] == Pushing(i, mine)
    requires Filled(s.drain) && j < |s.drain| && Usable(s.drain[j], s.safe)
    ensures Leads(s, t, s') && Registered(s, t, mine, k, s')
    decreases Steps(i, j, |s.drain|)
  {
    if Usable(s.drain[i], s.safe) {
      k := i;
      if s.drain[i].trigger.Free? {
        s' := Fills(s, t, i, mine);
      } else {
        s' := Swaps(s, t, i, mine);
      }
      LeadsNowhere(s', t);
    } else {
      var s1 := GoesRound(s, t, i, mine);
      k, s' := PushAlone(s1, t, NextSlot(s, i), mine, j);
      assert s1.threads[t := Idle] == s.threads[t := Idle];
    }
  }
}
