/**
  What happens to the entries of the hash index over a run: which of them the collector may remove,
  that a search finds an entry that stays, that no tentative entry is left behind, and that a search
  left alone ends with an entry of its tag.
*/
module HashRuns {
  import opened Options
  import opened HashIndex

  lemma RunStep(run: seq<State>, steps: seq<Step>, k: nat)
    requires IsRun(run, steps) && k < |steps|
    ensures Enabled(run[k], steps[k]) && run[k + 1] == Apply(run[k], steps[k])
  {
  }

  // ---------- Which entries the collector removes ----------

  /** The collector looks at p for entries below `begin`. */
  predicate Collects(step: Step, p: Slot, address: nat) {
    step.GcLoad? && step.slot == p && step.begin > address
  }

  /** An install that finds the entry it expects at p. */
  predicate Installs(s: State, step: Step, p: Slot) {
    && Enabled(s, step) && step.Install?
    && s.threads[step.t].held == p && At(s, p) == s.threads[step.t].expected
  }

  /** No collector is about to remove an entry from p whose address is not below this one. */
  ghost predicate SparesFrom(s: State, p: Slot, address: nat) {
    forall t :: t in s.threads && s.threads[t].Collecting? && s.threads[t].held == p ==>
      s.threads[t].expected.address < address
  }

  lemma SparesNext(s: State, step: Step, s': State, p: Slot, address: nat)
    requires Enabled(s, step) && s' == Apply(s, step) && SparesFrom(s, p, address) && !Collects(step, p, address)
    ensures SparesFrom(s', p, address)
  {
    assert forall t :: t in s'.threads && t != step.t ==> t in s.threads && s'.threads[t] == s.threads[t];
  }

  lemma {:induction false} SparesInRun(run: seq<State>, steps: seq<Step>, k: nat, p: Slot, address: nat)
    requires IsRun(run, steps) && k < |run|
    requires forall m {:trigger steps[m]} :: 0 <= m < k ==> !Collects(steps[m], p, address)
    ensures SparesFrom(run[k], p, address)
  {
    if k > 0 {
      SparesInRun(run, steps, k - 1, p, address);
      SparesNext(run[k - 1], steps[k - 1], run[k], p, address);
    }
  }

  lemma EntryKept(s: State, step: Step, s': State, p: Slot, e: Entry)
    requires Inv(s) && Enabled(s, step) && s' == Apply(s, step) && InChain(s, p) && At(s, p) == e && Final(e)
    requires SparesFrom(s, p, e.address) && !Installs(s, step, p)
    ensures InChain(s', p) && At(s', p) == e
  {
    StepFrame(s, step);
    assert PcOk(s, s.threads[step.t]);
  }

  /**
    Main result: a final entry stays in its slot as long as no install succeeds there and the
    collector has not looked there for addresses above the entry's.
  */
  lemma {:induction false} EntryStays(run: seq<State>, steps: seq<Step>, i: nat, k: nat, p: Slot, e: Entry)
    requires IsRun(run, steps) && i <= k < |run| && InChain(run[i], p) && At(run[i], p) == e && Final(e)
    requires forall m {:trigger steps[m]} :: 0 <= m < k ==> !Collects(steps[m], p, e.address)
    requires forall m {:trigger steps[m]} :: i <= m < k ==> !Installs(run[m], steps[m], p)
    ensures InChain(run[k], p) && At(run[k], p) == e
  {
    if i < k {
      EntryStays(run, steps, i, k - 1, p, e);
      InvInRun(run, steps, k - 1);
      SparesInRun(run, steps, k - 1, p, e.address);
      EntryKept(run[k - 1], steps[k - 1], run[k], p, e);
    }
  }

  lemma {:induction false} StandsStill(run: seq<State>, steps: seq<Step>, i: nat, k: nat, t: nat)
    requires IsRun(run, steps) && i <= k < |run| && t in run[i].threads
    requires forall m :: i <= m < k ==> steps[m].t != t
    ensures t in run[k].threads && run[k].threads[t] == run[i].threads[t]
  {
    if i < k {
      StandsStill(run, steps, i, k - 1, t);
      RunStep(run, steps, k - 1);
    }
  }

  /**
    Main result: when the collector looks at a slot whose entry has an address below the new begin
    address, and the slot is unchanged at its removal, the slot becomes unused; an entry without an
    address is left alone.
  */
  lemma TruncatedRemoved(run: seq<State>, steps: seq<Step>, i: nat, k: nat, t: nat, p: Slot, begin: nat)
    requires IsRun(run, steps) && i < k < |steps| && steps[i] == GcLoad(t, p, begin) && steps[k] == GcRemove(t)
    requires forall m :: i < m < k ==> steps[m].t != t
    requires InChain(run[i], p) && InChain(run[k], p) && At(run[k], p) == At(run[i], p)
    ensures INVALID_ADDRESS != At(run[i], p).address < begin && InChain(run[k + 1], p) && At(run[k + 1], p) == UNUSED
  {
    RunStep(run, steps, i);
    RunStep(run, steps, k);
    StandsStill(run, steps, i + 1, k, t);
  }

  /** The collector turns to every truncated entry it looks at. */
  lemma TruncatedTaken(s: State, step: Step)
    requires Enabled(s, step) && step.GcLoad? && At(s, step.slot) != UNUSED
    requires INVALID_ADDRESS != At(s, step.slot).address < step.begin
    ensures Apply(s, step).threads[step.t] == Collecting(step.slot, At(s, step.slot))
  {
  }

  /** Main result: an install that finds the entry it expects leaves its record's address under its tag. */
  lemma InstallTakes(run: seq<State>, steps: seq<Step>, k: nat, t: nat, address: nat, p: Slot)
    requires IsRun(run, steps) && k < |steps| && steps[k] == Install(t, address) && Installs(run[k], steps[k], p)
    ensures InChain(run[k + 1], p) && At(run[k + 1], p) == Entry(address, run[k].threads[t].tag, false)
  {
    RunStep(run, steps, k);
  }

  // ---------- A search finds an entry that stays ----------

  /** The cursor has not gone past p. */
  predicate NotPast(cursor: Slot, p: Slot) {
    cursor.bucket < p.bucket || (cursor.bucket == p.bucket && cursor.index <= p.index)
  }

  /** The search for a tag has its entry ahead, or has found it. */
  predicate OnTheWay(pc: Pc, tag: nat, p: Slot, e: Entry) {
    || (pc.Finding? && pc.tag == tag && NotPast(pc.cursor, p))
    || pc == Holding(tag, p, e)
  }

  lemma StaysOnTheWay(s: State, step: Step, s': State, t: nat, tag: nat, p: Slot, e: Entry)
    requires Inv(s) && Enabled(s, step) && s' == Apply(s, step) && t in s.threads
    requires InChain(s, p) && At(s, p) == e && Final(e) && e.tag == tag
    requires OnTheWay(s.threads[t], tag, p, e) && (step.t == t ==> !step.Install? && !step.Return?)
    ensures t in s'.threads && OnTheWay(s'.threads[t], tag, p, e)
  {
    assert PcOk(s, s.threads[t]);
  }

  /**
    Main result: if a final entry of a tag stays in its slot, a search for the tag never claims a slot
    or grows the chain: it goes towards that entry until it returns it.
  */
  lemma {:induction false} StableEntryFound(
    run: seq<State>, steps: seq<Step>, i: nat, k: nat, t: nat, tag: nat, p: Slot, e: Entry)
    requires IsRun(run, steps) && i < k < |run| && steps[i] == StartFind(t, tag) && Final(e) && e.tag == tag
    requires forall m :: i <= m < k ==> InChain(run[m], p) && At(run[m], p) == e
    requires forall m :: i < m < k && steps[m].t == t ==> !steps[m].Install? && !steps[m].Return?
    ensures t in run[k].threads && OnTheWay(run[k].threads[t], tag, p, e)
  {
    if k == i + 1 {
      RunStep(run, steps, i);
    } else {
      StableEntryFound(run, steps, i, k - 1, t, tag, p, e);
      InvInRun(run, steps, k - 1);
      StaysOnTheWay(run[k - 1], steps[k - 1], run[k], t, tag, p, e);
    }
  }

  /** The thread looks for the tag, adds an entry of it, or has been given one. */
  predicate Searching(pc: Pc, tag: nat) {
    && (pc.Finding? || pc.Growing? || pc.Claiming? || pc.Checking? || pc.BackingOff? || pc.Committing? || pc.Holding?)
    && pc.tag == tag
  }

  lemma SearchNext(s: State, step: Step, s': State, t: nat, tag: nat)
    requires Enabled(s, step) && s' == Apply(s, step) && t in s.threads && Searching(s.threads[t], tag)
    requires step.t == t ==> !step.Install? && !step.Return?
    ensures t in s'.threads && Searching(s'.threads[t], tag)
  {
  }

  /** Main result: a search never gives up: whatever conflicts it meets, it goes on until it returns an entry. */
  lemma {:induction false} SearchGoesOn(run: seq<State>, steps: seq<Step>, i: nat, k: nat, t: nat, tag: nat)
    requires IsRun(run, steps) && i < k < |run| && steps[i] == StartFind(t, tag)
    requires forall m :: i < m < k && steps[m].t == t ==> !steps[m].Install? && !steps[m].Return?
    ensures t in run[k].threads && Searching(run[k].threads[t], tag)
    ensures run[k].threads[t].Holding? ==>
              InChain(run[k], run[k].threads[t].held) && Final(run[k].threads[t].expected)
              && run[k].threads[t].expected.tag == tag
  {
    if k == i + 1 {
      RunStep(run, steps, i);
    } else {
      SearchGoesOn(run, steps, i, k - 1, t, tag);
      RunStep(run, steps, k - 1);
      SearchNext(run[k - 1], steps[k - 1], run[k], t, tag);
    }
    InvInRun(run, steps, k);
    assert PcOk(run[k], run[k].threads[t]);
  }

  // ---------- No tentative entry is left behind ----------

  ghost predicate Owned(s: State, p: Slot) {
    exists t :: t in s.threads && Owns(s.threads[t]) && s.threads[t].slot == p
  }

  ghost predicate TentativeOwned(s: State) {
    forall p :: InChain(s, p) && At(s, p).tentative ==> Owned(s, p)
  }

  lemma OwnerStays(s: State, step: Step, s': State, p: Slot, t: nat)
    requires Inv(s) && Enabled(s, step) && s' == Apply(s, step)
    requires t in s.threads && Owns(s.threads[t]) && s.threads[t].slot == p
    requires InChain(s', p) && At(s', p).tentative
    ensures t in s'.threads && Owns(s'.threads[t]) && s'.threads[t].slot == p
  {
    assert PcOk(s, s.threads[t]);
  }

  lemma OwnerComes(s: State, step: Step, s': State, p: Slot)
    requires Inv(s) && Enabled(s, step) && s' == Apply(s, step)
    requires InChain(s', p) && At(s', p).tentative && !(InChain(s, p) && At(s, p).tentative)
    ensures step.t in s'.threads && Owns(s'.threads[step.t]) && s'.threads[step.t].slot == p
  {
    StepFrame(s, step);
    assert PcOk(s, s.threads[step.t]);
  }

  lemma OwnedNext(s: State, step: Step, s': State, p: Slot)
    requires Inv(s) && Enabled(s, step) && s' == Apply(s, step) && TentativeOwned(s)
    requires InChain(s', p) && At(s', p).tentative
    ensures Owned(s', p)
  {
    if InChain(s, p) && At(s, p).tentative {
      var t :| t in s.threads && Owns(s.threads[t]) && s.threads[t].slot == p;
      OwnerStays(s, step, s', p, t);
    } else {
      OwnerComes(s, step, s', p);
    }
  }

  /** Main result: every tentative entry belongs to a search that is still at work on it. */
  lemma {:induction false} TentativeOwnedInRun(run: seq<State>, steps: seq<Step>, k: nat)
    requires IsRun(run, steps) && k < |run|
    ensures TentativeOwned(run[k])
  {
    if k > 0 {
      TentativeOwnedInRun(run, steps, k - 1);
      InvInRun(run, steps, k - 1);
      forall p | InChain(run[k], p) && At(run[k], p).tentative
        ensures Owned(run[k], p)
      {
        OwnedNext(run[k - 1], steps[k - 1], run[k], p);
      }
    }
  }

  // ---------- A search left alone ----------

  ghost predicate IsLone(path: seq<State>, steps: seq<Step>, s: State, t: nat, s': State) {
    && |path| == |steps| + 1 && path[0] == s && path[|steps|] == s'
    && forall i {:trigger steps[i]} ::
         0 <= i < |steps| ==> Enabled(path[i], steps[i]) && path[i + 1] == Apply(path[i], steps[i]) && steps[i].t == t
  }

  /** By steps of its own only, thread t takes s to s'. */
  ghost predicate Leads(s: State, t: nat, s': State) {
    exists path: seq<State>, steps: seq<Step> :: IsLone(path, steps, s, t, s')
  }

  lemma LeadsNowhere(s: State, t: nat)
    ensures Leads(s, t, s)
  {
    assert IsLone([s], [], s, t, s);
  }

  /** A step of t first, and then the rest. */
  lemma LeadsFrom(s: State, step: Step, s': State)
    requires Enabled(s, step) && Leads(Apply(s, step), step.t, s')
    ensures Leads(s, step.t, s')
  {
    var path: seq<State>, steps: seq<Step> :| IsLone(path, steps, Apply(s, step), step.t, s');
    var path', steps' := [s] + path, [step] + steps;
    forall i {:trigger steps'[i]} | 0 <= i < |steps'|
      ensures Enabled(path'[i], steps'[i]) && path'[i + 1] == Apply(path'[i], steps'[i]) && steps'[i].t == step.t
    {
      assert i > 0 ==> steps'[i] == steps[i - 1] && path'[i] == path[i - 1];
    }
    assert IsLone(path', steps', s, step.t, s');
  }

  /** Only thread t's progress differs. */
  ghost predicate SameChain(s: State, s': State, t: nat) {
    t in s.threads && t in s'.threads && s' == Goto(s, t, s'.threads[t])
  }

  ghost predicate NoTentative(s: State) {
    forall p :: InChain(s, p) ==> !At(s, p).tentative
  }

  /** Slot p holds an entry of the tag. */
  predicate Holds(s: State, p: Slot, tag: nat) {
    InChain(s, p) && At(s, p) != UNUSED && At(s, p).tag == tag
  }

  /** No slot that a cursor has gone past holds the tag. */
  ghost predicate NoneBehind(s: State, cursor: Slot, tag: nat) {
    forall p :: Holds(s, p, tag) ==> NotPast(cursor, p)
  }

  ghost predicate Absent(s: State, tag: nat) {
    forall p :: !Holds(s, p, tag)
  }

  predicate Free(s: State, p: Slot) {
    InChain(s, p) && At(s, p) == UNUSED
  }

  function Ahead(s: State, cursor: Slot): int {
    (|s.chain| - cursor.bucket) * 9 - cursor.index
  }

  /** The walk over the chain ends at an entry of the tag, or there is none, and a slot to claim or the end is known. */
  lemma {:induction false} WalkEnds(s: State, t: nat, tag: nat) returns (s': State)
    requires NoTentative(s) && t in s.threads && s.threads[t].Finding? && s.threads[t].tag == tag
    requires PcOk(s, s.threads[t]) && NoneBehind(s, s.threads[t].cursor, tag)
    requires s.threads[t].free.Some? ==> Free(s, s.threads[t].free.value)
    ensures SameChain(s, s', t) && forall e :: Leads(s', t, e) ==> Leads(s, t, e)
    ensures match s'.threads[t]
            case Holding(x, p, e) => x == tag && Holds(s, p, tag) && At(s, p) == e
            case Claiming(x, p) => x == tag && Absent(s, tag) && Free(s, p)
            case Growing(x, last) => x == tag && Absent(s, tag) && last + 1 == |s.chain|
            case _ => false
    decreases Ahead(s, s.threads[t].cursor)
  {
    var cursor := s.threads[t].cursor;
    var step := if cursor.index == ENTRIES_PER_BUCKET then LinkFind(t) else LoadFind(t);
    var s1 := Apply(s, step);
    s' := s1;
    if s1.threads[t].Finding? {
      assert forall p :: InChain(s1, p) <==> InChain(s, p);
      assert forall p :: Holds(s1, p, tag) <==> Holds(s, p, tag);
      s' := WalkEnds(s1, t, tag);
      assert forall p :: Holds(s1, p, tag) <==> Holds(s, p, tag);
    }
    forall e | Leads(s', t, e)
      ensures Leads(s, t, e)
    {
      LeadsFrom(s, step, e);
    }
  }

  /** The conflict scan finds only the thread's own entry. */
  lemma {:induction false} CheckEnds(s: State, t: nat, tag: nat, slot: Slot) returns (s': State)
    requires t in s.threads && s.threads[t].Checking? && s.threads[t].tag == tag && s.threads[t].slot == slot
    requires PcOk(s, s.threads[t]) && forall p :: Holds(s, p, tag) ==> p == slot
    ensures SameChain(s, s', t) && s'.threads[t] == Committing(tag, slot)
    ensures forall e :: Leads(s', t, e) ==> Leads(s, t, e)
    decreases Ahead(s, s.threads[t].cursor)
  {
    var cursor := s.threads[t].cursor;
    var step := if cursor.index == ENTRIES_PER_BUCKET then LinkCheck(t) else LoadCheck(t);
    assert cursor.index < ENTRIES_PER_BUCKET ==> InChain(s, cursor) && (Holds(s, cursor, tag) ==> cursor == slot);
    var s1 := Apply(s, step);
    s' := s1;
    if s1.threads[t].Checking? {
      assert forall p :: Holds(s1, p, tag) <==> Holds(s, p, tag);
      s' := CheckEnds(s1, t, tag, slot);
    }
    forall e | Leads(s', t, e)
      ensures Leads(s, t, e)
    {
      LeadsFrom(s, step, e);
    }
  }

  /** The entry that a thread adds for a tag. */
  ghost predicate Added(s: State, s': State, t: nat, tag: nat, p: Slot) {
    && t in s.threads && InChain(s', p) && (InChain(s, p) ==> At(s, p) == UNUSED)
    && s'.threads == s.threads[t := Holding(tag, p, Entry(INVALID_ADDRESS, tag, false))]
    && At(s', p) == Entry(INVALID_ADDRESS, tag, false)
    && forall q :: InChain(s, q) && q != p ==> InChain(s', q) && At(s', q) == At(s, q)
  }

  /** A thread that claims an unused slot for a tag that is absent adds its entry there. */
  lemma ClaimEnds(s: State, t: nat, tag: nat, p: Slot) returns (s': State)
    requires t in s.threads && s.threads[t] == Claiming(tag, p) && |s.chain| > 0 && Absent(s, tag) && Free(s, p)
    ensures Added(s, s', t, tag, p) && Leads(s, t, s')
  {
    var s1 := Apply(s, Claim(t));
    assert forall q :: Holds(s1, q, tag) ==> q == p || Holds(s, q, tag);
    var s2 := CheckEnds(s1, t, tag, p);
    s' := Apply(s2, Commit(t));
    LeadsNowhere(s', t);
    LeadsFrom(s2, Commit(t), s');
    LeadsFrom(s, Claim(t), s');
    assert s'.threads == s.threads[t := s'.threads[t]];
  }

  lemma GrowEnds(s: State, t: nat, tag: nat) returns (s': State)
    requires |s.chain| > 0 && t in s.threads && s.threads[t] == Growing(tag, |s.chain| - 1) && Absent(s, tag)
    ensures Added(s, s', t, tag, Slot(|s.chain|, 0)) && Leads(s, t, s')
  {
    var s1 := Apply(s, Grow(t));
    assert forall q :: InChain(s, q) ==> InChain(s1, q) && At(s1, q) == At(s, q);
    assert forall q :: Holds(s1, q, tag) ==> Holds(s, q, tag);
    s' := ClaimEnds(s1, t, tag, Slot(|s.chain|, 0));
    LeadsFrom(s, Grow(t), s');
    assert s'.threads == s.threads[t := s'.threads[t]];
  }

  /** The search is over: thread t was given the entry of the tag, or a new one if there was none. */
  ghost predicate Served(s: State, s': State, t: nat, tag: nat) {
    || (SameChain(s, s', t) && s'.threads[t].Holding? && Holds(s, s'.threads[t].held, tag)
        && s'.threads[t] == Holding(tag, s'.threads[t].held, At(s, s'.threads[t].held)))
    || (Absent(s, tag) && exists p :: Added(s, s', t, tag, p))
  }

  lemma SameHolds(s: State, s': State, tag: nat)
    requires s'.chain == s.chain
    ensures forall p :: InChain(s', p) == InChain(s, p) && Holds(s', p, tag) == Holds(s, p, tag)
    ensures Absent(s', tag) == Absent(s, tag) && NoTentative(s') == NoTentative(s)
  {
    assert forall p :: InChain(s', p) == InChain(s, p) && (InChain(s, p) ==> At(s', p) == At(s, p));
  }

  lemma SearchEnds(s: State, t: nat, tag: nat) returns (s': State)
    requires |s.chain| > 0 && NoTentative(s) && t in s.threads && s.threads[t].Idle?
    ensures Leads(s, t, s') && Served(s, s', t, tag)
  {
    var s1 := Apply(s, StartFind(t, tag));
    SameHolds(s, s1, tag);
    var s2 := WalkEnds(s1, t, tag);
    SameHolds(s, s2, tag);
    if s2.threads[t].Holding? {
      LeadsNowhere(s2, t);
      s' := s2;
    } else if s2.threads[t].Claiming? {
      s' := ClaimEnds(s2, t, tag, s2.threads[t].slot);
      assert Added(s, s', t, tag, s2.threads[t].slot);
    } else {
      s' := GrowEnds(s2, t, tag);
      assert Added(s, s', t, tag, Slot(|s.chain|, 0));
    }
    LeadsFrom(s, StartFind(t, tag), s');
  }

  /**
    Main result: in every run, while no thread is adding an entry, a search by one thread alone ends: with the
    entry of its tag where there is one, in an unchanged chain, and else with a new entry in an unused slot.
  */
  lemma LoneSearchEnds(run: seq<State>, steps: seq<Step>, k: nat, t: nat, tag: nat) returns (s': State)
    requires IsRun(run, steps) && k < |run| && t in run[k].threads && run[k].threads[t].Idle?
    requires forall u :: u in run[k].threads ==> !Owns(run[k].threads[u])
    ensures Leads(run[k], t, s') && Served(run[k], s', t, tag)
  {
    InvInRun(run, steps, k);
    TentativeOwnedInRun(run, steps, k);
    forall p | InChain(run[k], p)
      ensures !At(run[k], p).tentative
    {
      assert !Owned(run[k], p);
    }
    s' := SearchEnds(run[k], t, tag);
  }
}
