/** An insert into a leaf by one thread alone, in any state that a run can reach. */
module LeafInsert {
  import opened Options
  import opened LeafFreeze

  ghost predicate IsLone(path: seq<State>, steps: seq<Step>, s: State, t: nat, s': State) {
    && |path| == |steps| + 1 && path[0] == s && path[|steps|] == s'
    && forall i {:trigger steps[i]} ::
         0 <= i < |steps| ==> Enabled(path[i], steps[i]) && path[i + 1] == Apply(path[i], steps[i]) && steps[i].t == t
  }

  /** By steps of its own only, thread t takes s to s'. */
  ghost predicate Leads(s: State, t: nat, s': State) {
    exists path: seq<State>, steps: seq<Step> :: IsLone(path, steps, s, t, s')
  }

  lemma LeadsNowhere(s: State, t: nat)
    ensures Leads(s, t, s)
  {
    assert IsLone([s], [], s, t, s);
  }

  lemma LeadsFrom(s: State, t: nat, kind: Kind, s': State)
    requires Enabled(s, Step(t, kind)) && Leads(Apply(s, Step(t, kind)), t, s')
    ensures Leads(s, t, s')
  {
    var path: seq<State>, steps: seq<Step> :| IsLone(path, steps, Apply(s, Step(t, kind)), t, s');
    var path', steps' := [s] + path, [Step(t, kind)] + steps;
    forall i {:trigger steps'[i]} | 0 <= i < |steps'|
      ensures Enabled(path'[i], steps'[i]) && path'[i + 1] == Apply(path'[i], steps'[i]) && steps'[i].t == t
    {
      assert i > 0 ==> steps'[i] == steps[i - 1] && path'[i] == path[i - 1];
    }
    assert IsLone(path', steps', s, t, s');
  }

  ghost predicate SameRecords(s: State, s': State) {
    forall i: nat :: Rec(s', i) == Rec(s, i)
  }

  /** A step that publishes, updates and deletes nothing. */
  lemma SilentStep(s: State, t: nat, kind: Kind, s': State)
    requires Inv(s) && Enabled(s, Step(t, kind)) && s' == Apply(s, Step(t, kind))
    requires !kind.Publish? && !kind.Update? && !kind.Delete?
    ensures Inv(s') && SameRecords(s, s')
  {
    InvStep(s, Step(t, kind));
    forall i: nat
      ensures Rec(s', i) == Rec(s, i)
    {
      OneRecordChanges(s, Step(t, kind), i);
    }
  }

  lemma CopyEnabled(s: State, t: nat)
    requires Inv(s) && t < |s.threads| && s.threads[t].Copying?
    ensures Enabled(s, Step(t, CopyWord))
  {
    assert PcOk(s, t, s.threads[t]);
  }

  /** Word by word, the record comes into the leaf, and nothing else is seen to change. */
  lemma {:induction false} CopyEnds(s: State, t: nat, slot: nat, words: seq<nat>, next: nat) returns (s': State)
    requires Inv(s) && t < |s.threads| && s.threads[t] == Copying(slot, words, next) && next < |words|
    ensures Inv(s') && SameRecords(s, s') && s'.threads == s.threads[t := Copied(slot, words, false)]
    ensures s'.status == s.status && s'.metas == s.metas && s'.extents == s.extents
    ensures forall e :: Leads(s', t, e) ==> Leads(s, t, e)
    decreases |words| - next
  {
    CopyEnabled(s, t);
    var s1 := Apply(s, Step(t, CopyWord));
    SilentStep(s, t, CopyWord, s1);
    s' := s1;
    if next + 1 < |words| {
      s' := CopyEnds(s1, t, slot, words, next + 1);
    }
    forall e | Leads(s', t, e)
      ensures Leads(s, t, e)
    {
      LeadsFrom(s, t, CopyWord, e);
    }
  }

  /** The record that an insert adds: in the next slot, whatever else the leaf holds. */
  ghost predicate Inserted(s: State, s': State, t: nat, words: seq<nat>) {
    && s'.status == s.status.(count := s.status.count + 1, block := s.status.block + |words|)
    && s'.threads == s.threads && Rec(s, s.status.count) == None && Rec(s', s.status.count) == Some(words)
    && forall i: nat :: i != s.status.count ==> Rec(s', i) == Rec(s, i)
  }

  lemma ReserveAlone(s: State, t: nat, words: seq<nat>) returns (s': State)
    requires Inv(s) && t < |s.threads| && s.threads[t].Idle? && !s.status.frozen && 2 <= |words|
    requires NewSize(s.status, words) < s.threshold
    ensures Inv(s') && SameRecords(s, s') && s'.threads == s.threads[t := Copying(s.status.count, words, 0)]
    ensures s'.status == s.status.(count := s.status.count + 1, block := s.status.block + |words|)
    ensures s.status.count < |s'.metas| && s'.metas[s.status.count] == Inserting && s.status.count < |s'.extents|
    ensures forall e :: Leads(s', t, e) ==> Leads(s, t, e)
  {
    var s1 := Apply(s, Step(t, BeginInsert(words)));
    SilentStep(s, t, BeginInsert(words), s1);
    s' := Apply(s1, Step(t, Reserve));
    SilentStep(s1, t, Reserve, s');
    forall e | Leads(s', t, e)
      ensures Leads(s, t, e)
    {
      LeadsFrom(s1, t, Reserve, e);
      LeadsFrom(s, t, BeginInsert(words), e);
    }
  }

  lemma PublishAlone(s: State, t: nat, slot: nat, words: seq<nat>) returns (s': State)
    requires Inv(s) && t < |s.threads| && s.threads[t] == Copied(slot, words, false) && !s.status.frozen
    ensures slot < |s.metas| && s'.status == s.status && s'.threads == s.threads[t := Idle]
    ensures Leads(s, t, s') && Rec(s', slot) == Some(words)
    ensures forall i: nat :: i != slot ==> Rec(s', i) == Rec(s, i)
  {
    assert PcOk(s, t, s.threads[t]);
    var s1 := Apply(s, Step(t, LoadForPublish));
    SilentStep(s, t, LoadForPublish, s1);
    s' := Apply(s1, Step(t, Publish));
    forall i: nat
      ensures Rec(s', i) == if i == slot then Some(words) else Rec(s, i)
    {
      OneRecordChanges(s1, Step(t, Publish), i);
    }
    LeadsNowhere(s', t);
    LeadsFrom(s1, t, Publish, s');
    LeadsFrom(s, t, LoadForPublish, s');
  }

  /**
    Main result: in every run, an insert into a leaf that is not frozen and has room for it, by a thread that
    is left alone, makes exactly its record visible, in the next slot, and leaves all the others.
  */
  lemma InsertAlone(run: seq<State>, steps: seq<Step>, k: nat, t: nat, words: seq<nat>) returns (s': State)
    requires IsRun(run, steps) && k < |run| && t < |run[k].threads| && run[k].threads[t].Idle?
    requires !run[k].status.frozen && 2 <= |words| && NewSize(run[k].status, words) < run[k].threshold
    ensures Leads(run[k], t, s') && Inserted(run[k], s', t, words)
  {
    var s := run[k];
    InvInRun(run, steps, k);
    var s1 := ReserveAlone(s, t, words);
    var s2 := CopyEnds(s1, t, s.status.count, words, 0);
    s' := PublishAlone(s2, t, s.status.count, words);
    assert s'.threads == s.threads;
    assert Rec(s, s.status.count) == None;
    forall i: nat | i != s.status.count
      ensures Rec(s', i) == Rec(s, i)
    {
      assert Rec(s2, i) == Rec(s1, i) == Rec(s, i);
    }
  }
}
