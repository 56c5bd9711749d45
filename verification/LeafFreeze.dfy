/**
  One BzTree leaf under concurrent inserts, updates, deletes and a freeze. A multi-word
  compare-and-swap is one guarded step; everything else is one access per step, and a record is
  copied into the leaf word by word. Searches are left open: a thread may pick any visible record.
*/
module LeafFreeze {
  import opened Options

  const HEADER_WORDS := 4

  datatype Status = Status(frozen: bool, count: nat, block: nat, deleted: nat)

  /** A metadata word: unused, reserved by an insert, or describing a record. */
  datatype Meta = Vacant | Inserting | Final(visible: bool, offset: nat, len: nat)

  /** A record is its padded key followed by one payload word. `dup` marks an insert found to be a duplicate. */
  datatype Pc =
    | Idle
    | Reserving(seen: Status, words: seq<nat>)
    | Copying(slot: nat, words: seq<nat>, next: nat)
    | Zeroing(slot: nat, words: seq<nat>, next: nat)
    | Copied(slot: nat, words: seq<nat>, dup: bool)
    | Publishing(slot: nat, words: seq<nat>, dup: bool, seen: Status)
    | Updating(seen: Status, payload: nat)
    | UpdateFound(seen: Status, payload: nat, slot: nat, meta: Meta)
    | UpdateReady(seen: Status, payload: nat, slot: nat, meta: Meta, previous: nat)
    | Deleting(seen: Status)
    | DeleteFound(seen: Status, slot: nat, meta: Meta)
    | Freezing(seen: Status)

  /** The space a slot reserved and the thread that reserved it; history. */
  datatype Extent = Extent(offset: nat, len: nat, owner: nat)

  datatype State = State(
    threshold: nat,
    mem: seq<nat>,
    status: Status,
    metas: seq<Meta>,
    threads: seq<Pc>,
    extents: seq<Extent>)

  datatype Kind =
    | BeginInsert(words: seq<nat>)
    | Reserve
    | CopyWord
    | FoundDuplicate
    | ZeroWord
    | SeenFrozen
    | LoadForPublish
    | Publish
    | BeginUpdate(payload: nat)
    | FindForUpdate(slot: nat)
    | LoadPayload
    | Update
    | BeginDelete
    | FindForDelete(slot: nat)
    | Delete
    | BeginFreeze
    | Freeze
    | GiveUp

  datatype Step = Step(t: nat, kind: Kind)

  function NewSize(status: Status, words: seq<nat>): nat {
    HEADER_WORDS + status.block + status.count + 1 + |words|
  }

  predicate Shaped(s: State) {
    |s.metas| == s.threshold <= |s.mem|
  }

  predicate Enabled(s: State, step: Step) {
    Shaped(s) && step.t < |s.threads| &&
    var pc := s.threads[step.t];
    match step.kind
    case BeginInsert(words) => pc.Idle? && !s.status.frozen && 2 <= |words| && NewSize(s.status, words) < s.threshold
    case Reserve => pc.Reserving? && pc.seen.count < |s.metas| && pc.seen.block + |pc.words| <= |s.mem|
    case CopyWord => pc.Copying? && pc.next < |pc.words| && RecordFits(s, pc.slot, pc.next)
    case FoundDuplicate => pc.Copied?
    case ZeroWord => pc.Zeroing? && pc.next < |pc.words| && RecordFits(s, pc.slot, pc.next)
    case SeenFrozen => pc.Copied? && s.status.frozen
    case LoadForPublish => pc.Copied?
    case Publish => pc.Publishing? && pc.slot < |s.metas| && pc.slot < |s.extents|
    case BeginUpdate(_) => pc.Idle? && !s.status.frozen
    case FindForUpdate(slot) => pc.Updating? && slot < |s.metas| && s.metas[slot].Final? && s.metas[slot].visible
    case LoadPayload => pc.UpdateFound? && PayloadFits(s, pc.meta)
    case Update => pc.UpdateReady? && pc.slot < |s.metas| && PayloadFits(s, pc.meta)
    case BeginDelete => pc.Idle? && !s.status.frozen
    case FindForDelete(slot) => pc.Deleting? && slot < |s.metas| && s.metas[slot].Final? && s.metas[slot].visible
    case Delete => pc.DeleteFound? && pc.slot < |s.metas| && pc.meta.Final?
    case BeginFreeze => pc.Idle? && !s.status.frozen
    case Freeze => pc.Freezing?
    case GiveUp => pc.Reserving? || pc.Updating? || pc.UpdateFound? || pc.Deleting? || pc.Freezing?
  }

  predicate RecordFits(s: State, slot: nat, next: nat) {
    slot < |s.extents| && s.extents[slot].offset + next < |s.mem|
  }

  predicate PayloadFits(s: State, meta: Meta) {
    meta.Final? && 0 < meta.len && meta.offset + meta.len <= |s.mem|
  }

  function PayloadAt(meta: Meta): nat
    requires meta.Final? && 0 < meta.len
  {
    meta.offset + meta.len - 1
  }

  function SetPc(s: State, t: nat, pc: Pc): State
    requires t < |s.threads|
  {
    s.(threads := s.threads[t := pc])
  }

  function Poke(s: State, i: nat, word: nat): State
    requires i < |s.mem|
  {
    s.(mem := s.mem[i := word])
  }

  function SetMeta(s: State, i: nat, meta: Meta): State
    requires i < |s.metas|
  {
    s.(metas := s.metas[i := meta])
  }

  /** Where a record starts: each reservation takes the space just below the ones before it. */
  function BlockStart(s: State, status: Status): int {
    |s.mem| - status.block
  }

  function AfterCopy(slot: nat, words: seq<nat>, next: nat): Pc {
    if next + 1 < |words| then Copying(slot, words, next + 1) else Copied(slot, words, false)
  }

  function AfterZero(slot: nat, words: seq<nat>, next: nat): Pc {
    if next + 1 < |words| then Zeroing(slot, words, next + 1) else Copied(slot, words, true)
  }

  function Apply(s: State, step: Step): State
    requires Enabled(s, step)
  {
    var t, pc := step.t, s.threads[step.t];
    match step.kind
    case BeginInsert(words) => SetPc(s, t, Reserving(s.status, words))
    case Reserve =>
      var i, n := pc.seen.count, |pc.words|;
      if s.status == pc.seen && s.metas[i].Vacant? then
        SetPc(SetMeta(s, i, Inserting), t, Copying(i, pc.words, 0)).(
          status := s.status.(count := i + 1, block := s.status.block + n),
          extents := s.extents + [Extent(BlockStart(s, s.status) - n, n, t)])
      else SetPc(s, t, Idle)
    case CopyWord =>
      var s' := Poke(s, s.extents[pc.slot].offset + pc.next, pc.words[pc.next]);
      SetPc(s', t, AfterCopy(pc.slot, pc.words, pc.next))
    case FoundDuplicate => SetPc(s, t, Zeroing(pc.slot, pc.words, 0))
    case ZeroWord =>
      var s' := Poke(s, s.extents[pc.slot].offset + pc.next, 0);
      SetPc(s', t, AfterZero(pc.slot, pc.words, pc.next))
    case SeenFrozen => SetPc(s, t, Idle)
    case LoadForPublish =>
      SetPc(s, t, if s.status.frozen then Idle else Publishing(pc.slot, pc.words, pc.dup, s.status))
    case Publish =>
      if s.status == pc.seen && s.metas[pc.slot].Inserting? then
        var offset := s.extents[pc.slot].offset;
        var meta := if pc.dup then Final(false, 0, |pc.words|) else Final(true, offset, |pc.words|);
        SetPc(SetMeta(s, pc.slot, meta), t, Idle)
      else SetPc(s, t, Copied(pc.slot, pc.words, pc.dup))
    case BeginUpdate(payload) => SetPc(s, t, Updating(s.status, payload))
    case FindForUpdate(slot) => SetPc(s, t, UpdateFound(pc.seen, pc.payload, slot, s.metas[slot]))
    case LoadPayload =>
      var previous := s.mem[PayloadAt(pc.meta)];
      SetPc(s, t, if previous == pc.payload then Idle else UpdateReady(pc.seen, pc.payload, pc.slot, pc.meta, previous))
    case Update =>
      if s.mem[PayloadAt(pc.meta)] == pc.previous && s.metas[pc.slot] == pc.meta && s.status == pc.seen then
        SetPc(Poke(s, PayloadAt(pc.meta), pc.payload), t, Idle)
      else SetPc(s, t, Idle)
    case BeginDelete => SetPc(s, t, Deleting(s.status))
    case FindForDelete(slot) => SetPc(s, t, DeleteFound(pc.seen, slot, s.metas[slot]))
    case Delete =>
      if s.status == pc.seen && s.metas[pc.slot] == pc.meta then
        SetPc(SetMeta(s, pc.slot, pc.meta.(visible := false)), t, Idle).(
          status := s.status.(deleted := s.status.deleted + pc.meta.len))
      else SetPc(s, t, Idle)
    case BeginFreeze => SetPc(s, t, Freezing(s.status))
    case Freeze =>
      SetPc(if s.status == pc.seen then s.(status := s.status.(frozen := true)) else s, t, Idle)
    case GiveUp => SetPc(s, t, Idle)
  }

  // ---------- Records ----------

  predicate Visible(s: State, i: nat) {
    i < |s.metas| && s.metas[i].Final? && s.metas[i].visible
  }

  predicate InMemory(s: State, meta: Meta) {
    meta.Final? && meta.offset + meta.len <= |s.mem|
  }

  /** The words of the record a metadata word points to. */
  function RecordAt(s: State, meta: Meta): seq<nat>
    requires InMemory(s, meta)
  {
    s.mem[meta.offset..meta.offset + meta.len]
  }

  // ---------- The invariant ----------

  ghost predicate ExtentsOk(s: State) {
    && |s.extents| == s.status.count && s.status.block <= |s.mem|
    && (forall i :: 0 <= i < |s.extents| ==>
          && s.extents[i].offset + s.extents[i].len <= |s.mem|
          && |s.mem| - s.status.block <= s.extents[i].offset && 2 <= s.extents[i].len)
    && (forall i, j :: 0 <= i < j < |s.extents| ==> s.extents[j].offset + s.extents[j].len <= s.extents[i].offset)
  }

  ghost predicate MetasOk(s: State) {
    && Shaped(s) && s.status.count <= s.threshold
    && (forall i :: s.status.count <= i < |s.metas| ==> s.metas[i].Vacant?)
    && (forall i :: 0 <= i < s.status.count && i < |s.extents| ==>
          && !s.metas[i].Vacant?
          && (Visible(s, i) ==> s.metas[i] == Final(true, s.extents[i].offset, s.extents[i].len)))
  }

  /** The slot an insert is working on is still its own and not visible. */
  ghost predicate Owns(s: State, t: nat, slot: nat, words: seq<nat>) {
    && slot < s.status.count && slot < |s.extents| && slot < |s.metas|
    && s.metas[slot].Inserting? && s.extents[slot].owner == t && s.extents[slot].len == |words|
  }

  ghost predicate HasCopied(s: State, slot: nat, words: seq<nat>, n: nat)
    requires slot < |s.extents|
  {
    n <= |words| && s.extents[slot].offset + n <= |s.mem|
    && forall j :: 0 <= j < n ==> s.mem[s.extents[slot].offset + j] == words[j]
  }

  ghost predicate PcOk(s: State, t: nat, pc: Pc) {
    match pc
    case Idle => true
    case Reserving(seen, words) => !seen.frozen && 2 <= |words| && NewSize(seen, words) < s.threshold
    case Copying(slot, words, next) => Owns(s, t, slot, words) && next < |words| && HasCopied(s, slot, words, next)
    case Zeroing(slot, words, next) => Owns(s, t, slot, words) && next < |words|
    case Copied(slot, words, dup) => Owns(s, t, slot, words) && (!dup ==> HasCopied(s, slot, words, |words|))
    case Publishing(slot, words, dup, seen) =>
      Owns(s, t, slot, words) && !seen.frozen && (!dup ==> HasCopied(s, slot, words, |words|))
    case Updating(seen, _) => !seen.frozen
    case UpdateFound(seen, _, _, meta) => !seen.frozen && meta.Final? && meta.visible
    case UpdateReady(seen, _, _, meta, _) => !seen.frozen && meta.Final? && meta.visible
    case Deleting(seen) => !seen.frozen
    case DeleteFound(seen, _, meta) => !seen.frozen && meta.Final? && meta.visible
    case Freezing(seen) => !seen.frozen
  }

  ghost predicate PcsOk(s: State) {
    forall t :: 0 <= t < |s.threads| ==> PcOk(s, t, s.threads[t])
  }

  ghost predicate Inv(s: State) {
    ExtentsOk(s) && MetasOk(s) && PcsOk(s)
  }

  // ---------- Steps keep the invariant ----------

  /** A step of thread t leaves the slots that other threads are filling alone. */
  ghost predicate Quiet(s: State, s': State, t: nat) {
    && s'.threshold == s.threshold && |s'.mem| == |s.mem| && |s'.metas| == |s.metas|
    && s.status.count <= s'.status.count && |s.extents| <= |s'.extents|
    && (forall i :: 0 <= i < |s.extents| ==> s'.extents[i] == s.extents[i])
    && (forall i :: 0 <= i < |s.extents| && i < |s.metas| && s.metas[i].Inserting? && s.extents[i].owner != t ==>
          s'.metas[i].Inserting?)
    && (forall i, a :: 0 <= i < |s.extents| && i < |s.metas| && s.metas[i].Inserting? && s.extents[i].owner != t
                       && s.extents[i].offset <= a < s.extents[i].offset + s.extents[i].len && a < |s.mem| ==>
          s'.mem[a] == s.mem[a])
  }

  lemma OtherKept(s: State, s': State, t: nat, u: nat, pc: Pc)
    requires Shaped(s) && Quiet(s, s', t) && u != t && PcOk(s, u, pc)
    ensures PcOk(s', u, pc)
  {
  }

  lemma OthersKept(s: State, s': State, t: nat, pc: Pc)
    requires Shaped(s) && PcsOk(s) && Quiet(s, s', t) && t < |s.threads|
    requires s'.threads == s.threads[t := pc] && PcOk(s', t, pc)
    ensures PcsOk(s')
  {
    forall u | 0 <= u < |s'.threads|
      ensures PcOk(s', u, s'.threads[u])
    {
      if u != t {
        OtherKept(s, s', t, u, s.threads[u]);
      }
    }
  }

  lemma PcStep(s: State, t: nat, pc: Pc)
    requires Inv(s) && t < |s.threads| && PcOk(s, t, pc)
    ensures Inv(SetPc(s, t, pc))
  {
    OthersKept(s, SetPc(s, t, pc), t, pc);
  }

  /** A thread writes a word of the record it is inserting. */
  lemma OwnWord(s: State, s': State, t: nat, slot: nat, words: seq<nat>, next: nat, word: nat, pc: Pc)
    requires Inv(s) && t < |s.threads| && Owns(s, t, slot, words) && next < |words|
    requires s.extents[slot].offset + next < |s.mem|
    requires s' == SetPc(Poke(s, s.extents[slot].offset + next, word), t, pc) && PcOk(s', t, pc)
    ensures Inv(s')
  {
    forall i | 0 <= i < |s.extents| && i != slot
      ensures s.extents[slot].offset + next < s.extents[i].offset
              || s.extents[i].offset + s.extents[i].len <= s.extents[slot].offset + next
    {
      if i < slot {
        assert s.extents[slot].offset + s.extents[slot].len <= s.extents[i].offset;
      } else {
        assert s.extents[i].offset + s.extents[i].len <= s.extents[slot].offset;
      }
    }
    OthersKept(s, s', t, pc);
  }

  lemma Reserved(s: State, s': State, t: nat, words: seq<nat>)
    requires Inv(s) && t < |s.threads| && 2 <= |words| && NewSize(s.status, words) < s.threshold
    requires var i := s.status.count;
             s' == State(s.threshold, s.mem, s.status.(count := i + 1, block := s.status.block + |words|),
                         s.metas[i := Inserting], s.threads[t := Copying(i, words, 0)],
                         s.extents + [Extent(|s.mem| - s.status.block - |words|, |words|, t)])
    ensures Inv(s')
  {
    OthersKept(s, s', t, Copying(s.status.count, words, 0));
  }

  lemma ReserveStep(s: State, t: nat)
    requires Inv(s) && Enabled(s, Step(t, Reserve))
    ensures Inv(Apply(s, Step(t, Reserve)))
  {
    var pc := s.threads[t];
    assert PcOk(s, t, pc);
    if s.status == pc.seen && s.metas[pc.seen.count].Vacant? {
      Reserved(s, Apply(s, Step(t, Reserve)), t, pc.words);
    } else {
      PcStep(s, t, Idle);
    }
  }

  lemma Published(s: State, t: nat, slot: nat, words: seq<nat>, meta: Meta)
    requires Inv(s) && t < |s.threads| && Owns(s, t, slot, words)
    requires meta == Final(false, 0, |words|) || meta == Final(true, s.extents[slot].offset, |words|)
    ensures Inv(SetPc(SetMeta(s, slot, meta), t, Idle))
  {
    OthersKept(s, SetPc(SetMeta(s, slot, meta), t, Idle), t, Idle);
  }

  lemma PublishStep(s: State, t: nat)
    requires Inv(s) && Enabled(s, Step(t, Publish))
    ensures Inv(Apply(s, Step(t, Publish)))
  {
    var pc := s.threads[t];
    assert PcOk(s, t, pc);
    if s.status == pc.seen {
      Published(s, t, pc.slot, pc.words, Apply(s, Step(t, Publish)).metas[pc.slot]);
    } else {
      PcStep(s, t, Copied(pc.slot, pc.words, pc.dup));
    }
  }

  lemma UpdateStep(s: State, t: nat)
    requires Inv(s) && Enabled(s, Step(t, Update))
    ensures Inv(Apply(s, Step(t, Update)))
  {
    var s' := Apply(s, Step(t, Update));
    var pc := s.threads[t];
    assert PcOk(s, t, pc);
    if s.metas[pc.slot] == pc.meta {
      assert Visible(s, pc.slot);
      forall i | 0 <= i < |s.extents| && i != pc.slot
        ensures PayloadAt(pc.meta) < s.extents[i].offset || s.extents[i].offset + s.extents[i].len <= PayloadAt(pc.meta)
      {
        if i < pc.slot {
          assert s.extents[pc.slot].offset + s.extents[pc.slot].len <= s.extents[i].offset;
        } else {
          assert s.extents[i].offset + s.extents[i].len <= s.extents[pc.slot].offset;
        }
      }
    }
    OthersKept(s, s', t, Idle);
  }

  lemma DeleteStep(s: State, t: nat)
    requires Inv(s) && Enabled(s, Step(t, Delete))
    ensures Inv(Apply(s, Step(t, Delete)))
  {
    var s' := Apply(s, Step(t, Delete));
    assert PcOk(s, t, s.threads[t]);
    OthersKept(s, s', t, Idle);
  }

  lemma FreezeStep(s: State, t: nat)
    requires Inv(s) && Enabled(s, Step(t, Freeze))
    ensures Inv(Apply(s, Step(t, Freeze)))
  {
    OthersKept(s, Apply(s, Step(t, Freeze)), t, Idle);
  }

  lemma WordCopied(s: State, s': State, t: nat, slot: nat, words: seq<nat>, next: nat, pc: Pc)
    requires t < |s.threads| && Owns(s, t, slot, words) && next < |words| && HasCopied(s, slot, words, next)
    requires s.extents[slot].offset + next < |s.mem|
    requires s' == SetPc(Poke(s, s.extents[slot].offset + next, words[next]), t, pc)
    requires pc == AfterCopy(slot, words, next)
    ensures PcOk(s', t, pc)
  {
    assert HasCopied(s', slot, words, next + 1);
  }

  lemma CopyWordStep(s: State, t: nat)
    requires Inv(s) && Enabled(s, Step(t, CopyWord))
    ensures Inv(Apply(s, Step(t, CopyWord)))
  {
    var s', pc := Apply(s, Step(t, CopyWord)), s.threads[t];
    assert PcOk(s, t, pc);
    WordCopied(s, s', t, pc.slot, pc.words, pc.next, s'.threads[t]);
    OwnWord(s, s', t, pc.slot, pc.words, pc.next, pc.words[pc.next], s'.threads[t]);
  }

  lemma ZeroWordStep(s: State, t: nat)
    requires Inv(s) && Enabled(s, Step(t, ZeroWord))
    ensures Inv(Apply(s, Step(t, ZeroWord)))
  {
    var s', pc := Apply(s, Step(t, ZeroWord)), s.threads[t];
    assert PcOk(s, t, pc);
    OwnWord(s, s', t, pc.slot, pc.words, pc.next, 0, s'.threads[t]);
  }

  /** The steps that only move the thread on. */
  predicate LocalKind(kind: Kind) {
    && !kind.Reserve? && !kind.CopyWord? && !kind.ZeroWord? && !kind.Publish?
    && !kind.Update? && !kind.Delete? && !kind.Freeze?
  }

  lemma LocalStep(s: State, step: Step)
    requires Inv(s) && Enabled(s, step) && LocalKind(step.kind)
    ensures Inv(Apply(s, step))
  {
    assert PcOk(s, step.t, s.threads[step.t]);
    PcStep(s, step.t, Apply(s, step).threads[step.t]);
  }

  lemma InvStep(s: State, step: Step)
    requires Inv(s) && Enabled(s, step)
    ensures Inv(Apply(s, step))
  {
    match step.kind
    case Reserve => ReserveStep(s, step.t);
    case CopyWord => CopyWordStep(s, step.t);
    case ZeroWord => ZeroWordStep(s, step.t);
    case Publish => PublishStep(s, step.t);
    case Update => UpdateStep(s, step.t);
    case Delete => DeleteStep(s, step.t);
    case Freeze => FreezeStep(s, step.t);
    case _ => LocalStep(s, step);
  }

  // ---------- What a step does to the visible records ----------

  /** The record a search sees in a slot. */
  function Rec(s: State, i: nat): Option<seq<nat>> {
    if Visible(s, i) && InMemory(s, s.metas[i]) then Some(RecordAt(s, s.metas[i])) else None
  }

  /** The compare-and-swap of a publish, an update or a delete on slot i succeeds. */
  predicate Succeeds(s: State, step: Step, i: nat)
    requires Enabled(s, step)
  {
    var pc := s.threads[step.t];
    match step.kind
    case Publish => pc.slot == i && s.status == pc.seen && s.metas[i].Inserting? && !pc.dup
    case Update =>
      && pc.slot == i && s.status == pc.seen && s.metas[i] == pc.meta
      && s.mem[PayloadAt(pc.meta)] == pc.previous
    case Delete => pc.slot == i && s.status == pc.seen && s.metas[i] == pc.meta
    case _ => false
  }

  /** An insert brings in its whole record, an update replaces the payload, a delete takes the record away. */
  function RecAfter(s: State, step: Step, i: nat): Option<seq<nat>>
    requires Enabled(s, step)
  {
    var pc := s.threads[step.t];
    if !Succeeds(s, step, i) then Rec(s, i)
    else if step.kind.Publish? then Some(pc.words)
    else if step.kind.Update? && Rec(s, i).Some? && Rec(s, i).value != [] then
      Some(Rec(s, i).value[|Rec(s, i).value| - 1 := pc.payload])
    else None
  }

  /** The records of two slots do not overlap. */
  lemma Apart(s: State, i: nat, j: nat)
    requires ExtentsOk(s) && i < |s.extents| && j < |s.extents| && i != j
    ensures s.extents[i].offset + s.extents[i].len <= s.extents[j].offset
            || s.extents[j].offset + s.extents[j].len <= s.extents[i].offset
  {
  }

  lemma VisibleInMemory(s: State, i: nat)
    requires Inv(s) && Visible(s, i)
    ensures i < |s.extents| && s.metas[i] == Final(true, s.extents[i].offset, s.extents[i].len)
    ensures InMemory(s, s.metas[i]) && s.metas[i].len >= 2
  {
  }

  lemma PokeElsewhere(s: State, a: nat, word: nat, i: nat)
    requires a < |s.mem| && Visible(s, i) && InMemory(s, s.metas[i])
    requires a < s.metas[i].offset || s.metas[i].offset + s.metas[i].len <= a
    ensures Rec(Poke(s, a, word), i) == Rec(s, i)
  {
    assert RecordAt(Poke(s, a, word), s.metas[i]) == RecordAt(s, s.metas[i]);
  }

  lemma WordEffect(s: State, step: Step, i: nat)
    requires Inv(s) && Enabled(s, step) && (step.kind.CopyWord? || step.kind.ZeroWord?)
    ensures Rec(Apply(s, step), i) == Rec(s, i)
  {
    var pc := s.threads[step.t];
    assert PcOk(s, step.t, pc);
    if Visible(s, i) {
      VisibleInMemory(s, i);
      Apart(s, i, pc.slot);
      PokeElsewhere(s, s.extents[pc.slot].offset + pc.next, if step.kind.CopyWord? then pc.words[pc.next] else 0, i);
    }
  }

  lemma RecordPublished(s: State, s': State, slot: nat, words: seq<nat>)
    requires slot < |s.extents| && HasCopied(s, slot, words, |words|) && slot < |s'.metas|
    requires s'.mem == s.mem && s'.metas[slot] == Final(true, s.extents[slot].offset, |words|)
    ensures Rec(s', slot) == Some(words)
  {
    var offset := s.extents[slot].offset;
    assert s.mem[offset..offset + |words|] == words;
  }

  lemma PublishEffect(s: State, t: nat, i: nat)
    requires Inv(s) && Enabled(s, Step(t, Publish))
    ensures Rec(Apply(s, Step(t, Publish)), i) == RecAfter(s, Step(t, Publish), i)
  {
    var pc := s.threads[t];
    assert PcOk(s, t, pc);
    if Succeeds(s, Step(t, Publish), i) {
      RecordPublished(s, Apply(s, Step(t, Publish)), i, pc.words);
    }
  }

  lemma PokePayload(s: State, i: nat, payload: nat)
    requires Visible(s, i) && InMemory(s, s.metas[i]) && s.metas[i].len > 0
    ensures var r := RecordAt(s, s.metas[i]);
            Rec(Poke(s, PayloadAt(s.metas[i]), payload), i) == Some(r[|r| - 1 := payload])
  {
    var s', meta := Poke(s, PayloadAt(s.metas[i]), payload), s.metas[i];
    assert RecordAt(s', meta) == RecordAt(s, meta)[meta.len - 1 := payload];
  }

  lemma UpdateOfOther(s: State, t: nat, i: nat)
    requires Inv(s) && Enabled(s, Step(t, Update)) && i != s.threads[t].slot
    ensures Rec(Apply(s, Step(t, Update)), i) == RecAfter(s, Step(t, Update), i)
  {
    var pc := s.threads[t];
    assert PcOk(s, t, pc);
    if Visible(s, i) && s.metas[pc.slot] == pc.meta {
      VisibleInMemory(s, i);
      VisibleInMemory(s, pc.slot);
      Apart(s, i, pc.slot);
      PokeElsewhere(s, PayloadAt(pc.meta), pc.payload, i);
    }
  }

  lemma SamePlace(s: State, s': State, i: nat)
    requires s'.mem == s.mem && s'.metas == s.metas
    ensures Rec(s', i) == Rec(s, i)
  {
  }

  lemma UpdateOfOwn(s: State, t: nat, i: nat)
    requires Inv(s) && Enabled(s, Step(t, Update)) && i == s.threads[t].slot
    ensures Rec(Apply(s, Step(t, Update)), i) == RecAfter(s, Step(t, Update), i)
  {
    var pc, s' := s.threads[t], Apply(s, Step(t, Update));
    assert PcOk(s, t, pc);
    if Succeeds(s, Step(t, Update), i) {
      VisibleInMemory(s, i);
      PokePayload(s, i, pc.payload);
      SamePlace(Poke(s, PayloadAt(pc.meta), pc.payload), s', i);
    } else {
      SamePlace(s, s', i);
    }
  }

  lemma UpdateEffect(s: State, t: nat, i: nat)
    requires Inv(s) && Enabled(s, Step(t, Update))
    ensures Rec(Apply(s, Step(t, Update)), i) == RecAfter(s, Step(t, Update), i)
  {
    if i == s.threads[t].slot {
      UpdateOfOwn(s, t, i);
    } else {
      UpdateOfOther(s, t, i);
    }
  }

  /** Main result: the visible records change only at a successful publish, update or delete, one record at once. */
  lemma OneRecordChanges(s: State, step: Step, i: nat)
    requires Inv(s) && Enabled(s, step)
    ensures Rec(Apply(s, step), i) == RecAfter(s, step, i)
  {
    match step.kind
    case CopyWord => WordEffect(s, step, i);
    case ZeroWord => WordEffect(s, step, i);
    case Publish => PublishEffect(s, step.t, i);
    case Update => UpdateEffect(s, step.t, i);
    case Reserve => ReserveEffect(s, step.t, i);
    case Delete => DeleteEffect(s, step.t, i);
    case _ => LocalEffect(s, step, i);
  }

  lemma ReserveEffect(s: State, t: nat, i: nat)
    requires Inv(s) && Enabled(s, Step(t, Reserve))
    ensures Rec(Apply(s, Step(t, Reserve)), i) == Rec(s, i)
  {
    assert Visible(s, i) ==> i < s.status.count;
  }

  lemma DeleteEffect(s: State, t: nat, i: nat)
    requires Inv(s) && Enabled(s, Step(t, Delete))
    ensures Rec(Apply(s, Step(t, Delete)), i) == RecAfter(s, Step(t, Delete), i)
  {
  }

  lemma LocalEffect(s: State, step: Step, i: nat)
    requires Enabled(s, step) && (LocalKind(step.kind) || step.kind.Freeze?)
    ensures Rec(Apply(s, step), i) == Rec(s, i)
  {
  }

  // ---------- Runs ----------

  /** A leaf as CopyFrom leaves it: its records sorted, all visible, packed from the end. */
  ghost predicate Init(s: State) {
    && ExtentsOk(s) && MetasOk(s) && !s.status.frozen
    && (forall i :: 0 <= i < s.status.count && i < |s.metas| ==> Visible(s, i))
    && (forall t :: 0 <= t < |s.threads| ==> s.threads[t].Idle?)
  }

  ghost predicate IsRun(run: seq<State>, steps: seq<Step>) {
    && |run| == |steps| + 1
    && Init(run[0])
    && forall i {:trigger steps[i]} ::
         0 <= i < |steps| ==> Enabled(run[i], steps[i]) && run[i + 1] == Apply(run[i], steps[i])
  }

  lemma {:induction false} InvInRun(run: seq<State>, steps: seq<Step>, k: nat)
    requires IsRun(run, steps) && k < |run|
    ensures Inv(run[k])
  {
    if k > 0 {
      InvInRun(run, steps, k - 1);
      InvStep(run[k - 1], steps[k - 1]);
    }
  }

  lemma FrozenStep(s: State, step: Step)
    requires Inv(s) && Enabled(s, step) && s.status.frozen
    ensures Apply(s, step).status == s.status && Apply(s, step).metas == s.metas
  {
    assert PcOk(s, step.t, s.threads[step.t]);
  }

  /** Main result: after the frozen bit is set no step of any thread changes a metadata word or a visible record. */
  lemma {:induction false} FrozenForever(run: seq<State>, steps: seq<Step>, k: nat, m: nat, i: nat)
    requires IsRun(run, steps) && k <= m < |run| && run[k].status.frozen
    ensures run[m].status == run[k].status && run[m].metas == run[k].metas && Rec(run[m], i) == Rec(run[k], i)
  {
    if k < m {
      FrozenForever(run, steps, k, m - 1, i);
      InvInRun(run, steps, m - 1);
      FrozenStep(run[m - 1], steps[m - 1]);
      OneRecordChanges(run[m - 1], steps[m - 1], i);
      assert PcOk(run[m - 1], steps[m - 1].t, run[m - 1].threads[steps[m - 1].t]);
    }
  }

  lemma FreezeTakes(s: State, step: Step, s': State)
    requires Enabled(s, step) && step.kind.Freeze? && s' == Apply(s, step)
    ensures s'.status.frozen <==> s.status.frozen || s.status == s.threads[step.t].seen
    ensures s'.metas == s.metas && s'.mem == s.mem && s'.status == s.status.(frozen := s'.status.frozen)
  {
  }

  lemma NothingSucceeds(s: State, step: Step, i: nat)
    requires Inv(s) && Enabled(s, step) && s.status.frozen
    ensures !Succeeds(s, step, i) && |Apply(s, step).extents| == |s.extents|
  {
    assert PcOk(s, step.t, s.threads[step.t]);
  }

  /**
    Main result: a freeze that finds its expected status stops the leaf: from then on no publish,
    update or delete succeeds, no slot is reserved, and every record stays as it was.
  */
  lemma FreezeStops(run: seq<State>, steps: seq<Step>, k: nat, m: nat, i: nat)
    requires IsRun(run, steps) && k < m < |run| && steps[k].kind.Freeze?
    requires run[k].status == run[k].threads[steps[k].t].seen
    ensures run[m].status == run[k].status.(frozen := true) && run[m].metas == run[k].metas
    ensures Rec(run[m], i) == Rec(run[k], i)
    ensures m < |steps| ==> !Succeeds(run[m], steps[m], i) && |run[m + 1].extents| == |run[m].extents|
  {
    InvInRun(run, steps, k);
    FreezeTakes(run[k], steps[k], run[k + 1]);
    OneRecordChanges(run[k], steps[k], i);
    FrozenForever(run, steps, k + 1, m, i);
    InvInRun(run, steps, m);
    if m < |steps| {
      NothingSucceeds(run[m], steps[m], i);
    }
  }

  /**
    Main result: a copy of a frozen leaf may read each metadata word and each word of a record at a
    different moment; it gets the record as it was when the leaf was frozen.
  */
  lemma CopyIsSnapshot(
    run: seq<State>, steps: seq<Step>, k: nat, i: nat, metaTime: nat, wordTimes: seq<nat>, copy: seq<nat>)
    requires IsRun(run, steps) && k <= metaTime < |run| && run[k].status.frozen && Visible(run[metaTime], i)
    requires |wordTimes| == |copy| == run[metaTime].metas[i].len
    requires forall j :: 0 <= j < |wordTimes| ==> k <= wordTimes[j] < |run|
    requires forall j :: 0 <= j < |copy| ==>
               run[metaTime].metas[i].offset + j < |run[wordTimes[j]].mem|
               && copy[j] == run[wordTimes[j]].mem[run[metaTime].metas[i].offset + j]
    ensures Rec(run[k], i) == Some(copy)
  {
    InvInRun(run, steps, k);
    FrozenForever(run, steps, k, metaTime, i);
    VisibleInMemory(run[k], i);
    var meta := run[k].metas[i];
    forall j | 0 <= j < |copy|
      ensures copy[j] == RecordAt(run[k], meta)[j]
    {
      FrozenForever(run, steps, k, wordTimes[j], i);
      InvInRun(run, steps, wordTimes[j]);
      VisibleInMemory(run[wordTimes[j]], i);
      assert RecordAt(run[wordTimes[j]], meta)[j] == run[wordTimes[j]].mem[meta.offset + j];
    }
    assert copy == RecordAt(run[k], meta);
  }
}
