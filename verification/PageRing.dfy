/**
  The in-memory window of the log: pages live in a ring of frames. The tail opens pages, the
  read-only marker sends them to disk, and the head marker closes them; a frame is cleared for its
  next page by whichever of write completion and closing comes last.

  Shifts are page-aligned, so every marker is a page number. A deferred epoch callback is one step.
  A write's completion callback takes one step per atomic access, and so does a thread in NewPage.
*/
module PageRing {
  const HEAD_PAGES := 4

  datatype Flush = Flushed | InProgress
  datatype Close = Closed | Open

  /** `last` is LastFlushedUntilAddress; `present` says that memory was allocated for the frame. */
  datatype Frame = Frame(present: bool, flush: Flush, close: Close, last: nat)

  /** How far the write of one page, and then its completion callback, has come. */
  datatype Stage =
    | InFlight
    | Stored
    | Clearing
    | Reopening
    | Marked
    | Scanning(page: nat, upTo: nat, found: bool)
    | Raising(upTo: nat)
    | Finished

  /** A thread inside NewPage(full). */
  datatype Pc = Idle | HasRoom(full: nat) | CanAdvance(full: nat) | Won(full: nat)

  /**
    `writes[p]` is the write of page p, so the safe read-only marker is `|writes|`. Pending
    callbacks are named by the marker value they will publish, which no other callback shares;
    `closing` records for each the completion callbacks that were running when it was registered,
    because the epoch keeps it from running before they end. `zeros` and `skipped` are history:
    the pages cleared, in order, and whether a scan ever stepped over an unfinished page 0.
  */
  datatype State = State(
    size: nat,
    mutable: nat,
    frames: seq<Frame>,
    safeHead: nat,
    head: nat,
    flushed: nat,
    writes: seq<Stage>,
    readOnly: nat,
    tail: nat,
    marking: set<nat>,
    closing: map<nat, set<nat>>,
    threads: seq<Pc>,
    zeros: seq<nat>,
    skipped: bool)

  datatype Step =
    | CheckRoom(t: nat, full: nat)
    | LoadStatus(t: nat)
    | Advance(t: nat)
    | AllocateNext(t: nat)
    | ShiftReadOnly(tailPage: nat)
    | ShiftHead(tailPage: nat, seen: nat)
    | RunReadOnly(target: nat)
    | RunClose(target: nat)
    | Complete(p: nat)
    | MarkFlushed(p: nat)
    | Clear(p: nat)
    | Reopen(p: nat)
    | LoadFlushed(p: nat)
    | Scan(p: nat)
    | Raise(p: nat)

  /** The frame of a page: the remainder, written as repeated subtraction. */
  function Slot(p: nat, size: nat): (i: nat)
    requires size > 0
    ensures i < size && i <= p
  {
    if p < size then p else Slot(p - size, size)
  }

  predicate Shaped(s: State) {
    HEAD_PAGES + 1 < s.size && |s.frames| == s.size && 2 <= s.mutable
  }

  function FrameOf(s: State, p: nat): Frame
    requires Shaped(s)
  {
    s.frames[Slot(p, s.size)]
  }

  function SetFrame(s: State, p: nat, f: Frame): State
    requires Shaped(s)
  {
    s.(frames := s.frames[Slot(p, s.size) := f])
  }

  function SetStage(s: State, p: nat, stage: Stage): State
    requires p < |s.writes|
  {
    s.(writes := s.writes[p := stage])
  }

  function SetPc(s: State, t: nat, pc: Pc): State
    requires t < |s.threads|
  {
    s.(threads := s.threads[t := pc])
  }

  predicate Ready(f: Frame) {
    f.flush.Flushed? && f.close.Open?
  }

  predicate Running(stage: Stage) {
    !stage.InFlight? && !stage.Finished?
  }

  function RunningPages(s: State): set<nat> {
    set p: nat | p < |s.writes| && Running(s.writes[p])
  }

  /** The callback of page p ends, so no deferred closing waits for it any longer. */
  function Finish(s: State, p: nat): State
    requires p < |s.writes|
  {
    SetStage(s, p, Finished).(closing := map n | n in s.closing :: s.closing[n] - {p})
  }

  /** AsyncFlushPages for the next page. */
  function IssuePage(s: State): State
    requires Shaped(s)
  {
    var p := |s.writes|;
    SetFrame(s, p, FrameOf(s, p).(flush := InProgress, last := 0)).(writes := s.writes + [InFlight])
  }

  function IssueUpTo(s: State, target: nat): State
    requires Shaped(s)
    decreases target - |s.writes|
  {
    if |s.writes| < target then IssueUpTo(IssuePage(s), target) else s
  }

  /** OnPagesClosed for the next page: a page already flushed is cleared and reopened at once. */
  function ClosePage(s: State): State
    requires Shaped(s)
  {
    var p := s.safeHead;
    var f := FrameOf(s, p);
    if f.flush.Flushed? then
      SetFrame(s, p, f.(close := Open)).(safeHead := p + 1, zeros := s.zeros + [p])
    else
      SetFrame(s, p, f.(close := Closed)).(safeHead := p + 1)
  }

  function CloseUpTo(s: State, target: nat): State
    requires Shaped(s)
    decreases target - s.safeHead
  {
    if s.safeHead < target then CloseUpTo(ClosePage(s), target) else s
  }

  /** The head wanted for a tail page, held back by an earlier value of the flushed marker. */
  function DesiredHead(s: State, tailPage: nat, seen: nat): nat
    requires Shaped(s)
  {
    if tailPage <= s.size - HEAD_PAGES then 0
    else if seen < tailPage - (s.size - HEAD_PAGES) then seen
    else tailPage - (s.size - HEAD_PAGES)
  }

  predicate Enabled(s: State, step: Step) {
    Shaped(s) &&
    match step
    case CheckRoom(t, full) => t < |s.threads| && s.threads[t].Idle? && full <= s.tail
    case LoadStatus(t) => t < |s.threads| && s.threads[t].HasRoom?
    case Advance(t) => t < |s.threads| && s.threads[t].CanAdvance?
    case AllocateNext(t) => t < |s.threads| && s.threads[t].Won?
    case ShiftReadOnly(tailPage) => tailPage <= s.tail + 1
    case ShiftHead(tailPage, seen) => tailPage <= s.tail + 1 && seen <= s.flushed
    case RunReadOnly(target) => target in s.marking
    case RunClose(target) => target in s.closing && s.closing[target] == {}
    case Complete(p) => p < |s.writes| && s.writes[p].InFlight?
    case MarkFlushed(p) => p < |s.writes| && s.writes[p].Stored?
    case Clear(p) => p < |s.writes| && s.writes[p].Clearing?
    case Reopen(p) => p < |s.writes| && s.writes[p].Reopening?
    case LoadFlushed(p) => p < |s.writes| && s.writes[p].Marked?
    case Scan(p) => p < |s.writes| && s.writes[p].Scanning?
    case Raise(p) => p < |s.writes| && s.writes[p].Raising?
  }

  /** One turn of the loop in ShiftFlushedUntilAddress. */
  function ScanOnce(s: State, p: nat): State
    requires Shaped(s) && p < |s.writes| && s.writes[p].Scanning?
  {
    var w := s.writes[p];
    var last := FrameOf(s, w.page).last;
    if last >= w.upTo then
      SetStage(s, p, Scanning(w.page + 1, last, true)).(skipped := s.skipped || last == 0)
    else if w.found then SetStage(s, p, Raising(w.upTo))
    else Finish(s, p)
  }

  function Apply(s: State, step: Step): State
    requires Enabled(s, step)
  {
    match step
    case CheckRoom(t, full) =>
      if full + 2 >= s.safeHead + s.size then s else SetPc(s, t, HasRoom(full))
    case LoadStatus(t) =>
      var full := s.threads[t].full;
      SetPc(s, t, if Ready(FrameOf(s, full + 1)) then CanAdvance(full) else Idle)
    case Advance(t) =>
      var full := s.threads[t].full;
      if s.tail == full then SetPc(s.(tail := full + 1), t, Won(full)) else SetPc(s, t, Idle)
    case AllocateNext(t) =>
      var p := s.threads[t].full + 2;
      var f := FrameOf(s, p);
      SetPc(if f.present then s else SetFrame(s, p, f.(present := true, flush := Flushed, close := Open)), t, Idle)
    case ShiftReadOnly(tailPage) =>
      if tailPage <= s.mutable || tailPage - s.mutable <= s.readOnly then s
      else s.(readOnly := tailPage - s.mutable, marking := s.marking + {tailPage - s.mutable})
    case ShiftHead(tailPage, seen) =>
      var desired := DesiredHead(s, tailPage, seen);
      if desired <= s.head then s
      else s.(head := desired, closing := s.closing[desired := RunningPages(s)])
    case RunReadOnly(target) => IssueUpTo(s.(marking := s.marking - {target}), target)
    case RunClose(target) => CloseUpTo(s.(closing := s.closing - {target}), target)
    case Complete(p) => SetStage(SetFrame(s, p, FrameOf(s, p).(last := p + 1)), p, Stored)
    case MarkFlushed(p) =>
      var f := FrameOf(s, p);
      SetStage(SetFrame(s, p, f.(flush := Flushed)), p, if f.close.Closed? then Clearing else Marked)
    case Clear(p) => SetStage(s, p, Reopening).(zeros := s.zeros + [p])
    case Reopen(p) => SetStage(SetFrame(s, p, FrameOf(s, p).(flush := Flushed, close := Open)), p, Marked)
    case LoadFlushed(p) => SetStage(s, p, Scanning(s.flushed, s.flushed, false))
    case Scan(p) => ScanOnce(s, p)
    case Raise(p) =>
      var upTo := s.writes[p].upTo;
      Finish(if s.flushed < upTo then s.(flushed := upTo) else s, p)
  }

  ghost predicate Init(s: State) {
    && Shaped(s)
    && s.safeHead == s.head == s.flushed == s.readOnly == s.tail == 0
    && s.writes == [] && s.marking == {} && s.closing == map[] && s.zeros == [] && !s.skipped
    && (forall t :: 0 <= t < |s.threads| ==> s.threads[t].Idle?)
    && (forall i :: 0 <= i < s.size ==> s.frames[i] == Frame(i < 2, Flushed, if i < 2 then Open else Closed, 0))
  }

  // ---------- Frames of the window ----------

  lemma {:induction false} SlotsDistinct(p: nat, q: nat, size: nat)
    requires p < q < p + size
    ensures Slot(p, size) != Slot(q, size)
  {
    if p >= size {
      SlotsDistinct(p - size, q - size, size);
    } else if q >= size {
      assert Slot(q, size) == Slot(q - size, size) == q - size;
    }
  }

  lemma {:induction false} SlotIsRemainder(p: nat, size: nat) returns (laps: nat)
    requires size > 0
    ensures p == laps * size + Slot(p, size)
  {
    laps := 0;
    if p >= size {
      var k := SlotIsRemainder(p - size, size);
      laps := k + 1;
    }
  }

  // ---------- The invariant ----------

  ghost predicate Ordered(s: State) {
    && s.safeHead <= s.head <= s.flushed <= |s.writes| <= s.readOnly <= s.tail
    && s.tail + 1 < s.safeHead + s.size
    && (forall n :: n in s.marking ==> n <= s.readOnly)
    && (forall n :: n in s.closing ==> n <= s.head)
  }

  predicate InWindow(s: State, p: nat) {
    p <= s.tail < p + s.size
  }

  /** What the frame of a page holds, from the progress of the page's write and of its closing. */
  ghost predicate WrittenOk(f: Frame, p: nat, stage: Stage, closed: bool) {
    match stage
    case InFlight => f.flush.InProgress? && f.close.Closed? == closed && f.last == 0
    case Stored => f.flush.InProgress? && f.close.Closed? == closed && f.last == p + 1
    case Clearing => closed && f.flush.Flushed? && f.close.Closed? && f.last == p + 1
    case Reopening => closed && f.flush.Flushed? && f.close.Closed? && f.last == p + 1
    case _ => Ready(f) && f.last == p + 1
  }

  ghost predicate PageOk(s: State, p: nat)
    requires Shaped(s)
  {
    var f := FrameOf(s, p);
    && f.present
    && if p < |s.writes| then WrittenOk(f, p, s.writes[p], p < s.safeHead)
       else Ready(f) && (f.last == 0 || f.last + s.size == p + 1)
  }

  ghost predicate WindowOk(s: State)
    requires Shaped(s)
  {
    forall p: nat :: InWindow(s, p) ==> PageOk(s, p)
  }

  /** Frames above the tail have not been used yet. */
  ghost predicate BeyondOk(s: State)
    requires Shaped(s)
  {
    forall i :: 0 <= i < s.size ==>
      var f := s.frames[i];
      && (!f.present ==> s.tail < i && f.close.Closed?)
      && (s.tail < i ==> f.last == 0 && (f.present ==> Ready(f)))
  }

  ghost predicate LastBounded(s: State)
    requires Shaped(s)
  {
    forall i :: 0 <= i < s.size ==> s.frames[i].last <= |s.writes|
  }

  predicate Settled(stage: Stage) {
    !stage.InFlight? && !stage.Stored? && !stage.Clearing? && !stage.Reopening?
  }

  predicate Cleared(stage: Stage) {
    Settled(stage) || stage.Reopening?
  }

  ghost predicate ZerosOk(s: State) {
    && (forall p :: 0 <= p < |s.writes| ==> (p in s.zeros <==> p < s.safeHead && Cleared(s.writes[p])))
    && (forall i :: 0 <= i < |s.zeros| ==> s.zeros[i] < |s.writes|)
    && (forall i, j :: 0 <= i < j < |s.zeros| ==> s.zeros[i] != s.zeros[j])
  }

  ghost predicate StageOk(stage: Stage, p: nat, s: State) {
    && (p + s.size <= s.tail ==> Settled(stage))
    && (stage.Scanning? ==> s.safeHead <= stage.upTo)
    && (stage.Scanning? || stage.Raising? ==> stage.upTo <= |s.writes|)
  }

  ghost predicate StagesOk(s: State) {
    forall p :: 0 <= p < |s.writes| ==> StageOk(s.writes[p], p, s)
  }

  /** A scan is ahead of every closing that may run before it ends. */
  ghost predicate ScansProtected(writes: seq<Stage>, closing: map<nat, set<nat>>) {
    forall p, n :: 0 <= p < |writes| && writes[p].Scanning? && n in closing ==>
      n <= writes[p].upTo || p in closing[n]
  }

  ghost predicate PcOk(s: State, pc: Pc)
    requires Shaped(s)
  {
    match pc
    case Idle => true
    case HasRoom(full) => full <= s.tail && full + 2 < s.safeHead + s.size
    case CanAdvance(full) =>
      full <= s.tail && full + 2 < s.safeHead + s.size && (full == s.tail ==> Ready(FrameOf(s, full + 1)))
    case Won(full) => full < s.tail
  }

  ghost predicate PcsOk(s: State)
    requires Shaped(s)
  {
    forall t :: 0 <= t < |s.threads| ==> PcOk(s, s.threads[t])
  }

  ghost predicate Inv(s: State) {
    && Shaped(s) && Ordered(s) && WindowOk(s) && BeyondOk(s) && LastBounded(s)
    && ZerosOk(s) && StagesOk(s) && ScansProtected(s.writes, s.closing) && PcsOk(s)
  }

  /** Every page below n has been written to disk. */
  ghost predicate DoneBelow(writes: seq<Stage>, n: nat) {
    n <= |writes| && forall p :: 0 <= p < n ==> !writes[p].InFlight?
  }

  /** Unless some scan stepped over page 0, scans and the marker cover finished writes only. */
  ghost predicate PrefixOk(s: State) {
    !s.skipped ==>
      && DoneBelow(s.writes, s.flushed)
      && forall p :: 0 <= p < |s.writes| ==>
           && (s.writes[p].Scanning? ==> s.writes[p].page == s.writes[p].upTo && DoneBelow(s.writes, s.writes[p].upTo))
           && (s.writes[p].Raising? ==> DoneBelow(s.writes, s.writes[p].upTo))
  }

  // ---------- Steps keep the invariant ----------

  /** A write to the frame of one window page leaves the other window pages alone. */
  lemma FrameKept(s: State, p: nat)
    requires Shaped(s) && InWindow(s, p)
    ensures forall q: nat :: InWindow(s, q) && q != p ==> Slot(q, s.size) != Slot(p, s.size)
    ensures s.tail + 1 < p + s.size ==> Slot(s.tail + 1, s.size) != Slot(p, s.size)
    ensures Slot(p, s.size) <= s.tail
  {
    forall q: nat | InWindow(s, q) && q != p
      ensures Slot(q, s.size) != Slot(p, s.size)
    {
      if p < q {
        SlotsDistinct(p, q, s.size);
      } else {
        SlotsDistinct(q, p, s.size);
      }
    }
    if s.tail + 1 < p + s.size {
      SlotsDistinct(p, s.tail + 1, s.size);
    }
  }

  lemma PcStep(s: State, t: nat, pc: Pc)
    requires Inv(s) && t < |s.threads| && PcOk(s, pc)
    ensures Inv(SetPc(s, t, pc))
  {
    var s' := SetPc(s, t, pc);
    assert forall p: nat :: InWindow(s', p) ==> InWindow(s, p) && PageOk(s, p);
    assert forall u :: 0 <= u < |s.threads| ==> PcOk(s, s.threads[u]);
  }

  /** Threads keep their knowledge while the frame after the tail stays ready. */
  lemma PcsKept(s: State, s': State)
    requires Shaped(s) && Shaped(s') && PcsOk(s) && s'.threads == s.threads
    requires s'.tail == s.tail && s'.size == s.size && s.safeHead <= s'.safeHead
    requires Ready(FrameOf(s, s.tail + 1)) ==> Ready(FrameOf(s', s.tail + 1))
    ensures PcsOk(s')
  {
    assert forall t :: 0 <= t < |s.threads| ==> PcOk(s, s.threads[t]);
  }

  /** What the frames owe to the pages, apart from the threads and the history. */
  ghost predicate FramesOk(s: State) {
    Shaped(s) && WindowOk(s) && BeyondOk(s) && LastBounded(s)
  }

  /** The frame and the write of one window page change together. */
  lemma PageChange(s: State, s': State, p: nat)
    requires FramesOk(s) && InWindow(s, p) && Shaped(s')
    requires s'.size == s.size && s'.tail == s.tail && |s'.frames| == |s.frames|
    requires |s.writes| <= |s'.writes|
    requires forall i :: 0 <= i < s.size && i != Slot(p, s.size) ==> s'.frames[i] == s.frames[i]
    requires forall q: nat :: q != p && q < |s'.writes| ==> q < |s.writes| && s'.writes[q] == s.writes[q]
    requires s'.safeHead == s.safeHead || (p == s.safeHead && s'.safeHead == p + 1)
    requires PageOk(s', p) && FrameOf(s', p).last <= |s'.writes|
    ensures FramesOk(s')
    ensures s.tail + 1 < p + s.size ==> FrameOf(s', s.tail + 1) == FrameOf(s, s.tail + 1)
  {
    FrameKept(s, p);
    forall q: nat | InWindow(s', q)
      ensures PageOk(s', q)
    {
      assert InWindow(s, q) && PageOk(s, q);
    }
  }

  lemma IssueStep(s: State)
    requires Inv(s) && |s.writes| < s.readOnly
    ensures Inv(IssuePage(s))
  {
    var p := |s.writes|;
    var s' := IssuePage(s);
    assert PageOk(s, p);
    PageChange(s, s', p);
    PcsKept(s, s');
  }

  lemma CloseStep(s: State)
    requires Inv(s) && s.safeHead < s.head
    requires forall p :: 0 <= p < |s.writes| && s.writes[p].Scanning? ==> s.safeHead < s.writes[p].upTo
    ensures Inv(ClosePage(s))
  {
    var p := s.safeHead;
    var s' := ClosePage(s);
    assert PageOk(s, p);
    PageChange(s, s', p);
    PcsKept(s, s');
  }

  lemma {:induction false} IssueAll(s: State, target: nat)
    requires Inv(s) && target <= s.readOnly
    ensures Inv(IssueUpTo(s, target))
    decreases target - |s.writes|
  {
    if |s.writes| < target {
      IssueStep(s);
      IssueAll(IssuePage(s), target);
    }
  }

  lemma {:induction false} CloseAll(s: State, target: nat)
    requires Inv(s) && target <= s.head
    requires forall p :: 0 <= p < |s.writes| && s.writes[p].Scanning? ==> target <= s.writes[p].upTo
    ensures Inv(CloseUpTo(s, target))
    decreases target - s.safeHead
  {
    if s.safeHead < target {
      CloseStep(s);
      CloseAll(ClosePage(s), target);
    }
  }

  /** Only pending callbacks change. */
  lemma CallbacksStep(s: State, s': State)
    requires Inv(s) && Ordered(s') && ScansProtected(s'.writes, s'.closing)
    requires s' == s.(marking := s'.marking, closing := s'.closing, readOnly := s'.readOnly, head := s'.head)
    ensures Inv(s')
  {
    assert forall p: nat :: InWindow(s', p) ==> InWindow(s, p) && PageOk(s, p);
    PcsKept(s, s');
  }

  lemma MarkerStep(s: State, step: Step)
    requires Inv(s) && Enabled(s, step)
    requires step.ShiftReadOnly? || step.ShiftHead?
    ensures Inv(Apply(s, step))
  {
    CallbacksStep(s, Apply(s, step));
  }

  lemma RunReadOnlyStep(s: State, target: nat)
    requires Inv(s) && Enabled(s, RunReadOnly(target))
    ensures Inv(Apply(s, RunReadOnly(target)))
  {
    var s1 := s.(marking := s.marking - {target});
    CallbacksStep(s, s1);
    IssueAll(s1, target);
  }

  lemma RunCloseStep(s: State, target: nat)
    requires Inv(s) && Enabled(s, RunClose(target))
    ensures Inv(Apply(s, RunClose(target)))
  {
    var s1 := s.(closing := s.closing - {target});
    CallbacksStep(s, s1);
    CloseAll(s1, target);
  }

  lemma AdvanceStep(s: State, t: nat)
    requires Inv(s) && Enabled(s, Advance(t)) && s.tail == s.threads[t].full
    ensures Inv(s.(tail := s.tail + 1))
  {
    var s' := s.(tail := s.tail + 1);
    var full := s.tail;
    assert PcOk(s, s.threads[t]);
    assert Ready(FrameOf(s, full + 1));
    if full + 1 >= s.size {
      assert Slot(full + 1, s.size) == Slot(full + 1 - s.size, s.size);
      assert PageOk(s, full + 1 - s.size);
    }
    forall q: nat | InWindow(s', q)
      ensures PageOk(s', q)
    {
      assert q <= full ==> PageOk(s, q);
    }
    assert forall u :: 0 <= u < |s.threads| ==> PcOk(s, s.threads[u]);
  }

  lemma AllocateStep(s: State, p: nat)
    requires Inv(s) && p <= s.tail + 1 && !FrameOf(s, p).present
    ensures Inv(SetFrame(s, p, FrameOf(s, p).(present := true, flush := Flushed, close := Open)))
  {
    var s' := SetFrame(s, p, FrameOf(s, p).(present := true, flush := Flushed, close := Open));
    forall q: nat | InWindow(s', q)
      ensures PageOk(s', q)
    {
      assert InWindow(s, q) && PageOk(s, q);
    }
    PcsKept(s, s');
  }

  lemma AllocateThenIdle(s: State, p: nat, t: nat)
    requires Inv(s) && p <= s.tail + 1 && !FrameOf(s, p).present && t < |s.threads|
    ensures Inv(SetPc(SetFrame(s, p, FrameOf(s, p).(present := true, flush := Flushed, close := Open)), t, Idle))
  {
    AllocateStep(s, p);
    PcStep(SetFrame(s, p, FrameOf(s, p).(present := true, flush := Flushed, close := Open)), t, Idle);
  }

  lemma CheckRoomStep(s: State, t: nat, full: nat)
    requires Inv(s) && Enabled(s, CheckRoom(t, full))
    ensures Inv(Apply(s, CheckRoom(t, full)))
  {
    assert PcOk(s, s.threads[t]);
    if full + 2 < s.safeHead + s.size {
      PcStep(s, t, HasRoom(full));
    }
  }

  lemma LoadStatusStep(s: State, t: nat)
    requires Inv(s) && Enabled(s, LoadStatus(t))
    ensures Inv(Apply(s, LoadStatus(t)))
  {
    var full := s.threads[t].full;
    assert PcOk(s, s.threads[t]);
    PcStep(s, t, if Ready(FrameOf(s, full + 1)) then CanAdvance(full) else Idle);
  }

  lemma TailStep(s: State, t: nat)
    requires Inv(s) && Enabled(s, Advance(t))
    ensures Inv(Apply(s, Advance(t)))
  {
    var full := s.threads[t].full;
    assert PcOk(s, s.threads[t]);
    if s.tail == full {
      AdvanceStep(s, t);
      PcStep(s.(tail := s.tail + 1), t, Won(full));
    } else {
      PcStep(s, t, Idle);
    }
  }

  lemma AllocateNextStep(s: State, t: nat)
    requires Inv(s) && Enabled(s, AllocateNext(t))
    ensures Inv(Apply(s, AllocateNext(t)))
  {
    var p := s.threads[t].full + 2;
    assert PcOk(s, s.threads[t]);
    if FrameOf(s, p).present {
      PcStep(s, t, Idle);
    } else {
      AllocateThenIdle(s, p, t);
    }
  }

  /** A write still at work on its frame owns it. */
  lemma UnsettledInWindow(s: State, p: nat)
    requires Inv(s) && p < |s.writes| && !Settled(s.writes[p])
    ensures InWindow(s, p) && PageOk(s, p)
    ensures Ready(FrameOf(s, s.tail + 1)) ==> s.tail + 1 < p + s.size
  {
    assert StageOk(s.writes[p], p, s);
    if s.tail + 1 == p + s.size {
      assert Slot(s.tail + 1, s.size) == Slot(p, s.size);
    }
  }

  /** A completion callback at work on its own page's frame. */
  lemma OwnStep(s: State, s': State, p: nat, f: Frame, stage: Stage)
    requires Inv(s) && p < |s.writes| && !Settled(s.writes[p])
    requires s' == SetStage(SetFrame(s, p, f), p, stage).(zeros := s'.zeros)
    requires !stage.InFlight? && !stage.Scanning? && !stage.Raising?
    requires f.present && WrittenOk(f, p, stage, p < s.safeHead) && ZerosOk(s')
    ensures Inv(s')
  {
    UnsettledInWindow(s, p);
    PageChange(s, s', p);
    PcsKept(s, s');
  }

  lemma CompletionStep(s: State, step: Step)
    requires Inv(s) && Enabled(s, step)
    requires step.Complete? || step.MarkFlushed? || step.Clear? || step.Reopen?
    ensures Inv(Apply(s, step))
  {
    var p := step.p;
    var s' := Apply(s, step);
    UnsettledInWindow(s, p);
    OwnStep(s, s', p, FrameOf(s', p), s'.writes[p]);
  }

  /** A callback past its frame's work changes its own stage, and at its end leaves the waiting sets. */
  lemma LaterStep(s: State, s': State, p: nat)
    requires Inv(s) && p < |s.writes| && Settled(s.writes[p])
    requires |s'.writes| == |s.writes| && Settled(s'.writes[p]) && StageOk(s'.writes[p], p, s)
    requires s'.writes == s.writes[p := s'.writes[p]]
    requires s' == s.(writes := s'.writes, closing := s'.closing, flushed := s'.flushed, skipped := s'.skipped)
    requires s.flushed <= s'.flushed <= |s.writes|
    requires s'.closing.Keys == s.closing.Keys && ScansProtected(s'.writes, s'.closing)
    ensures Inv(s')
  {
    forall q: nat | InWindow(s', q)
      ensures PageOk(s', q)
    {
      assert InWindow(s, q) && PageOk(s, q);
    }
    PcsKept(s, s');
  }

  lemma ScanStep(s: State, p: nat)
    requires Inv(s) && Enabled(s, Scan(p))
    ensures Inv(Apply(s, Scan(p)))
  {
    assert StageOk(s.writes[p], p, s);
    LaterStep(s, Apply(s, Scan(p)), p);
  }

  lemma FlushedStep(s: State, step: Step)
    requires Inv(s) && Enabled(s, step) && (step.LoadFlushed? || step.Raise?)
    ensures Inv(Apply(s, step))
  {
    assert StageOk(s.writes[step.p], step.p, s);
    LaterStep(s, Apply(s, step), step.p);
  }

  lemma InvStep(s: State, step: Step)
    requires Inv(s) && Enabled(s, step)
    ensures Inv(Apply(s, step))
  {
    match step
    case CheckRoom(t, full) => CheckRoomStep(s, t, full);
    case LoadStatus(t) => LoadStatusStep(s, t);
    case Advance(t) => TailStep(s, t);
    case AllocateNext(t) => AllocateNextStep(s, t);
    case ShiftReadOnly(_) => MarkerStep(s, step);
    case ShiftHead(_, _) => MarkerStep(s, step);
    case RunReadOnly(target) => RunReadOnlyStep(s, target);
    case RunClose(target) => RunCloseStep(s, target);
    case Complete(_) => CompletionStep(s, step);
    case MarkFlushed(_) => CompletionStep(s, step);
    case Clear(_) => CompletionStep(s, step);
    case Reopen(_) => CompletionStep(s, step);
    case LoadFlushed(_) => FlushedStep(s, step);
    case Scan(p) => ScanStep(s, p);
    case Raise(_) => FlushedStep(s, step);
  }

  // ---------- What the callbacks leave alone ----------

  lemma {:induction false} IssueFrame(s: State, target: nat)
    requires Shaped(s)
    ensures var s' := IssueUpTo(s, target);
            && s' == s.(frames := s'.frames, writes := s'.writes)
            && |s.writes| <= |s'.writes|
            && (forall p :: 0 <= p < |s'.writes| ==> s'.writes[p] == if p < |s.writes| then s.writes[p] else InFlight)
    decreases target - |s.writes|
  {
    if |s.writes| < target {
      IssueFrame(IssuePage(s), target);
    }
  }

  lemma {:induction false} CloseFrame(s: State, target: nat)
    requires Shaped(s)
    ensures var s' := CloseUpTo(s, target);
            && s' == s.(frames := s'.frames, safeHead := s'.safeHead, zeros := s'.zeros)
            && s.safeHead <= s'.safeHead
    decreases target - s.safeHead
  {
    if s.safeHead < target {
      CloseFrame(ClosePage(s), target);
    }
  }

  // ---------- The flushed prefix ----------

  /** The page a scan reads next still owns its frame. */
  lemma ScanReads(s: State, p: nat)
    requires Inv(s) && Enabled(s, Scan(p)) && s.writes[p].page == s.writes[p].upTo
    ensures var w := s.writes[p];
            var last := FrameOf(s, w.page).last;
            last >= w.upTo ==>
              w.upTo < |s.writes| && if last == 0 then w.upTo == 0 && s.writes[0].InFlight?
                                     else last == w.upTo + 1 && !s.writes[w.upTo].InFlight?
  {
    var w := s.writes[p];
    assert StageOk(w, p, s);
    assert InWindow(s, w.upTo) && PageOk(s, w.upTo);
  }

  /** Writes only make progress; new scans and raises are shown to cover finished writes. */
  lemma PrefixKept(s: State, s': State)
    requires PrefixOk(s) && (s.skipped ==> s'.skipped) && |s.writes| <= |s'.writes|
    requires forall p :: 0 <= p < |s.writes| && !s.writes[p].InFlight? ==> !s'.writes[p].InFlight?
    requires !s'.skipped ==> DoneBelow(s'.writes, s'.flushed)
    requires forall p :: 0 <= p < |s'.writes| && (s'.writes[p].Scanning? || s'.writes[p].Raising?) ==>
               || (p < |s.writes| && s'.writes[p] == s.writes[p])
               || s'.skipped
               || (&& DoneBelow(s'.writes, s'.writes[p].upTo)
                   && (s'.writes[p].Scanning? ==> s'.writes[p].page == s'.writes[p].upTo))
    ensures PrefixOk(s')
  {
  }

  lemma ScanPrefix(s: State, p: nat)
    requires Inv(s) && PrefixOk(s) && Enabled(s, Scan(p))
    ensures PrefixOk(Apply(s, Scan(p)))
    ensures !s.skipped && Apply(s, Scan(p)).skipped ==> s.writes[0].InFlight?
  {
    if !s.skipped {
      ScanReads(s, p);
    }
    PrefixKept(s, Apply(s, Scan(p)));
  }

  lemma PrefixStep(s: State, step: Step)
    requires Inv(s) && PrefixOk(s) && Enabled(s, step)
    ensures PrefixOk(Apply(s, step))
  {
    if step.Scan? {
      ScanPrefix(s, step.p);
    } else {
      if step.RunReadOnly? {
        IssueFrame(s.(marking := s.marking - {step.target}), step.target);
      } else if step.RunClose? {
        CloseFrame(s.(closing := s.closing - {step.target}), step.target);
      }
      PrefixKept(s, Apply(s, step));
    }
  }

  // ---------- Runs ----------

  ghost predicate IsPath(path: seq<State>, steps: seq<Step>) {
    && |path| == |steps| + 1
    && forall i {:trigger steps[i]} ::
         0 <= i < |steps| ==> Enabled(path[i], steps[i]) && path[i + 1] == Apply(path[i], steps[i])
  }

  ghost predicate IsRun(run: seq<State>, steps: seq<Step>) {
    IsPath(run, steps) && Init(run[0])
  }

  lemma InitInv(s: State)
    requires Init(s)
    ensures Inv(s) && PrefixOk(s)
  {
    forall p: nat | InWindow(s, p)
      ensures PageOk(s, p)
    {
      assert p == 0 && Slot(p, s.size) == 0;
    }
  }

  lemma {:induction false} InvInRun(run: seq<State>, steps: seq<Step>, k: nat)
    requires IsRun(run, steps) && k < |run|
    ensures Inv(run[k]) && PrefixOk(run[k])
  {
    if k == 0 {
      InitInv(run[0]);
    } else {
      InvInRun(run, steps, k - 1);
      InvStep(run[k - 1], steps[k - 1]);
      PrefixStep(run[k - 1], steps[k - 1]);
    }
  }

  /** Main result: the pages from the safe head to one past the tail occupy distinct frames. */
  lemma PagesInDistinctFrames(run: seq<State>, steps: seq<Step>, k: nat, p: nat, q: nat)
    requires IsRun(run, steps) && k < |run|
    requires run[k].safeHead <= p < q <= run[k].tail + 1
    ensures run[k].size > 0 && Slot(p, run[k].size) != Slot(q, run[k].size)
  {
    InvInRun(run, steps, k);
    SlotsDistinct(p, q, run[k].size);
  }

  /** Main result: no page is cleared twice, and each is cleared before its frame is used again. */
  lemma ClearedExactlyOnce(run: seq<State>, steps: seq<Step>, k: nat)
    requires IsRun(run, steps) && k < |run|
    ensures forall i, j :: 0 <= i < j < |run[k].zeros| ==> run[k].zeros[i] != run[k].zeros[j]
    ensures forall p: nat :: p + run[k].size <= run[k].tail ==> p in run[k].zeros
  {
    InvInRun(run, steps, k);
    forall p: nat | p + run[k].size <= run[k].tail
      ensures p in run[k].zeros
    {
      assert StageOk(run[k].writes[p], p, run[k]);
    }
  }

  lemma ClearedStep(s: State, step: Step, p: nat)
    requires Inv(s) && Enabled(s, step) && Inv(Apply(s, step))
    requires p in Apply(s, step).zeros && p !in s.zeros
    ensures || (step == Clear(p) && p < s.safeHead)
            || (step.RunClose? && s.safeHead <= p && p < |s.writes| && Settled(s.writes[p]))
  {
    match step
    case RunReadOnly(target) => IssueFrame(s.(marking := s.marking - {target}), target);
    case RunClose(target) =>
      CloseFrame(s.(closing := s.closing - {target}), target);
      if s.safeHead <= p {
        assert InWindow(s, p) && PageOk(s, p);
      }
    case Clear(q) => UnsettledInWindow(s, q);
    case _ =>
  }

  /**
    Main result: a page is cleared by whichever of the end of its write and its closing comes last,
    never before both, and never after its frame went to another page.
  */
  lemma ClearedByTheLast(run: seq<State>, steps: seq<Step>, k: nat, p: nat)
    requires IsRun(run, steps) && k < |steps|
    requires p in run[k + 1].zeros && p !in run[k].zeros
    ensures p < |run[k].writes| && !run[k].writes[p].InFlight?
    ensures p < run[k + 1].safeHead && run[k].tail < p + run[k].size
    ensures || (steps[k] == Clear(p) && p < run[k].safeHead)
            || (steps[k].RunClose? && run[k].safeHead <= p && Settled(run[k].writes[p]))
  {
    InvInRun(run, steps, k);
    InvInRun(run, steps, k + 1);
    ClearedStep(run[k], steps[k], p);
    if steps[k] == Clear(p) {
      UnsettledInWindow(run[k], p);
    }
  }

  /** Main result: the markers stay ordered. */
  lemma MarkersOrdered(run: seq<State>, steps: seq<Step>, k: nat)
    requires IsRun(run, steps) && k < |run|
    ensures var s := run[k]; s.safeHead <= s.head <= s.flushed <= |s.writes| <= s.readOnly <= s.tail
  {
    InvInRun(run, steps, k);
  }

  lemma MarkersStep(s: State, step: Step)
    requires Inv(s) && Enabled(s, step)
    ensures var s' := Apply(s, step);
            && s.safeHead <= s'.safeHead && s.head <= s'.head && s.flushed <= s'.flushed
            && |s.writes| <= |s'.writes| && s.readOnly <= s'.readOnly && s.tail <= s'.tail
  {
    match step
    case RunReadOnly(target) => IssueFrame(s.(marking := s.marking - {target}), target);
    case RunClose(target) => CloseFrame(s.(closing := s.closing - {target}), target);
    case _ =>
  }

  /** Main result: the markers only advance. */
  lemma {:induction false} MarkersAdvance(run: seq<State>, steps: seq<Step>, k: nat, m: nat)
    requires IsRun(run, steps) && k <= m < |run|
    ensures var s, s' := run[k], run[m];
            && s.safeHead <= s'.safeHead && s.head <= s'.head && s.flushed <= s'.flushed
            && |s.writes| <= |s'.writes| && s.readOnly <= s'.readOnly && s.tail <= s'.tail
  {
    if k < m {
      MarkersAdvance(run, steps, k, m - 1);
      InvInRun(run, steps, m - 1);
      MarkersStep(run[m - 1], steps[m - 1]);
    }
  }

  /** The step finishes another page's write while page 0's is at work. */
  predicate Overtakes(s: State, step: Step) {
    step.Complete? && step.p > 0 && s.writes != [] && s.writes[0].InFlight?
  }

  /** No write but page 0's may finish before page 0's. */
  ghost predicate FirstPageFirst(run: seq<State>, steps: seq<Step>)
    requires IsRun(run, steps)
  {
    forall i {:trigger steps[i]} :: 0 <= i < |steps| ==> !Overtakes(run[i], steps[i])
  }

  /** Nothing has finished while page 0 is being written. */
  ghost predicate FirstPending(writes: seq<Stage>) {
    writes != [] && writes[0].InFlight? ==> forall p :: 0 <= p < |writes| ==> writes[p].InFlight?
  }

  lemma NoSkipStep(s: State, step: Step)
    requires Inv(s) && PrefixOk(s) && Enabled(s, step) && !s.skipped && FirstPending(s.writes)
    requires !Overtakes(s, step)
    ensures !Apply(s, step).skipped && FirstPending(Apply(s, step).writes)
  {
    match step
    case RunReadOnly(target) => IssueFrame(s.(marking := s.marking - {target}), target);
    case RunClose(target) => CloseFrame(s.(closing := s.closing - {target}), target);
    case Scan(p) => ScanPrefix(s, p);
    case _ =>
  }

  lemma NoSkipNext(s: State, step: Step, s': State)
    requires Inv(s) && PrefixOk(s) && Enabled(s, step) && s' == Apply(s, step) && !Overtakes(s, step)
    requires !s.skipped && FirstPending(s.writes)
    ensures !s'.skipped && FirstPending(s'.writes)
  {
    NoSkipStep(s, step);
  }

  lemma {:induction false} NeverSkips(run: seq<State>, steps: seq<Step>, k: nat)
    requires IsRun(run, steps) && FirstPageFirst(run, steps) && k < |run|
    ensures !run[k].skipped && FirstPending(run[k].writes)
  {
    if k > 0 {
      NeverSkips(run, steps, k - 1);
      InvInRun(run, steps, k - 1);
      NoSkipNext(run[k - 1], steps[k - 1], run[k]);
    }
  }

  /** Main result: if page 0 is written first, the flushed marker covers finished writes only. */
  lemma FlushedPrefixDone(run: seq<State>, steps: seq<Step>, k: nat)
    requires IsRun(run, steps) && FirstPageFirst(run, steps) && k < |run|
    ensures DoneBelow(run[k].writes, run[k].flushed)
  {
    InvInRun(run, steps, k);
    NeverSkips(run, steps, k);
  }

  /** Page 0 is unfinished and page p's callback goes over the frames from page w.page on. */
  ghost predicate SteppingOver(s: State, p: nat) {
    && Inv(s) && s.flushed == 0 && p < |s.writes| && s.writes[0].InFlight? && s.writes[p].Scanning?
    && var w := s.writes[p];
       && w.page <= |s.writes|
       && (w.upTo == 0 ==> w.page <= p)
       && (w.upTo > 0 ==> w.found && w.page == w.upTo)
  }

  /** No write finishes on the way. */
  predicate NoneCompletes(steps: seq<Step>) {
    forall i :: 0 <= i < |steps| ==> !steps[i].Complete?
  }

  lemma Prepend(s: State, step: Step, path: seq<State>, steps: seq<Step>) returns (path': seq<State>, steps': seq<Step>)
    requires Enabled(s, step) && IsPath(path, steps) && path[0] == Apply(s, step)
    ensures IsPath(path', steps') && path'[0] == s && path'[|steps'|] == path[|steps|]
    ensures steps' == [step] + steps && (!step.Complete? && NoneCompletes(steps) ==> NoneCompletes(steps'))
  {
    path', steps' := [s] + path, [step] + steps;
  }

  lemma StepOver(s: State, p: nat)
    requires SteppingOver(s, p)
    ensures var s' := Apply(s, Scan(p));
            if s'.writes[p].Scanning? then SteppingOver(s', p) && s'.writes[p].page == s.writes[p].page + 1
            else s'.writes[p].Raising? && s'.writes[p].upTo > 0
    ensures Apply(s, Scan(p)).writes[0].InFlight?
  {
    var w := s.writes[p];
    ScanStep(s, p);
    assert InWindow(s, w.page) && PageOk(s, w.page);
  }

  lemma {:induction false} ScanOver(s: State, p: nat) returns (path: seq<State>, steps: seq<Step>)
    requires SteppingOver(s, p)
    ensures IsPath(path, steps) && path[0] == s && NoneCompletes(steps)
    ensures var s' := path[|steps|]; s'.flushed > 0 && s'.writes != [] && s'.writes[0].InFlight?
    decreases |s.writes| - s.writes[p].page
  {
    StepOver(s, p);
    var s1 := Apply(s, Scan(p));
    if s1.writes[p].Scanning? {
      path, steps := ScanOver(s1, p);
    } else {
      path, steps := [s1, Apply(s1, Raise(p))], [Raise(p)];
    }
    path, steps := Prepend(s, Scan(p), path, steps);
  }

  /** Page p's write finishes while the marker is 0; its callback starts to scan. */
  lemma ScanBegins(s: State, p: nat) returns (s1: State, s2: State, s3: State)
    requires Inv(s) && s.flushed == 0
    requires 0 < p < |s.writes| && s.writes[0].InFlight? && s.writes[p].InFlight?
    ensures s1 == Apply(s, Complete(p)) && Enabled(s1, MarkFlushed(p)) && s2 == Apply(s1, MarkFlushed(p))
    ensures Enabled(s2, LoadFlushed(p)) && s3 == Apply(s2, LoadFlushed(p)) && SteppingOver(s3, p)
  {
    s1 := Apply(s, Complete(p));
    InvStep(s, Complete(p));
    s2, s3 := ScanGoesOn(s1, p);
  }

  lemma ScanGoesOn(s1: State, p: nat) returns (s2: State, s3: State)
    requires Inv(s1) && s1.flushed == 0 && 0 < p < |s1.writes| && s1.writes[0].InFlight?
    requires Enabled(s1, MarkFlushed(p)) && InWindow(s1, p)
    ensures s2 == Apply(s1, MarkFlushed(p))
    ensures Enabled(s2, LoadFlushed(p)) && s3 == Apply(s2, LoadFlushed(p)) && SteppingOver(s3, p)
  {
    assert InWindow(s1, p) && PageOk(s1, p);
    s2 := Apply(s1, MarkFlushed(p));
    InvStep(s1, MarkFlushed(p));
    s3 := Apply(s2, LoadFlushed(p));
    InvStep(s2, LoadFlushed(p));
  }

  /**
    Main result, the other half: while the marker is 0 and page 0 is being written, any other write
    that finishes lets the marker pass page 0 unfinished.
  */
  lemma FirstPageSkipped(s: State, p: nat) returns (path: seq<State>, steps: seq<Step>)
    requires Inv(s) && s.flushed == 0
    requires 0 < p < |s.writes| && s.writes[0].InFlight? && s.writes[p].InFlight?
    ensures IsPath(path, steps) && path[0] == s && |steps| > 0 && steps[0] == Complete(p) && NoneCompletes(steps[1..])
    ensures var s' := path[|steps|]; s'.flushed > 0 && !DoneBelow(s'.writes, s'.flushed)
  {
    var s1, s2, s3 := ScanBegins(s, p);
    path, steps := ScanOver(s3, p);
    path, steps := Prepend(s2, LoadFlushed(p), path, steps);
    path, steps := Prepend(s1, MarkFlushed(p), path, steps);
    path, steps := Prepend(s, Complete(p), path, steps);
  }

  /** A run that follows `run` for n steps, after which no write finishes. */
  ghost predicate GoesOn(run: seq<State>, steps: seq<Step>, n: nat, run': seq<State>, steps': seq<Step>) {
    && IsRun(run', steps') && n <= |steps| < |run| && n <= |steps'|
    && run'[0] == run[0] && steps'[..n] == steps[..n] && NoneCompletes(steps'[n..])
  }

  /** However a run goes on from any of its states without a further write that finishes, the marker is right. */
  ghost predicate SafeThroughout(run: seq<State>, steps: seq<Step>) {
    forall n: nat, run': seq<State>, steps': seq<Step> :: GoesOn(run, steps, n, run', steps') ==>
      DoneBelow(run'[|steps'|].writes, run'[|steps'|].flushed)
  }

  /** Two runs that take the same steps from the same state are in the same states. */
  lemma {:induction false} SameSteps(
    run: seq<State>, steps: seq<Step>, n: nat, run': seq<State>, steps': seq<Step>, k: nat)
    requires IsRun(run, steps) && IsRun(run', steps') && run[0] == run'[0] && k <= n <= |steps| && n <= |steps'|
    requires steps'[..n] == steps[..n]
    ensures run'[k] == run[k]
  {
    if k > 0 {
      SameSteps(run, steps, n, run', steps', k - 1);
      assert steps'[..n][k - 1] == steps[..n][k - 1];
      assert run[k] == Apply(run[k - 1], steps[k - 1]) && run'[k] == Apply(run'[k - 1], steps'[k - 1]);
    }
  }

  lemma FirstPageFirstKept(run: seq<State>, steps: seq<Step>, n: nat, run': seq<State>, steps': seq<Step>)
    requires IsRun(run, steps) && FirstPageFirst(run, steps) && GoesOn(run, steps, n, run', steps')
    ensures FirstPageFirst(run', steps')
  {
    forall i {:trigger steps'[i]} | 0 <= i < |steps'|
      ensures !Overtakes(run'[i], steps'[i])
    {
      if i < n {
        SameSteps(run, steps, n, run', steps', i);
        assert steps'[..n][i] == steps[..n][i];
      } else {
        assert steps'[n..][i - n] == steps'[i];
      }
    }
  }

  lemma Spliced(run: seq<State>, steps: seq<Step>, n: nat, path: seq<State>, more: seq<Step>)
    returns (run': seq<State>, steps': seq<Step>)
    requires IsRun(run, steps) && n <= |steps| && IsPath(path, more) && path[0] == run[n]
    ensures IsRun(run', steps') && run'[0] == run[0]
    ensures steps' == steps[..n] + more && run'[|steps'|] == path[|more|]
  {
    run', steps' := run[..n] + path, steps[..n] + more;
    forall i {:trigger steps'[i]} | 0 <= i < |steps'|
      ensures Enabled(run'[i], steps'[i]) && run'[i + 1] == Apply(run'[i], steps'[i])
    {
      if i < n {
        assert steps'[i] == steps[i] && run'[i] == run[i] && run'[i + 1] == run[i + 1];
      } else {
        assert steps'[i] == more[i - n] && run'[i] == path[i - n] && run'[i + 1] == path[i - n + 1];
      }
    }
  }

  /** From a step that overtakes page 0, the run can go on to a wrong marker. */
  lemma OvertakenUnsafe(run: seq<State>, steps: seq<Step>, i: nat)
    requires IsRun(run, steps) && i < |steps| && Overtakes(run[i], steps[i])
    ensures !SafeThroughout(run, steps)
  {
    var s, p := run[i], steps[i].p;
    InvInRun(run, steps, i);
    if s.flushed > 0 {
      var run', steps' := Spliced(run, steps, i, [s], []);
      assert GoesOn(run, steps, i, run', steps');
    } else {
      var path, more := FirstPageSkipped(s, p);
      var run', steps' := Spliced(run, steps, i, path, more);
      assert steps'[..i + 1] == steps[..i + 1] && steps'[i + 1..] == more[1..];
      assert GoesOn(run, steps, i + 1, run', steps');
    }
  }

  /**
    Main result: the flushed marker covers finished writes only, however a run goes on from any of
    its states without a further write that finishes, if and only if no write finishes before page 0's.
  */
  lemma SafeIffFirstPageFirst(run: seq<State>, steps: seq<Step>)
    requires IsRun(run, steps)
    ensures SafeThroughout(run, steps) <==> FirstPageFirst(run, steps)
  {
    if FirstPageFirst(run, steps) {
      forall n: nat, run': seq<State>, steps': seq<Step> | GoesOn(run, steps, n, run', steps')
        ensures DoneBelow(run'[|steps'|].writes, run'[|steps'|].flushed)
      {
        FirstPageFirstKept(run, steps, n, run', steps');
        FlushedPrefixDone(run', steps', |steps'|);
      }
    } else {
      var i :| 0 <= i < |steps| && Overtakes(run[i], steps[i]);
      OvertakenUnsafe(run, steps, i);
    }
  }

  /** Six frames, one thread, the tail moved to `tail` and nothing else done yet. */
  function Fresh(tail: nat): State {
    State(6, 2, seq(6, i => Frame(i < tail + 2, Flushed, if i < tail + 2 then Open else Closed, 0)),
          0, 0, 0, [], 0, tail, {}, map[], [Idle], [], false)
  }

  lemma OpenNext(tail: nat, path: seq<State>, steps: seq<Step>) returns (path': seq<State>, steps': seq<Step>)
    requires tail < 3 && IsPath(path, steps) && path[0] == Fresh(tail + 1)
    ensures IsPath(path', steps') && path'[0] == Fresh(tail) && path'[|steps'|] == path[|steps|]
  {
    var s := Fresh(tail);
    var s1 := SetPc(s, 0, HasRoom(tail));
    var s2 := SetPc(s, 0, CanAdvance(tail));
    var s3 := SetPc(s.(tail := tail + 1), 0, Won(tail));
    assert Slot(tail + 1, 6) == tail + 1 && Slot(tail + 2, 6) == tail + 2;
    assert Apply(s3, AllocateNext(0)).frames == Fresh(tail + 1).frames;
    assert Apply(s3, AllocateNext(0)) == path[0];
    path', steps' := Prepend(s3, AllocateNext(0), path, steps);
    path', steps' := Prepend(s2, Advance(0), path', steps');
    path', steps' := Prepend(s1, LoadStatus(0), path', steps');
    path', steps' := Prepend(s, CheckRoom(0, tail), path', steps');
  }

  lemma FreshInv(tail: nat)
    requires tail <= 3
    ensures Inv(Fresh(tail))
  {
    var s := Fresh(tail);
    forall p: nat | InWindow(s, p)
      ensures PageOk(s, p)
    {
      assert Slot(p, 6) == p;
    }
  }

  lemma IssueTwo(a: State)
    requires Shaped(a) && |a.writes| == 0
    ensures |IssueUpTo(a, 2).writes| == 2
  {
    assert IssueUpTo(a, 2) == IssueUpTo(IssuePage(a), 2) == IssueUpTo(IssuePage(IssuePage(a)), 2);
  }

  lemma BothIssued(s: State, s1: State, s2: State)
    requires s == Fresh(3) && s1 == s.(readOnly := 2, marking := {2}) && s2 == IssueUpTo(s1.(marking := {}), 2)
    ensures Enabled(s, ShiftReadOnly(4)) && Apply(s, ShiftReadOnly(4)) == s1
    ensures Enabled(s1, RunReadOnly(2)) && Apply(s1, RunReadOnly(2)) == s2
  {
    assert s1.marking - {2} == {};
  }

  lemma BothInFlight(s: State, s1: State, s2: State)
    requires s == Fresh(3) && s1 == s.(readOnly := 2, marking := {2}) && s2 == IssueUpTo(s1.(marking := {}), 2)
    requires Enabled(s, ShiftReadOnly(4)) && Apply(s, ShiftReadOnly(4)) == s1
    requires Enabled(s1, RunReadOnly(2)) && Apply(s1, RunReadOnly(2)) == s2
    ensures Inv(s2) && s2.flushed == 0 && s2.writes == [InFlight, InFlight]
  {
    FreshInv(3);
    InvStep(s, ShiftReadOnly(4));
    InvStep(s1, RunReadOnly(2));
    IssueFrame(s1.(marking := {}), 2);
    IssueTwo(s1.(marking := {}));
  }

  /** From the state with four pages opened, two pages are written and page 1 finishes first. */
  lemma SecondPageFirst() returns (path: seq<State>, steps: seq<Step>)
    ensures IsPath(path, steps) && path[0] == Fresh(3)
    ensures var s := path[|steps|]; s.flushed > 0 && !DoneBelow(s.writes, s.flushed)
  {
    var s := Fresh(3);
    var s1 := s.(readOnly := 2, marking := {2});
    var s2 := IssueUpTo(s1.(marking := {}), 2);
    BothIssued(s, s1, s2);
    BothInFlight(s, s1, s2);
    path, steps := FirstPageSkipped(s2, 1);
    path, steps := Prepend(s1, RunReadOnly(2), path, steps);
    path, steps := Prepend(s, ShiftReadOnly(4), path, steps);
  }

  lemma FreshStarts()
    ensures Init(Fresh(0))
  {
  }

  /** Main result: such a run exists, so the marker can cover an unfinished page. */
  lemma PrefixCanFail() returns (run: seq<State>, steps: seq<Step>)
    ensures IsRun(run, steps)
    ensures var s := run[|steps|]; s.flushed > 0 && !DoneBelow(s.writes, s.flushed)
  {
    run, steps := SecondPageFirst();
    run, steps := OpenNext(2, run, steps);
    run, steps := OpenNext(1, run, steps);
    run, steps := OpenNext(0, run, steps);
    FreshStarts();
  }
}
