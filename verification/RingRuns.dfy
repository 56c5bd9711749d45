/**
  Where the markers of the log come to rest when no callback is pending, and that the log can always
  open a further page, if and only if at least two of its pages are not meant to be mutable.
*/
module RingRuns {
  import opened PageRing

  // ---------- What every run keeps ----------

  /** Pages marked read-only whose write is not issued have a callback that will issue it. */
  ghost predicate Issued(s: State) {
    |s.writes| < s.readOnly ==> s.readOnly in s.marking
  }

  /** Pages behind the head that are not closed have a callback that will close them. */
  ghost predicate Closing(s: State) {
    && (s.safeHead < s.head ==> s.head in s.closing)
    && forall n :: n in s.closing ==> s.closing[n] <= RunningPages(s)
  }

  /** Thread t has moved the tail to where it is, and is about to allocate the page after it. */
  predicate OpensNext(s: State, t: nat) {
    t < |s.threads| && s.threads[t].Won? && s.threads[t].full + 1 == s.tail
  }

  /** The page after the tail has its memory, or a thread is about to allocate it. */
  ghost predicate Opened(s: State)
    requires Shaped(s)
  {
    FrameOf(s, s.tail + 1).present || exists t :: 0 <= t < |s.threads| && OpensNext(s, t)
  }

  /** A scan reads the page it has reached, or still looks for the first page written. */
  ghost predicate ScanOk(s: State, p: nat)
    requires p < |s.writes|
  {
    s.writes[p].Scanning? ==>
      var w := s.writes[p];
      && (w.page == w.upTo || (w.upTo == 0 && w.page <= p))
      && (!w.found ==> w.page == w.upTo <= s.flushed)
  }

  ghost predicate ScansOk(s: State) {
    forall p :: 0 <= p < |s.writes| ==> ScanOk(s, p)
  }

  /** The write of page p has finished. */
  predicate Written(s: State, p: nat) {
    p < |s.writes| && !s.writes[p].InFlight?
  }

  /** All pages from `from` to g are written. */
  ghost predicate Stretch(s: State, from: nat, g: nat) {
    from <= g && forall p: nat :: from <= p <= g ==> Written(s, p)
  }

  /** The callback of page p will take the flushed marker past g, unless another one does. */
  ghost predicate WillPass(s: State, p: nat, g: nat)
    requires p < |s.writes|
  {
    match s.writes[p]
    case InFlight => p < s.flushed
    case Scanning(page, upTo, _) => Stretch(s, page, g) || upTo > g
    case Raising(upTo) => upTo > g
    case Finished => false
    case _ => true
  }

  ghost predicate SomePasses(s: State, g: nat) {
    exists p :: 0 <= p < |s.writes| && WillPass(s, p, g)
  }

  /** Whatever is written from the flushed marker on, some callback will move the marker past it. */
  ghost predicate Covered(s: State) {
    forall g: nat :: Stretch(s, s.flushed, g) ==> SomePasses(s, g)
  }

  ghost predicate Live(s: State) {
    Inv(s) && Issued(s) && Closing(s) && Opened(s) && ScansOk(s) && Covered(s)
  }

  // The flushed marker.

  /** What a scan finds in the frame of a page whose write has been issued. */
  lemma ScanFinds(s: State, p: nat)
    requires Inv(s) && p < |s.writes| && s.writes[p].Scanning? && ScanOk(s, p) && s.writes[p].page < |s.writes|
    ensures var page := s.writes[p].page;
            FrameOf(s, page).last == if s.writes[page].InFlight? then 0 else page + 1
  {
    var page := s.writes[p].page;
    assert StageOk(s.writes[p], p, s);
    assert InWindow(s, page) && PageOk(s, page);
  }

  lemma ScanInBounds(s: State, p: nat)
    requires Inv(s) && p < |s.writes| && s.writes[p].Scanning? && ScanOk(s, p)
    ensures s.writes[p].page <= |s.writes|
  {
    assert StageOk(s.writes[p], p, s);
  }

  /** A scan that has reached the end of what is issued stops. */
  lemma ScanStops(s: State, p: nat)
    requires Inv(s) && p < |s.writes| && s.writes[p].Scanning? && ScanOk(s, p) && s.writes[p].page == |s.writes|
    ensures FrameOf(s, s.writes[p].page).last < s.writes[p].upTo
  {
    var page := s.writes[p].page;
    assert StageOk(s.writes[p], p, s);
    assert InWindow(s, page) && PageOk(s, page);
  }

  /** Where one turn of the scan leads. */
  lemma ScanTurns(s: State, p: nat, s': State)
    requires Inv(s) && Enabled(s, Scan(p)) && s' == Apply(s, Scan(p)) && ScanOk(s, p)
    ensures |s'.writes| == |s.writes| && s'.writes == s.writes[p := s'.writes[p]] && s'.flushed == s.flushed
    ensures var w, w' := s.writes[p], s'.writes[p];
            if w.page < |s.writes| && !s.writes[w.page].InFlight? then w' == Scanning(w.page + 1, w.page + 1, true)
            else if w.page < |s.writes| && w.upTo == 0 then w' == Scanning(w.page + 1, 0, true)
            else w' == if w.found then Raising(w.upTo) else Finished
  {
    ScanInBounds(s, p);
    if s.writes[p].page < |s.writes| {
      ScanFinds(s, p);
    } else {
      ScanStops(s, p);
    }
  }

  lemma ScanKeepsOk(s: State, p: nat, s': State)
    requires Inv(s) && Enabled(s, Scan(p)) && s' == Apply(s, Scan(p)) && ScansOk(s)
    ensures ScansOk(s')
  {
    ScanTurns(s, p, s');
    forall q | 0 <= q < |s'.writes|
      ensures ScanOk(s', q)
    {
      assert ScanOk(s, q) && ScanOk(s, p);
    }
  }

  /** A scan that will pass g goes on to do so. */
  lemma ScanPasses(s: State, p: nat, s': State, g: nat)
    requires Inv(s) && Enabled(s, Scan(p)) && s' == Apply(s, Scan(p)) && ScanOk(s, p)
    requires s.flushed <= g && WillPass(s, p, g)
    ensures |s'.writes| == |s.writes| && WillPass(s', p, g)
  {
    var w := s.writes[p];
    ScanTurns(s, p, s');
    if Stretch(s, w.page, g) {
      assert Written(s, w.page);
      assert w.page < g ==> Stretch(s', w.page + 1, g) by {
        assert forall q: nat :: Written(s, q) ==> Written(s', q);
      }
    }
  }

  /** The steps that change no write and no marker of the log but its tail. */
  predicate ThreadKind(step: Step) {
    step.CheckRoom? || step.LoadStatus? || step.Advance? || step.AllocateNext?
  }

  /** The steps of a completion callback. */
  predicate CallbackKind(step: Step) {
    step.Complete? || step.MarkFlushed? || step.Clear? || step.Reopen? || step.LoadFlushed? || step.Scan? || step.Raise?
  }

  /** Only the write of page p, and what its callback writes to, differs. */
  ghost predicate CallbackFrame(s: State, s': State, p: nat) {
    && p < |s.writes| == |s'.writes| && s'.writes == s.writes[p := s'.writes[p]]
    && s' == s.(frames := s'.frames, writes := s'.writes, flushed := s'.flushed, zeros := s'.zeros,
                skipped := s'.skipped, closing := s'.closing)
    && s'.closing.Keys == s.closing.Keys && s.flushed <= s'.flushed
  }

  lemma CallbackEffect(s: State, step: Step, s': State)
    requires Enabled(s, step) && CallbackKind(step) && s' == Apply(s, step)
    ensures CallbackFrame(s, s', step.p)
    ensures !s'.writes[step.p].InFlight? && !s.writes[step.p].Finished?
    ensures !step.Raise? ==> s'.flushed == s.flushed
    ensures !step.Scan? && !step.Raise? && !step.LoadFlushed? ==>
              !s'.writes[step.p].Scanning? && !s'.writes[step.p].Raising? && !s'.writes[step.p].Finished?
  {
  }

  /** The other callbacks pass what they would have passed. */
  lemma OthersPass(s: State, s': State, p: nat, q: nat, g: nat)
    requires CallbackFrame(s, s', p) && !s'.writes[p].InFlight? && q < |s.writes| && q != p && WillPass(s, q, g)
    ensures WillPass(s', q, g)
  {
    assert forall r: nat :: Written(s, r) ==> Written(s', r);
    assert forall from: nat :: Stretch(s, from, g) ==> Stretch(s', from, g);
  }

  lemma CallbackPasses(s: State, step: Step, s': State, g: nat)
    requires Inv(s) && ScansOk(s) && Covered(s) && Enabled(s, step) && CallbackKind(step) && s' == Apply(s, step)
    requires Stretch(s', s'.flushed, g) && !step.Raise?
    ensures SomePasses(s', g)
  {
    CallbackEffect(s, step, s');
    if step.Scan? {
      assert forall r: nat :: Written(s', r) ==> Written(s, r);
      assert Stretch(s, s.flushed, g);
      var q :| 0 <= q < |s.writes| && WillPass(s, q, g);
      assert ScanOk(s, step.p);
      if q == step.p {
        ScanPasses(s, q, s', g);
      } else {
        OthersPass(s, s', step.p, q, g);
      }
    } else {
      assert WillPass(s', step.p, g);
    }
  }

  lemma RaisePasses(s: State, p: nat, s': State, g: nat)
    requires StagesOk(s) && Covered(s) && Enabled(s, Raise(p)) && s' == Apply(s, Raise(p))
    requires Stretch(s', s'.flushed, g)
    ensures SomePasses(s', g)
  {
    CallbackEffect(s, Raise(p), s');
    assert StageOk(s.writes[p], p, s);
    if r: nat :| s.flushed <= r < s'.flushed && !Written(s, r) {
      assert WillPass(s', r, g);
    } else {
      assert forall r: nat :: Written(s', r) ==> Written(s, r);
      assert Stretch(s, s.flushed, g);
      var q :| 0 <= q < |s.writes| && WillPass(s, q, g);
      OthersPass(s, s', p, q, g);
    }
  }

  lemma CallbackCovered(s: State, step: Step, s': State)
    requires Inv(s) && ScansOk(s) && Covered(s) && Enabled(s, step) && CallbackKind(step) && s' == Apply(s, step)
    ensures Covered(s')
  {
    forall g: nat | Stretch(s', s'.flushed, g)
      ensures SomePasses(s', g)
    {
      if step.Raise? {
        RaisePasses(s, step.p, s', g);
      } else {
        CallbackPasses(s, step, s', g);
      }
    }
  }

  lemma CallbackScans(s: State, step: Step, s': State)
    requires Inv(s) && ScansOk(s) && Enabled(s, step) && CallbackKind(step) && s' == Apply(s, step)
    ensures ScansOk(s')
  {
    CallbackEffect(s, step, s');
    if step.Scan? {
      ScanKeepsOk(s, step.p, s');
    } else {
      forall q | 0 <= q < |s'.writes|
        ensures ScanOk(s', q)
      {
        assert ScanOk(s, q);
      }
    }
  }

  lemma CallbackClosing(s: State, step: Step, s': State)
    requires Closing(s) && Enabled(s, step) && CallbackKind(step) && s' == Apply(s, step)
    ensures Closing(s')
  {
    CallbackEffect(s, step, s');
    forall n | n in s'.closing
      ensures s'.closing[n] <= RunningPages(s')
    {
      assert s.closing[n] <= RunningPages(s);
      assert s'.writes[step.p].Finished? ==> step.p !in s'.closing[n];
      assert s'.closing[n] <= s.closing[n];
    }
  }

  lemma CallbackOpened(s: State, step: Step, s': State)
    requires Shaped(s) && Shaped(s') && Opened(s) && Enabled(s, step) && CallbackKind(step) && s' == Apply(s, step)
    ensures Opened(s')
  {
    CallbackEffect(s, step, s');
    assert forall i :: 0 <= i < s.size ==> s'.frames[i].present == s.frames[i].present;
    if !FrameOf(s, s.tail + 1).present {
      var t :| 0 <= t < |s.threads| && OpensNext(s, t);
      assert OpensNext(s', t);
    }
  }

  // Threads in NewPage.

  lemma ThreadEffect(s: State, step: Step, s': State)
    requires Enabled(s, step) && ThreadKind(step) && s' == Apply(s, step)
    ensures Shaped(s') && s' == s.(frames := s'.frames, tail := s'.tail, threads := s'.threads) && s.tail <= s'.tail
    ensures |s'.threads| == |s.threads| && s'.threads == s.threads[step.t := s'.threads[step.t]]
    ensures forall i :: 0 <= i < s.size && s.frames[i].present ==> s'.frames[i].present
    ensures s'.tail != s.tail ==> OpensNext(s', step.t)
    ensures OpensNext(s, step.t) ==> FrameOf(s', s.tail + 1).present && s'.tail == s.tail
  {
  }

  lemma ThreadOpened(s: State, step: Step, s': State)
    requires Shaped(s) && Shaped(s') && Opened(s) && Enabled(s, step) && ThreadKind(step) && s' == Apply(s, step)
    ensures Opened(s')
  {
    ThreadEffect(s, step, s');
    if s'.tail == s.tail && !FrameOf(s, s.tail + 1).present {
      var t :| 0 <= t < |s.threads| && OpensNext(s, t);
      assert t != step.t ==> OpensNext(s', t);
    }
  }

  /** Where writes and the flushed marker are as before, so is what the callbacks will do. */
  lemma WritesKept(s: State, s': State)
    requires ScansOk(s) && Covered(s) && s'.writes == s.writes && s'.flushed == s.flushed
    ensures ScansOk(s') && Covered(s')
  {
    forall p | 0 <= p < |s'.writes|
      ensures ScanOk(s', p)
    {
      assert ScanOk(s, p);
    }
    assert forall r: nat :: Written(s', r) <==> Written(s, r);
    assert forall from: nat, g: nat :: Stretch(s', from, g) <==> Stretch(s, from, g);
    forall g: nat | Stretch(s', s'.flushed, g)
      ensures SomePasses(s', g)
    {
      var p :| 0 <= p < |s.writes| && WillPass(s, p, g);
      assert WillPass(s', p, g);
    }
  }

  lemma ThreadLive(s: State, step: Step, s': State)
    requires Live(s) && Enabled(s, step) && ThreadKind(step) && s' == Apply(s, step) && Inv(s')
    ensures Live(s')
  {
    ThreadEffect(s, step, s');
    ThreadOpened(s, step, s');
    WritesKept(s, s');
  }

  // Markers and the callbacks that follow them.

  lemma MarkerLive(s: State, step: Step, s': State)
    requires Live(s) && Enabled(s, step) && (step.ShiftReadOnly? || step.ShiftHead?) && s' == Apply(s, step) && Inv(s')
    ensures Live(s')
  {
    WritesKept(s, s');
    KeptOpened(s, s');
  }

  lemma KeptOpened(s: State, s': State)
    requires Shaped(s) && Shaped(s') && Opened(s) && s'.size == s.size && s'.tail == s.tail && s'.threads == s.threads
    requires forall i :: 0 <= i < s.size ==> s'.frames[i].present == s.frames[i].present
    ensures Opened(s')
  {
    if !FrameOf(s, s.tail + 1).present {
      var t :| 0 <= t < |s.threads| && OpensNext(s, t);
      assert OpensNext(s', t);
    }
  }

  lemma {:induction false} IssueReaches(s: State, target: nat)
    requires Shaped(s)
    ensures var s' := IssueUpTo(s, target);
            && Shaped(s') && s'.size == s.size && target <= |s'.writes|
            && forall i :: 0 <= i < s.size ==> s'.frames[i].present == s.frames[i].present
    decreases target - |s.writes|
  {
    if |s.writes| < target {
      IssueReaches(IssuePage(s), target);
    }
  }

  lemma {:induction false} CloseReaches(s: State, target: nat)
    requires Shaped(s)
    ensures var s' := CloseUpTo(s, target);
            && Shaped(s') && s'.size == s.size && target <= s'.safeHead
            && forall i :: 0 <= i < s.size ==> s'.frames[i].present == s.frames[i].present
    decreases target - s.safeHead
  {
    if s.safeHead < target {
      CloseReaches(ClosePage(s), target);
    }
  }

  /** Writes that are only issued are no part of any stretch. */
  lemma IssueKept(s: State, s': State)
    requires ScansOk(s) && Covered(s) && s'.flushed == s.flushed && |s.writes| <= |s'.writes|
    requires forall p :: 0 <= p < |s'.writes| ==> s'.writes[p] == if p < |s.writes| then s.writes[p] else InFlight
    ensures ScansOk(s') && Covered(s')
  {
    forall p | 0 <= p < |s'.writes|
      ensures ScanOk(s', p)
    {
      assert p < |s.writes| ==> ScanOk(s, p);
    }
    assert forall r: nat :: Written(s', r) <==> Written(s, r);
    assert forall from: nat, g: nat :: Stretch(s', from, g) <==> Stretch(s, from, g);
    forall g: nat | Stretch(s', s'.flushed, g)
      ensures SomePasses(s', g)
    {
      var p :| 0 <= p < |s.writes| && WillPass(s, p, g);
      assert WillPass(s', p, g);
    }
  }

  lemma IssueLive(s: State, target: nat, s': State)
    requires Live(s) && Enabled(s, RunReadOnly(target)) && s' == Apply(s, RunReadOnly(target)) && Inv(s')
    ensures Live(s')
  {
    var s1 := s.(marking := s.marking - {target});
    IssueFrame(s1, target);
    IssueReaches(s1, target);
    IssueKept(s, s');
    KeptOpened(s, s');
    forall n | n in s'.closing
      ensures s'.closing[n] <= RunningPages(s')
    {
      assert RunningPages(s) <= RunningPages(s');
    }
  }

  lemma CloseLive(s: State, target: nat, s': State)
    requires Live(s) && Enabled(s, RunClose(target)) && s' == Apply(s, RunClose(target)) && Inv(s')
    ensures Live(s')
  {
    var s1 := s.(closing := s.closing - {target});
    CloseFrame(s1, target);
    CloseReaches(s1, target);
    WritesKept(s, s');
    KeptOpened(s, s');
    assert RunningPages(s) == RunningPages(s');
  }

  lemma CallbackLive(s: State, step: Step, s': State)
    requires Live(s) && Enabled(s, step) && CallbackKind(step) && s' == Apply(s, step) && Inv(s')
    ensures Live(s')
  {
    CallbackEffect(s, step, s');
    CallbackCovered(s, step, s');
    CallbackScans(s, step, s');
    CallbackClosing(s, step, s');
    CallbackOpened(s, step, s');
  }

  lemma LiveStep(s: State, step: Step, s': State)
    requires Live(s) && Enabled(s, step) && s' == Apply(s, step)
    ensures Live(s')
  {
    InvStep(s, step);
    if ThreadKind(step) {
      ThreadLive(s, step, s');
    } else if CallbackKind(step) {
      CallbackLive(s, step, s');
    } else if step.RunReadOnly? {
      IssueLive(s, step.target, s');
    } else if step.RunClose? {
      CloseLive(s, step.target, s');
    } else {
      MarkerLive(s, step, s');
    }
  }

  lemma LiveInit(s: State)
    requires Init(s)
    ensures Live(s)
  {
    InitInv(s);
    assert Slot(1, s.size) == 1;
    assert forall g: nat :: !Stretch(s, 0, g) by {
      assert !Written(s, 0);
    }
  }

  lemma {:induction false} LiveInRun(run: seq<State>, steps: seq<Step>, k: nat)
    requires IsRun(run, steps) && k < |run|
    ensures Live(run[k])
  {
    if k == 0 {
      LiveInit(run[0]);
    } else {
      LiveInRun(run, steps, k - 1);
      LiveStep(run[k - 1], steps[k - 1], run[k]);
    }
  }

  // ---------- Where the markers come to rest ----------

  /** No callback is pending: nothing is to be issued, written, completed or closed. */
  ghost predicate Quiescent(s: State) {
    && s.marking == {} && s.closing == map[]
    && forall p :: 0 <= p < |s.writes| ==> s.writes[p].Finished?
  }

  lemma QuiescentMarkers(s: State)
    requires Live(s) && Quiescent(s)
    ensures s.safeHead == s.head && s.flushed == |s.writes| == s.readOnly
  {
    if s.flushed < |s.writes| {
      assert forall p: nat :: p < |s.writes| ==> Written(s, p);
      assert Stretch(s, s.flushed, |s.writes| - 1);
      assert false;
    }
  }

  /**
    Main result: in every run, whenever no callback is pending, the log is closed up to its head, and every page
    below the read-only marker is written and flushed, whatever pages the scans stepped over.
  */
  lemma MarkersAtRest(run: seq<State>, steps: seq<Step>, k: nat)
    requires IsRun(run, steps) && k < |run| && Quiescent(run[k])
    ensures run[k].safeHead == run[k].head && run[k].flushed == |run[k].writes| == run[k].readOnly
  {
    LiveInRun(run, steps, k);
    QuiescentMarkers(run[k]);
  }

  /** The markers are where some tail page, not beyond the next one, wants them. */
  ghost predicate Lags(s: State) {
    && (s.readOnly == 0 || s.readOnly + s.mutable <= s.tail + 1)
    && (s.head == 0 || s.head + s.size <= s.tail + 1 + HEAD_PAGES)
  }

  lemma SameMarkers(s: State, step: Step, s': State)
    requires Enabled(s, step) && s' == Apply(s, step) && (step.RunReadOnly? || step.RunClose? || CallbackKind(step))
    ensures s'.readOnly == s.readOnly && s'.head == s.head && s'.tail == s.tail
    ensures s'.size == s.size && s'.mutable == s.mutable
  {
    match step
    case RunReadOnly(target) => IssueFrame(s.(marking := s.marking - {target}), target);
    case RunClose(target) => CloseFrame(s.(closing := s.closing - {target}), target);
    case _ => CallbackEffect(s, step, s');
  }

  lemma LagsStep(s: State, step: Step, s': State)
    requires Enabled(s, step) && s' == Apply(s, step) && Lags(s)
    ensures Lags(s')
  {
    if step.RunReadOnly? || step.RunClose? || CallbackKind(step) {
      SameMarkers(s, step, s');
    } else if ThreadKind(step) {
      ThreadEffect(s, step, s');
    }
  }

  /**
    Main result: no marker runs ahead: in every run as many pages as are meant to be mutable stay behind the
    read-only marker, counted to the page after the tail, and all pages of the ring but four behind the head.
  */
  lemma {:induction false} MarkersLag(run: seq<State>, steps: seq<Step>, k: nat)
    requires IsRun(run, steps) && k < |run|
    ensures Lags(run[k])
  {
    if k > 0 {
      MarkersLag(run, steps, k - 1);
      LagsStep(run[k - 1], steps[k - 1], run[k]);
    }
  }

  // ---------- The log can always open a further page ----------

  ghost predicate IsPathTo(path: seq<State>, steps: seq<Step>, s: State, s': State) {
    IsPath(path, steps) && path[0] == s && path[|steps|] == s'
  }

  ghost predicate Reaches(s: State, s': State) {
    exists path: seq<State>, steps: seq<Step> :: IsPathTo(path, steps, s, s')
  }

  lemma ReachesItself(s: State)
    ensures Reaches(s, s)
  {
    assert IsPathTo([s], [], s, s);
  }

  lemma ReachesNext(s: State, step: Step, s': State)
    requires Enabled(s, step) && s' == Apply(s, step)
    ensures Reaches(s, s')
  {
    assert IsPathTo([s, s'], [step], s, s');
  }

  lemma Joined(path: seq<State>, steps: seq<Step>, path2: seq<State>, steps2: seq<Step>)
    requires IsPath(path, steps) && IsPath(path2, steps2) && path[|steps|] == path2[0]
    ensures var path', steps' := path + path2[1..], steps + steps2;
            IsPath(path', steps') && path'[0] == path[0] && path'[|steps'|] == path2[|steps2|]
  {
    var path', steps', n := path + path2[1..], steps + steps2, |steps|;
    forall i {:trigger steps'[i]} | 0 <= i < |steps'|
      ensures Enabled(path'[i], steps'[i]) && path'[i + 1] == Apply(path'[i], steps'[i])
    {
      if i < n {
        assert steps'[i] == steps[i] && path'[i] == path[i] && path'[i + 1] == path[i + 1];
      } else {
        assert steps'[i] == steps2[i - n] && path'[i] == path2[i - n] && path'[i + 1] == path2[i - n + 1];
      }
    }
  }

  lemma ReachesOn(s: State, s1: State, s2: State)
    requires Reaches(s, s1) && Reaches(s1, s2)
    ensures Reaches(s, s2)
  {
    var path: seq<State>, steps: seq<Step> :| IsPathTo(path, steps, s, s1);
    var path2: seq<State>, steps2: seq<Step> :| IsPathTo(path2, steps2, s1, s2);
    Joined(path, steps, path2, steps2);
    assert IsPathTo(path + path2[1..], steps + steps2, s, s2);
  }

  /** A live state that a live state leads to, with the same tail, threads and plans for head and read-only marker. */
  ghost predicate Settles(s: State, s': State) {
    && Live(s') && Reaches(s, s')
    && s'.tail == s.tail && s'.threads == s.threads && s'.head == s.head && s'.readOnly == s.readOnly
    && s'.size == s.size && s'.mutable == s.mutable
  }

  lemma SettlesOn(s: State, s1: State, s2: State)
    requires Settles(s, s1) && Settles(s1, s2)
    ensures Settles(s, s2)
  {
    ReachesOn(s, s1, s2);
  }

  lemma SettlesItself(s: State)
    requires Live(s)
    ensures Settles(s, s)
  {
    ReachesItself(s);
  }

  // Each callback can be run to its end.

  function NextOf(s: State, p: nat): Step
    requires p < |s.writes|
  {
    match s.writes[p]
    case InFlight => Complete(p)
    case Stored => MarkFlushed(p)
    case Clearing => Clear(p)
    case Reopening => Reopen(p)
    case Marked => LoadFlushed(p)
    case Scanning(_, _, _) => Scan(p)
    case Raising(_) => Raise(p)
    case Finished => Raise(p)
  }

  function Rank(s: State, p: nat): int
    requires p < |s.writes|
  {
    match s.writes[p]
    case InFlight => |s.writes| + 8
    case Stored => |s.writes| + 7
    case Clearing => |s.writes| + 6
    case Reopening => |s.writes| + 5
    case Marked => |s.writes| + 4
    case Scanning(page, _, _) => |s.writes| + 2 - page
    case Raising(_) => 1
    case Finished => 0
  }

  lemma ScanRank(s: State, p: nat, s': State)
    requires Inv(s) && Enabled(s, Scan(p)) && s' == Apply(s, Scan(p)) && ScanOk(s, p)
    ensures p < |s'.writes| && 0 <= Rank(s', p) < Rank(s, p)
  {
    ScanInBounds(s, p);
    ScanTurns(s, p, s');
  }

  lemma OtherRank(s: State, p: nat, s': State)
    requires p < |s.writes| && !s.writes[p].Finished? && !s.writes[p].Scanning? && s.flushed <= |s.writes|
    requires Enabled(s, NextOf(s, p)) && s' == Apply(s, NextOf(s, p))
    ensures p < |s'.writes| && 0 <= Rank(s', p) < Rank(s, p)
  {
  }

  lemma CallbackRank(s: State, p: nat, s': State)
    requires Inv(s) && ScansOk(s) && p < |s.writes| && !s.writes[p].Finished?
    requires Enabled(s, NextOf(s, p)) && s' == Apply(s, NextOf(s, p))
    ensures p < |s'.writes| && 0 <= Rank(s', p) < Rank(s, p)
  {
    assert ScanOk(s, p);
    if s.writes[p].Scanning? {
      ScanRank(s, p, s');
    } else {
      OtherRank(s, p, s');
    }
  }

  lemma NextSettles(s: State, p: nat) returns (s': State)
    requires Live(s) && p < |s.writes| && !s.writes[p].Finished?
    ensures Settles(s, s') && CallbackFrame(s, s', p) && 0 <= Rank(s', p) < Rank(s, p)
  {
    var step := NextOf(s, p);
    s' := Apply(s, step);
    LiveStep(s, step, s');
    ReachesNext(s, step, s');
    CallbackEffect(s, step, s');
    CallbackRank(s, p, s');
  }

  /** The write of page p finishes, and its callback ends. */
  lemma {:induction false} WriteEnds(s: State, p: nat) returns (s': State)
    requires Live(s) && p < |s.writes|
    ensures Settles(s, s') && CallbackFrame(s, s', p) && s'.writes[p].Finished?
    decreases Rank(s, p)
  {
    if s.writes[p].Finished? {
      SettlesItself(s);
      s' := s;
    } else {
      var s1 := NextSettles(s, p);
      s' := WriteEnds(s1, p);
      SettlesOn(s, s1, s');
    }
  }

  lemma {:induction false} WritesEnd(s: State, i: nat) returns (s': State)
    requires Live(s) && i <= |s.writes| && forall p :: 0 <= p < i ==> s.writes[p].Finished?
    ensures Settles(s, s') && s'.marking == s.marking
    ensures forall p :: 0 <= p < |s'.writes| ==> s'.writes[p].Finished?
    decreases |s.writes| - i
  {
    if i == |s.writes| {
      SettlesItself(s);
      s' := s;
    } else {
      var s1 := WriteEnds(s, i);
      s' := WritesEnd(s1, i + 1);
      SettlesOn(s, s1, s');
    }
  }

  lemma IssueSettles(s: State, n: nat) returns (s': State)
    requires Live(s) && n in s.marking
    ensures Settles(s, s') && s'.marking == s.marking - {n}
  {
    s' := Apply(s, RunReadOnly(n));
    LiveStep(s, RunReadOnly(n), s');
    ReachesNext(s, RunReadOnly(n), s');
    IssueFrame(s.(marking := s.marking - {n}), n);
  }

  lemma {:induction false} AllIssued(s: State) returns (s': State)
    requires Live(s)
    ensures Settles(s, s') && s'.marking == {}
    decreases s.marking
  {
    if s.marking == {} {
      SettlesItself(s);
      s' := s;
    } else {
      var n :| n in s.marking;
      var s1 := IssueSettles(s, n);
      s' := AllIssued(s1);
      SettlesOn(s, s1, s');
    }
  }

  lemma CloseSettles(s: State, n: nat) returns (s': State)
    requires Live(s) && n in s.closing && forall p :: 0 <= p < |s.writes| ==> s.writes[p].Finished?
    ensures Settles(s, s') && s'.closing == s.closing - {n} && s'.writes == s.writes && s'.marking == s.marking
  {
    assert RunningPages(s) == {};
    s' := Apply(s, RunClose(n));
    LiveStep(s, RunClose(n), s');
    ReachesNext(s, RunClose(n), s');
    CloseFrame(s.(closing := s.closing - {n}), n);
  }

  lemma {:induction false} AllClosed(s: State) returns (s': State)
    requires Live(s) && s.marking == {} && forall p :: 0 <= p < |s.writes| ==> s.writes[p].Finished?
    ensures Settles(s, s') && Quiescent(s')
    decreases s.closing.Keys
  {
    if s.closing == map[] {
      SettlesItself(s);
      s' := s;
    } else {
      var n :| n in s.closing;
      var s1 := CloseSettles(s, n);
      assert s1.closing.Keys == s.closing.Keys - {n};
      s' := AllClosed(s1);
      SettlesOn(s, s1, s');
    }
  }

  /** Every pending callback can run, and then the markers are at rest. */
  lemma ComesToRest(s: State) returns (s': State)
    requires Live(s)
    ensures Settles(s, s') && Quiescent(s') && s'.safeHead == s'.head && s'.flushed == |s'.writes| == s'.readOnly
  {
    var s1 := AllIssued(s);
    var s2 := WritesEnd(s1, 0);
    s' := AllClosed(s2);
    SettlesOn(s, s1, s2);
    SettlesOn(s, s2, s');
    QuiescentMarkers(s');
  }

  // Threads leave NewPage.

  ghost predicate AllIdle(s: State) {
    forall t :: 0 <= t < |s.threads| ==> s.threads[t].Idle?
  }

  function OwnStep(pc: Pc, t: nat): Step {
    match pc
    case Idle => AllocateNext(t)
    case HasRoom(_) => LoadStatus(t)
    case CanAdvance(_) => Advance(t)
    case Won(_) => AllocateNext(t)
  }

  function Turns(pc: Pc): nat {
    match pc
    case Idle => 0
    case Won(_) => 1
    case CanAdvance(_) => 2
    case HasRoom(_) => 3
  }

  /** Thread t is done with its NewPage, and may have moved the tail. */
  lemma {:induction false} LeavesNewPage(s: State, t: nat) returns (s': State)
    requires Live(s) && t < |s.threads|
    ensures Live(s') && Reaches(s, s') && |s'.threads| == |s.threads| && s'.threads[t].Idle?
    ensures s'.threads == s.threads[t := s'.threads[t]] && s.tail <= s'.tail
    ensures s'.size == s.size && s'.mutable == s.mutable
    decreases Turns(s.threads[t])
  {
    if s.threads[t].Idle? {
      ReachesItself(s);
      s' := s;
    } else {
      var step := OwnStep(s.threads[t], t);
      var s1 := Apply(s, step);
      LiveStep(s, step, s1);
      ReachesNext(s, step, s1);
      ThreadEffect(s, step, s1);
      s' := LeavesNewPage(s1, t);
      ReachesOn(s, s1, s');
    }
  }

  lemma {:induction false} AllLeave(s: State, i: nat) returns (s': State)
    requires Live(s) && i <= |s.threads| && forall t :: 0 <= t < i ==> s.threads[t].Idle?
    ensures Live(s') && Reaches(s, s') && |s'.threads| == |s.threads| && AllIdle(s') && s.tail <= s'.tail
    ensures s'.size == s.size && s'.mutable == s.mutable
    decreases |s.threads| - i
  {
    if i == |s.threads| {
      ReachesItself(s);
      s' := s;
    } else {
      var s1 := LeavesNewPage(s, i);
      s' := AllLeave(s1, i + 1);
      ReachesOn(s, s1, s');
    }
  }

  // Room is made for a page, and a thread opens it.

  /** After NewPage has asked for room and all callbacks have run, the flushed marker is as far as it should be. */
  lemma FlushesAhead(s: State) returns (s': State)
    requires Live(s)
    ensures Live(s') && Reaches(s, s') && s'.tail == s.tail && s'.threads == s.threads
    ensures s'.size == s.size && s'.mutable == s.mutable && s.tail + 1 <= s'.flushed + s.mutable
  {
    var s1 := Apply(s, ShiftReadOnly(s.tail + 1));
    LiveStep(s, ShiftReadOnly(s.tail + 1), s1);
    ReachesNext(s, ShiftReadOnly(s.tail + 1), s1);
    s' := ComesToRest(s1);
    ReachesOn(s, s1, s');
  }

  lemma MakesRoom(s: State) returns (s': State)
    requires Live(s) && s.tail + 1 <= s.flushed + s.mutable && s.mutable + 2 <= s.size
    ensures Live(s') && Reaches(s, s') && Quiescent(s') && s'.tail == s.tail && s'.threads == s.threads
    ensures s'.tail + 2 < s'.safeHead + s'.size
  {
    var s1 := Apply(s, ShiftHead(s.tail + 1, s.flushed));
    LiveStep(s, ShiftHead(s.tail + 1, s.flushed), s1);
    ReachesNext(s, ShiftHead(s.tail + 1, s.flushed), s1);
    s' := ComesToRest(s1);
    ReachesOn(s, s1, s');
  }

  /** With room and nothing pending, the frame of the page after the tail is ready. */
  lemma NextReady(s: State)
    requires Live(s) && Quiescent(s) && AllIdle(s) && s.tail + 2 < s.safeHead + s.size
    ensures Ready(FrameOf(s, s.tail + 1))
  {
    if s.tail + 1 < s.size {
      assert Slot(s.tail + 1, s.size) == s.tail + 1;
    } else {
      var p := s.tail + 1 - s.size;
      assert Slot(s.tail + 1, s.size) == Slot(p, s.size);
      assert InWindow(s, p) && PageOk(s, p);
    }
  }

  lemma OpensPage(s: State) returns (s': State)
    requires Live(s) && Quiescent(s) && AllIdle(s) && |s.threads| > 0 && s.tail + 2 < s.safeHead + s.size
    ensures Reaches(s, s') && s'.tail == s.tail + 1
  {
    NextReady(s);
    var s1 := Apply(s, CheckRoom(0, s.tail));
    var s2 := Apply(s1, LoadStatus(0));
    s' := Apply(s2, Advance(0));
    ReachesNext(s, CheckRoom(0, s.tail), s1);
    ReachesNext(s1, LoadStatus(0), s2);
    ReachesNext(s2, Advance(0), s');
    ReachesOn(s, s1, s2);
    ReachesOn(s, s2, s');
  }

  /** The run can go on to a state with a further page. */
  ghost predicate CanGrow(s: State) {
    exists s' :: Reaches(s, s') && s'.tail > s.tail
  }

  lemma RoomGrows(s: State)
    requires Live(s) && |s.threads| > 0 && s.mutable + 2 <= s.size
    ensures CanGrow(s)
  {
    var s1 := AllLeave(s, 0);
    var s2 := FlushesAhead(s1);
    var s3 := MakesRoom(s2);
    var s4 := OpensPage(s3);
    ReachesOn(s, s1, s2);
    ReachesOn(s, s2, s3);
    ReachesOn(s, s3, s4);
  }

  // With fewer pages that are not mutable, the log comes to an end.

  /** Nothing is read-only as long as the tail has not gone round, and then it cannot go on. */
  ghost predicate Stuck(s: State) {
    s.size < s.mutable + 2 && s.tail + 2 <= s.size && s.readOnly == 0
  }

  lemma StuckStep(s: State, step: Step, s': State)
    requires Inv(s) && Enabled(s, step) && s' == Apply(s, step) && Stuck(s)
    ensures Stuck(s')
  {
    match step
    case RunReadOnly(target) => IssueFrame(s.(marking := s.marking - {target}), target);
    case RunClose(target) => CloseFrame(s.(closing := s.closing - {target}), target);
    case Advance(t) => assert PcOk(s, s.threads[t]);
    case _ =>
  }

  lemma {:induction false} StuckInRun(run: seq<State>, steps: seq<Step>, k: nat)
    requires IsRun(run, steps) && k < |run| && run[0].size < run[0].mutable + 2
    ensures Stuck(run[k]) && run[k].size == run[0].size
  {
    if k > 0 {
      StuckInRun(run, steps, k - 1);
      InvInRun(run, steps, k - 1);
      StuckStep(run[k - 1], steps[k - 1], run[k]);
      SizeKept(run[k - 1], steps[k - 1], run[k]);
    }
  }

  lemma SizeKept(s: State, step: Step, s': State)
    requires Enabled(s, step) && s' == Apply(s, step)
    ensures s'.size == s.size && s'.mutable == s.mutable && |s'.threads| == |s.threads|
  {
    match step
    case RunReadOnly(target) => IssueFrame(s.(marking := s.marking - {target}), target);
    case RunClose(target) => CloseFrame(s.(closing := s.closing - {target}), target);
    case _ =>
  }

  lemma {:induction false} SizesInRun(run: seq<State>, steps: seq<Step>, k: nat)
    requires IsRun(run, steps) && k < |run|
    ensures run[k].size == run[0].size && run[k].mutable == run[0].mutable && |run[k].threads| == |run[0].threads|
  {
    if k > 0 {
      SizesInRun(run, steps, k - 1);
      SizeKept(run[k - 1], steps[k - 1], run[k]);
    }
  }

  /** Every run from this state can be continued until a further page is opened. */
  ghost predicate AlwaysGrows(init: State) {
    forall run, steps :: IsRun(run, steps) && run[0] == init ==> CanGrow(run[|steps|])
  }

  /** A log that always grows reaches every page. */
  lemma {:induction false} GrowsTo(init: State, n: nat) returns (run: seq<State>, steps: seq<Step>)
    requires Init(init) && AlwaysGrows(init)
    ensures IsRun(run, steps) && run[0] == init && run[|steps|].tail >= n
  {
    if n == 0 {
      run, steps := [init], [];
    } else {
      run, steps := GrowsTo(init, n - 1);
      var s' :| Reaches(run[|steps|], s') && s'.tail > run[|steps|].tail;
      var path: seq<State>, more: seq<Step> :| IsPathTo(path, more, run[|steps|], s');
      Joined(run, steps, path, more);
      run, steps := run + path[1..], steps + more;
    }
  }

  /**
    Main result: every run of a log can be continued until the tail opens a further page, if and only if the
    mutable part is meant to leave at least two pages of the ring.
  */
  lemma LogGrowsIff(init: State)
    requires Init(init) && |init.threads| > 0
    ensures AlwaysGrows(init) <==> init.mutable + 2 <= init.size
  {
    if init.mutable + 2 <= init.size {
      forall run, steps | IsRun(run, steps) && run[0] == init
        ensures CanGrow(run[|steps|])
      {
        LiveInRun(run, steps, |steps|);
        SizesInRun(run, steps, |steps|);
        RoomGrows(run[|steps|]);
      }
    } else if AlwaysGrows(init) {
      var run, steps := GrowsTo(init, init.size);
      StuckInRun(run, steps, |steps|);
    }
  }
}
