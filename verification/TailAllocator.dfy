/**
  The tail of the log: one 64-bit word packs the current page with a 41-bit offset. Threads
  reserve space with fetch-and-add, which may run past the end of the page, and move the tail to
  the next page with compare-and-swap.
*/
module TailAllocator {
  import opened Sums

  const OFFSET_RANGE := 0x200_0000_0000
  const PAGE_SIZE := 0x200_0000
  const MAX_OFFSET := 0x1ff_ffff
  const MAX_PAGE := 0x7f_ffff
  const MAX_THREADS := 96

  /** A thread is free to allocate, was told that a page is full, or is about to move past it. */
  datatype Pc =
    | Idle
    | Closed(page: nat)
    | Loaded(page: nat, expected: nat)

  datatype Grant = Grant(page: nat, offset: nat, size: nat)

  /**
    `granted`, `failed` and `wins` are history: reservations that succeeded and that failed, and pages
    moved past, in order.
  */
  datatype State = State(
    control: nat, threads: seq<Pc>, first: nat, granted: seq<Grant>, failed: seq<Grant>, wins: seq<nat>)

  function Page(control: nat): nat { control / OFFSET_RANGE }

  function Offset(control: nat): nat { control % OFFSET_RANGE }

  function Pack(page: nat, offset: nat): nat { page * OFFSET_RANGE + offset }

  datatype Step = Allocate(t: nat, size: nat) | Load(t: nat) | Cas(t: nat)

  predicate Enabled(s: State, step: Step) {
    step.t < |s.threads| &&
    match step
    case Allocate(t, size) => s.threads[t].Idle? && size <= MAX_OFFSET
    case Load(t) => s.threads[t].Closed? && s.threads[t].page < MAX_PAGE
    case Cas(t) => s.threads[t].Loaded?
  }

  function Apply(s: State, step: Step): State
    requires Enabled(s, step)
  {
    match step
    case Allocate(t, size) =>
      var word := s.control;
      var s' := s.(control := word + size);
      if Offset(word) + size > PAGE_SIZE then
        s'.(threads := s.threads[t := Closed(Page(word))],
            failed := s.failed + [Grant(Page(word), Offset(word), size)])
      else
        s'.(granted := s.granted + [Grant(Page(word), Offset(word), size)])
    case Load(t) =>
      var p := s.threads[t].page;
      // On another page already: the caller allocates again.
      s.(threads := s.threads[t := if Page(s.control) != p then Idle else Loaded(p, s.control)])
    case Cas(t) =>
      var pc := s.threads[t];
      if s.control == pc.expected then
        // The winner's expected word is unchanged, so it is told the page did not advance.
        s.(control := Pack(pc.page + 1, 0), wins := s.wins + [pc.page], threads := s.threads[t := Closed(pc.page)])
      else
        s.(threads := s.threads[t := if Page(s.control) > pc.page then Idle else Closed(pc.page)])
  }

  ghost predicate Init(s: State) {
    && s.control == Pack(s.first, Offset(s.control)) && Offset(s.control) <= PAGE_SIZE
    && |s.threads| <= MAX_THREADS
    && (forall t :: 0 <= t < |s.threads| ==> s.threads[t].Idle?)
    && s.granted == [] && s.failed == [] && s.wins == []
  }

  // ---------- The invariant ----------

  /** One for each thread that has overrun the current page. */
  function Overrun(pc: Pc, page: nat): int {
    if !pc.Idle? && pc.page == page then 1 else 0
  }

  function Overruns(threads: seq<Pc>, page: nat): seq<int> {
    seq(|threads|, i requires 0 <= i < |threads| => Overrun(threads[i], page))
  }

  /** Each thread adds at most one failed reservation to a page. */
  ghost predicate OffsetBounded(s: State) {
    Offset(s.control) <= PAGE_SIZE + MAX_OFFSET * Total(Overruns(s.threads, Page(s.control)))
  }

  ghost predicate PcOk(s: State, pc: Pc) {
    match pc
    case Idle => true
    case Closed(p) => p <= Page(s.control)
    case Loaded(p, expected) => p <= Page(s.control) && Page(expected) == p
  }

  ghost predicate GrantOk(s: State, g: Grant) {
    && g.offset + g.size <= PAGE_SIZE && g.page <= Page(s.control)
    && (g.page == Page(s.control) ==> g.offset + g.size <= Offset(s.control))
  }

  /** g ends before h begins, on the same page or an earlier one. */
  predicate Before(g: Grant, h: Grant) {
    g.page < h.page || (g.page == h.page && g.offset + g.size <= h.offset)
  }

  ghost predicate Inv(s: State) {
    && |s.threads| <= MAX_THREADS
    && OffsetBounded(s)
    && (forall t :: 0 <= t < |s.threads| ==> PcOk(s, s.threads[t]))
    && (forall i :: 0 <= i < |s.granted| ==> GrantOk(s, s.granted[i]))
    && (forall i, j :: 0 <= i < j < |s.granted| ==> Before(s.granted[i], s.granted[j]))
    && Page(s.control) == s.first + |s.wins|
    && (forall i :: 0 <= i < |s.wins| ==> s.wins[i] == s.first + i)
  }

  lemma PackUnpack(page: nat, offset: nat)
    requires offset < OFFSET_RANGE
    ensures Page(Pack(page, offset)) == page && Offset(Pack(page, offset)) == offset
  {
  }

  lemma OffsetFits(s: State)
    requires OffsetBounded(s) && |s.threads| <= MAX_THREADS
    ensures Offset(s.control) + MAX_OFFSET < OFFSET_RANGE
  {
    TotalBounds(Overruns(s.threads, Page(s.control)), 1);
  }

  lemma AddNoCarry(control: nat, size: nat)
    requires Offset(control) + size < OFFSET_RANGE
    ensures Page(control + size) == Page(control) && Offset(control + size) == Offset(control) + size
  {
  }

  lemma OverrunsUpdate(s: State, t: nat, pc: Pc, page: nat)
    requires t < |s.threads|
    ensures Total(Overruns(s.threads[t := pc], page))
            == Total(Overruns(s.threads, page)) - Overrun(s.threads[t], page) + Overrun(pc, page)
  {
    assert Overruns(s.threads[t := pc], page) == Overruns(s.threads, page)[t := Overrun(pc, page)];
    TotalUpdate(Overruns(s.threads, page), t, Overrun(pc, page));
  }

  lemma AllocateStep(s: State, step: Step)
    requires Inv(s) && Enabled(s, step) && step.Allocate?
    ensures Inv(Apply(s, step))
  {
    OffsetFits(s);
    AddNoCarry(s.control, step.size);
    TotalNonNegative(Overruns(s.threads, Page(s.control)));
    OverrunsUpdate(s, step.t, Closed(Page(s.control)), Page(s.control));
  }

  lemma LoadStep(s: State, step: Step)
    requires Inv(s) && Enabled(s, step) && step.Load?
    ensures Inv(Apply(s, step))
  {
    OverrunsUpdate(s, step.t, Apply(s, step).threads[step.t], Page(s.control));
  }

  lemma CasStep(s: State, step: Step)
    requires Inv(s) && Enabled(s, step) && step.Cas?
    ensures Inv(Apply(s, step))
  {
    var pc := s.threads[step.t];
    assert PcOk(s, pc);
    OverrunsUpdate(s, step.t, Apply(s, step).threads[step.t], Page(s.control));
    PackUnpack(pc.page + 1, 0);
    TotalNonNegative(Overruns(Apply(s, step).threads, pc.page + 1));
  }

  lemma InvStep(s: State, step: Step)
    requires Inv(s) && Enabled(s, step)
    ensures Inv(Apply(s, step))
  {
    match step
    case Allocate(_, _) => AllocateStep(s, step);
    case Load(_) => LoadStep(s, step);
    case Cas(_) => CasStep(s, step);
  }

  // ---------- Runs ----------

  ghost predicate IsRun(run: seq<State>, steps: seq<Step>) {
    && |run| == |steps| + 1
    && Init(run[0])
    && forall i {:trigger steps[i]} ::
         0 <= i < |steps| ==> Enabled(run[i], steps[i]) && run[i + 1] == Apply(run[i], steps[i])
  }

  lemma {:induction false} InvInRun(run: seq<State>, steps: seq<Step>, k: nat)
    requires IsRun(run, steps) && k < |run|
    ensures Inv(run[k])
  {
    if k == 0 {
      TotalNonNegative(Overruns(run[0].threads, Page(run[0].control)));
      PackUnpack(run[0].first, Offset(run[0].control));
    } else {
      InvInRun(run, steps, k - 1);
      InvStep(run[k - 1], steps[k - 1]);
    }
  }

  function AddressOf(g: Grant): nat {
    g.page * PAGE_SIZE + g.offset
  }

  /** Main result: in every interleaving, any reservation changes only the offset, never the page. */
  lemma OffsetNeverOverflows(run: seq<State>, steps: seq<Step>, k: nat, size: nat)
    requires IsRun(run, steps) && k < |run| && size <= MAX_OFFSET
    ensures Page(run[k].control + size) == Page(run[k].control)
    ensures Offset(run[k].control + size) == Offset(run[k].control) + size
  {
    InvInRun(run, steps, k);
    OffsetFits(run[k]);
    AddNoCarry(run[k].control, size);
  }

  /** Main result: every successful allocation lies inside one page, behind the tail. */
  lemma GrantsInPage(run: seq<State>, steps: seq<Step>, k: nat, i: nat)
    requires IsRun(run, steps) && k < |run| && i < |run[k].granted|
    ensures var g := run[k].granted[i];
            && g.offset + g.size <= PAGE_SIZE && g.page <= Page(run[k].control)
            && (g.page == Page(run[k].control) ==> g.offset + g.size <= Offset(run[k].control))
  {
    InvInRun(run, steps, k);
    assert GrantOk(run[k], run[k].granted[i]);
  }

  /** Main result: successful allocations follow one another without overlap, in the order of their steps. */
  lemma AllocationsDisjoint(run: seq<State>, steps: seq<Step>, k: nat, i: nat, j: nat)
    requires IsRun(run, steps) && k < |run| && i < j < |run[k].granted|
    ensures var g, h := run[k].granted[i], run[k].granted[j]; AddressOf(g) + g.size <= AddressOf(h)
  {
    InvInRun(run, steps, k);
    var g, h := run[k].granted[i], run[k].granted[j];
    assert GrantOk(run[k], g) && GrantOk(run[k], h) && Before(g, h);
  }

  /** Main result: every page below the tail was moved past by exactly one winner, in order. */
  lemma OneWinnerPerPage(run: seq<State>, steps: seq<Step>, k: nat)
    requires IsRun(run, steps) && k < |run|
    ensures Page(run[k].control) == run[0].first + |run[k].wins|
    ensures forall i :: 0 <= i < |run[k].wins| ==> run[k].wins[i] == run[0].first + i
  {
    InvInRun(run, steps, k);
    FirstKept(run, steps, k);
  }

  lemma {:induction false} FirstKept(run: seq<State>, steps: seq<Step>, k: nat)
    requires IsRun(run, steps) && k < |run|
    ensures run[k].first == run[0].first
  {
    if k > 0 {
      FirstKept(run, steps, k - 1);
      assert run[k] == Apply(run[k - 1], steps[k - 1]);
    }
  }

  // ---------- What the offset counts ----------

  /** The bytes of the reservations made on a page. */
  function Taken(gs: seq<Grant>, page: nat): nat {
    if gs == [] then 0
    else
      var n := |gs| - 1;
      Taken(gs[..n], page) + if gs[n].page == page then gs[n].size else 0
  }

  lemma TakenMore(gs: seq<Grant>, g: Grant, page: nat)
    ensures Taken(gs + [g], page) == Taken(gs, page) + if g.page == page then g.size else 0
  {
    assert (gs + [g])[..|gs|] == gs;
  }

  ghost predicate UpTo(gs: seq<Grant>, page: nat) {
    forall i :: 0 <= i < |gs| ==> gs[i].page <= page
  }

  lemma {:induction false} TakenAbove(gs: seq<Grant>, page: nat, p: nat)
    requires UpTo(gs, page) && page < p
    ensures Taken(gs, p) == 0
  {
    if gs != [] {
      TakenAbove(gs[..|gs| - 1], page, p);
    }
  }

  /** Where the reservations of a page started. */
  function Start(init: State, page: nat): nat {
    if page == Page(init.control) then Offset(init.control) else 0
  }

  /** Every reservation counts: those granted on the current page and those that did not fit. */
  ghost predicate Counted(init: State, s: State) {
    var page := Page(s.control);
    && Page(init.control) <= page && UpTo(s.granted, page) && UpTo(s.failed, page)
    && Offset(s.control) == Start(init, page) + Taken(s.granted, page) + Taken(s.failed, page)
    && forall i :: 0 <= i < |s.failed| ==> s.failed[i].offset + s.failed[i].size > PAGE_SIZE
  }

  lemma CountedGrant(init: State, s: State, s': State, g: Grant, page: nat)
    requires Counted(init, s) && g.page == page == Page(s.control) == Page(s'.control)
    requires Offset(s'.control) == Offset(s.control) + g.size
    requires s'.granted == s.granted + [g] && s'.failed == s.failed
    ensures Counted(init, s')
  {
    TakenMore(s.granted, g, page);
  }

  lemma CountedFailure(init: State, s: State, s': State, g: Grant, page: nat)
    requires Counted(init, s) && g.page == page == Page(s.control) == Page(s'.control)
    requires Offset(s'.control) == Offset(s.control) + g.size && g.offset + g.size > PAGE_SIZE
    requires s'.granted == s.granted && s'.failed == s.failed + [g]
    ensures Counted(init, s')
  {
    TakenMore(s.failed, g, page);
  }

  lemma CountedAllocate(init: State, s: State, step: Step)
    requires Inv(s) && Counted(init, s) && Enabled(s, step) && step.Allocate?
    ensures Counted(init, Apply(s, step))
  {
    OffsetFits(s);
    AddNoCarry(s.control, step.size);
    var page := Page(s.control);
    var g := Grant(page, Offset(s.control), step.size);
    if g.offset + g.size > PAGE_SIZE {
      CountedFailure(init, s, Apply(s, step), g, page);
    } else {
      CountedGrant(init, s, Apply(s, step), g, page);
    }
  }

  lemma CountedCas(init: State, s: State, step: Step)
    requires Inv(s) && Counted(init, s) && Enabled(s, step) && step.Cas?
    ensures Counted(init, Apply(s, step))
  {
    var pc := s.threads[step.t];
    assert PcOk(s, pc);
    PackUnpack(pc.page + 1, 0);
    if s.control == pc.expected {
      TakenAbove(s.granted, pc.page, pc.page + 1);
      TakenAbove(s.failed, pc.page, pc.page + 1);
    }
  }

  lemma CountedNext(init: State, s: State, step: Step, s': State)
    requires Inv(s) && Counted(init, s) && Enabled(s, step) && s' == Apply(s, step)
    ensures Counted(init, s')
  {
    match step
    case Allocate(_, _) => CountedAllocate(init, s, step);
    case Load(_) =>
    case Cas(_) => CountedCas(init, s, step);
  }

  /**
    Main result: in every run the offset is what the reservations of the page add up to, granted or
    failed, and each failed one did not fit in the page.
  */
  lemma {:induction false} OffsetCounts(run: seq<State>, steps: seq<Step>, k: nat)
    requires IsRun(run, steps) && k < |run|
    ensures Counted(run[0], run[k])
  {
    if k > 0 {
      OffsetCounts(run, steps, k - 1);
      InvInRun(run, steps, k - 1);
      CountedNext(run[0], run[k - 1], steps[k - 1], run[k]);
    }
  }

  /** Main result: a reservation that fits in the page is granted where the tail stood. */
  lemma FittingGranted(run: seq<State>, steps: seq<Step>, k: nat, t: nat, size: nat)
    requires IsRun(run, steps) && k < |steps| && steps[k] == Allocate(t, size)
    requires Offset(run[k].control) + size <= PAGE_SIZE
    ensures run[k + 1].granted == run[k].granted + [Grant(Page(run[k].control), Offset(run[k].control), size)]
    ensures run[k + 1].control == run[k].control + size
  {
    assert run[k + 1] == Apply(run[k], steps[k]);
  }

  // ---------- A full page does not stop a thread ----------

  /**
    Main result: from every reachable state, a thread that finds the page full and goes on by itself moves the
    tail to the next page, once, and is granted its reservation at the start of it.
  */
  lemma TurnsPage(s: State, t: nat, size: nat) returns (path: seq<State>, steps: seq<Step>)
    requires Inv(s) && t < |s.threads| && s.threads[t].Idle? && size <= MAX_OFFSET && Page(s.control) < MAX_PAGE
    requires PAGE_SIZE < Offset(s.control) + size
    ensures |path| == |steps| + 1 && path[0] == s
    ensures forall i {:trigger steps[i]} ::
              0 <= i < |steps| ==>
                steps[i].t == t && Enabled(path[i], steps[i]) && path[i + 1] == Apply(path[i], steps[i])
    ensures var s' := path[|steps|];
            && s'.threads == s.threads && s'.granted == s.granted + [Grant(Page(s.control) + 1, 0, size)]
            && s'.control == Pack(Page(s.control) + 1, size) && s'.wins == s.wins + [Page(s.control)]
  {
    var p := Page(s.control);
    OffsetFits(s);
    PackUnpack(p, Offset(s.control) + size);
    PackUnpack(p + 1, 0);
    var s1 := Apply(s, Allocate(t, size));
    assert s1.control == Pack(p, Offset(s.control) + size);
    var s2 := Apply(s1, Load(t));
    var s3 := Apply(s2, Cas(t));
    var s4 := Apply(s3, Load(t));
    var s5 := Apply(s4, Allocate(t, size));
    path, steps := [s, s1, s2, s3, s4, s5], [Allocate(t, size), Load(t), Cas(t), Load(t), Allocate(t, size)];
    assert s5.threads == s.threads;
  }
}
