/**
  The log-structured allocator: each thread carves blocks out of a segment of its own, and any
  thread may free any block. A segment counts frees from the start; when its thread seals it, the
  number of reservations is added to the same word, and whoever brings the counts together
  releases the segment.
*/
module Lss {
  import opened Options

  const SEGMENT := 8000
  const ALIGNMENT := 16
  const HEADER := 2
  const HALF := 0x1_0000_0000

  /** pad_alignment for a power of two. */
  function PadTo(size: nat, alignment: nat): nat
    requires alignment > 0
  {
    (size + alignment - 1) / alignment * alignment
  }

  datatype Ask = Plain(size: nat) | Aligned(size: nat, alignment: nat)

  /** An alignment is a power of two, at least the base alignment. */
  predicate Sound(r: Ask) {
    r.Aligned? ==> ALIGNMENT <= r.alignment && r.alignment % ALIGNMENT == 0
  }

  type Request = r: Ask | Sound(r) witness Plain(0)

  /** The bytes reserved for a request: header, contents and room to align them. */
  function BlockSize(r: Request): nat {
    if r.Plain? then PadTo(r.size + HEADER, ALIGNMENT) else PadTo(r.size + HEADER + r.alignment - ALIGNMENT, ALIGNMENT)
  }

  /** A block remembers what was asked for; history. */
  datatype Block = Block(offset: nat, size: nat, request: Request)

  /**
    `control` packs the sealed count above the count of frees. The other fields are history: the
    owner, the blocks granted and where they end, those still live, how many were freed, whether
    the segment was sealed and how often it was released.
  */
  datatype Segment = Segment(
    control: nat, owner: nat, granted: nat, top: nat, live: set<Block>, freed: nat, sealed: bool, released: nat)

  /** A thread's allocator, and how far its Allocate call has come; `seals` counts the segments this call sealed. */
  datatype Pc =
    | Idle
    | Reserving(request: Request, size: nat, seals: nat)
    | Sealing(request: Request, size: nat, seals: nat)

  datatype Allocator = Allocator(segment: Option<nat>, offset: nat, allocations: nat, pc: Pc)

  datatype State = State(segments: seq<Segment>, threads: seq<Allocator>)

  datatype Step =
    | Allocate(t: nat, request: Request)
    | Reserve(t: nat)
    | Seal(t: nat)
    | Free(i: nat, block: Block)

  function Allocations(control: nat): nat { control / HALF }

  function Frees(control: nat): nat { control % HALF }

  predicate Enabled(s: State, step: Step) {
    match step
    case Allocate(t, r) =>
      t < |s.threads| && s.threads[t].pc.Idle? && BlockSize(r) <= SEGMENT
    case Reserve(t) => t < |s.threads| && s.threads[t].pc.Reserving?
    case Seal(t) =>
      && t < |s.threads| && s.threads[t].pc.Sealing?
      && s.threads[t].segment.Some? && s.threads[t].segment.value < |s.segments|
    case Free(i, b) => i < |s.segments| && b in s.segments[i].live
  }

  function SetThread(s: State, t: nat, a: Allocator): State
    requires t < |s.threads|
  {
    s.(threads := s.threads[t := a])
  }

  function SetSegment(s: State, i: nat, g: Segment): State
    requires i < |s.segments|
  {
    s.(segments := s.segments[i := g])
  }

  /** The first use of an allocator gets it a fresh segment. */
  function WithSegment(s: State, t: nat): State
    requires t < |s.threads|
  {
    if s.threads[t].segment.Some? then s
    else
      s.(segments := s.segments + [Segment(0, t, 0, 0, {}, 0, false, 0)],
         threads := s.threads[t := s.threads[t].(segment := Some(|s.segments|))])
  }

  /** SegmentAllocator::Seal: the sealing counts as a free, of the reservation that did not fit. */
  function Sealed(g: Segment, allocations: nat): Segment {
    g.(control := g.control + allocations * HALF + 1, sealed := true,
       released := g.released + if allocations == Frees(g.control) + 1 then 1 else 0)
  }

  /** SegmentAllocator::Free. */
  function Freed(g: Segment, b: Block): Segment {
    g.(control := g.control + 1, live := g.live - {b}, freed := g.freed + 1,
       released := g.released + if Allocations(g.control) == Frees(g.control) + 1 then 1 else 0)
  }

  function Apply(s: State, step: Step): State
    requires Enabled(s, step)
  {
    match step
    case Allocate(t, r) => SetThread(s, t, s.threads[t].(pc := Reserving(r, BlockSize(r), 0)))
    case Reserve(t) =>
      var s1 := WithSegment(s, t);
      var a := s1.threads[t];
      var end := a.offset + a.pc.size;
      var a' := a.(offset := end, allocations := a.allocations + 1);
      if end <= SEGMENT && a.segment.value < |s1.segments| then
        var g := s1.segments[a.segment.value];
        var g' := g.(granted := g.granted + 1, top := end, 
                     live := g.live + {Block(a.offset, a.pc.size, a.pc.request)});
        SetThread(SetSegment(s1, a.segment.value, g'), t, a'.(pc := Idle))
      else SetThread(s1, t, a'.(pc := Sealing(a.pc.request, a.pc.size, a.pc.seals)))
    case Seal(t) =>
      var a := s.threads[t];
      var g := Sealed(s.segments[a.segment.value], a.allocations);
      var pc := Reserving(a.pc.request, a.pc.size, a.pc.seals + 1);
      SetThread(SetSegment(s, a.segment.value, g), t, Allocator(None, 0, 0, pc))
    case Free(i, b) => SetSegment(s, i, Freed(s.segments[i], b))
  }

  ghost predicate Init(s: State) {
    s.segments == [] && forall t :: 0 <= t < |s.threads| ==> s.threads[t] == Allocator(None, 0, 0, Idle)
  }

  // ---------- The invariant ----------

  predicate Apart(a: Block, b: Block) {
    a.offset + a.size <= b.offset || b.offset + b.size <= a.offset
  }

  /** A segment's word is determined by its history, and it is released when the last block goes. */
  ghost predicate SegmentOk(g: Segment) {
    && g.granted * ALIGNMENT <= g.top <= SEGMENT
    && |g.live| + g.freed == g.granted
    && g.control == (if g.sealed then (g.granted + 1) * HALF + g.freed + 1 else g.freed)
    && g.released == (if g.sealed && g.freed == g.granted then 1 else 0)
    && (forall b :: b in g.live ==> b.offset + b.size <= g.top && ALIGNMENT <= b.size)
    && (forall a, b :: a in g.live && b in g.live && a != b ==> Apart(a, b))
  }

  /** A thread's counters and those of the segment it allocates from. */
  ghost predicate ThreadOk(s: State, t: nat, a: Allocator) {
    && (a.segment.None? ==> a.offset == 0 && a.allocations == 0 && !a.pc.Sealing?)
    && (a.segment.Some? ==>
          && a.segment.value < |s.segments|
          && var g := s.segments[a.segment.value];
             && g.owner == t && !g.sealed
             && a.allocations == g.granted + (if a.pc.Sealing? then 1 else 0)
             && (!a.pc.Sealing? ==> a.offset == g.top))
    && (!a.pc.Idle? ==> ALIGNMENT <= a.pc.size <= SEGMENT)
    && (a.pc.Reserving? ==> a.pc.seals <= 1 && (a.pc.seals == 1 ==> a.offset == 0))
    && (a.pc.Sealing? ==> a.pc.seals == 0)
  }

  ghost predicate Inv(s: State) {
    && (forall i :: 0 <= i < |s.segments| ==> SegmentOk(s.segments[i]))
    && (forall t :: 0 <= t < |s.threads| ==> ThreadOk(s, t, s.threads[t]))
  }

  lemma BlockPositive(r: Request)
    ensures ALIGNMENT <= BlockSize(r) && BlockSize(r) % ALIGNMENT == 0
  {
    var x := if r.Plain? then r.size + HEADER else r.size + HEADER + r.alignment - ALIGNMENT;
    var q := PadBounds(x, ALIGNMENT);
  }

  lemma Unpack(high: nat, low: nat)
    requires low < HALF
    ensures Allocations(high * HALF + low) == high && Frees(high * HALF + low) == low
  {
  }

  lemma SealedOk(g: Segment)
    requires SegmentOk(g) && !g.sealed
    ensures SegmentOk(Sealed(g, g.granted + 1))
  {
    Unpack(0, g.freed);
  }

  lemma FreedOk(g: Segment, b: Block)
    requires SegmentOk(g) && b in g.live
    ensures SegmentOk(Freed(g, b))
  {
    assert |g.live - {b}| == |g.live| - 1;
    if g.sealed {
      Unpack(g.granted + 1, g.freed + 1);
    } else {
      Unpack(0, g.freed);
    }
  }

  lemma GrantedOk(g: Segment, r: Request, size: nat)
    requires SegmentOk(g) && !g.sealed && ALIGNMENT <= size && g.top + size <= SEGMENT
    ensures SegmentOk(g.(granted := g.granted + 1, top := g.top + size, live := g.live + {Block(g.top, size, r)}))
  {
    assert Block(g.top, size, r) !in g.live;
  }

  /** Threads other than t keep their view when only t's segment, or one that is nobody's, changes. */
  lemma OthersKept(s: State, s': State, t: nat)
    requires Inv(s) && t < |s.threads| == |s'.threads| && s'.threads == s.threads[t := s'.threads[t]]
    requires |s.segments| <= |s'.segments|
    requires forall i :: 0 <= i < |s.segments| && s.segments[i].owner != t ==> s'.segments[i] == s.segments[i]
    requires ThreadOk(s', t, s'.threads[t])
    ensures forall u :: 0 <= u < |s'.threads| ==> ThreadOk(s', u, s'.threads[u])
  {
    forall u | 0 <= u < |s'.threads|
      ensures ThreadOk(s', u, s'.threads[u])
    {
      assert ThreadOk(s, u, s.threads[u]);
    }
  }

  lemma FreshOk(s: State, t: nat)
    requires Inv(s) && t < |s.threads|
    ensures Inv(WithSegment(s, t)) && WithSegment(s, t).threads[t].segment.Some?
  {
    if s.threads[t].segment.None? {
      assert ThreadOk(s, t, s.threads[t]);
      assert SegmentOk(Segment(0, t, 0, 0, {}, 0, false, 0));
      OthersKept(s, WithSegment(s, t), t);
    }
  }

  lemma CarveOk(s: State, s': State, t: nat, i: nat, r: Request, size: nat)
    requires Inv(s) && t < |s.threads| && s.threads[t].segment == Some(i) && i < |s.segments|
    requires s.threads[t].pc.Reserving? && s.threads[t].pc.size == size && s.threads[t].offset + size <= SEGMENT
    requires var a, g := s.threads[t], s.segments[i];
             && s'.threads == s.threads[t := Allocator(Some(i), a.offset + size, a.allocations + 1, Idle)]
             && s'.segments == s.segments[i := g.(granted := g.granted + 1, top := a.offset + size,
                                                  live := g.live + {Block(a.offset, size, r)})]
    ensures Inv(s')
  {
    assert ThreadOk(s, t, s.threads[t]);
    GrantedOk(s.segments[i], r, size);
    OthersKept(s, s', t);
  }

  lemma ReserveStep(s: State, t: nat)
    requires Inv(s) && Enabled(s, Reserve(t))
    ensures Inv(Apply(s, Reserve(t)))
  {
    var s1 := WithSegment(s, t);
    FreshOk(s, t);
    var a := s1.threads[t];
    assert ThreadOk(s1, t, a);
    if a.offset + a.pc.size <= SEGMENT {
      CarveOk(s1, Apply(s, Reserve(t)), t, a.segment.value, a.pc.request, a.pc.size);
    } else {
      OthersKept(s1, Apply(s, Reserve(t)), t);
    }
  }

  lemma SealStep(s: State, t: nat)
    requires Inv(s) && Enabled(s, Seal(t))
    ensures Inv(Apply(s, Seal(t)))
  {
    assert ThreadOk(s, t, s.threads[t]);
    SealedOk(s.segments[s.threads[t].segment.value]);
    OthersKept(s, Apply(s, Seal(t)), t);
  }

  lemma FreeStep(s: State, i: nat, b: Block)
    requires Inv(s) && Enabled(s, Free(i, b))
    ensures Inv(Apply(s, Free(i, b)))
  {
    var s' := Apply(s, Free(i, b));
    FreedOk(s.segments[i], b);
    forall u | 0 <= u < |s'.threads|
      ensures ThreadOk(s', u, s'.threads[u])
    {
      assert ThreadOk(s, u, s.threads[u]);
    }
  }

  lemma InvStep(s: State, step: Step)
    requires Inv(s) && Enabled(s, step)
    ensures Inv(Apply(s, step))
  {
    match step
    case Allocate(t, r) =>
      BlockPositive(r);
      OthersKept(s, Apply(s, step), t);
    case Reserve(t) => ReserveStep(s, t);
    case Seal(t) => SealStep(s, t);
    case Free(i, b) => FreeStep(s, i, b);
  }

  // ---------- What the blocks were asked for ----------

  predicate BlockOk(b: Block) {
    b.offset % ALIGNMENT == 0 && b.size == BlockSize(b.request)
  }

  ghost predicate BlocksOk(g: Segment) {
    forall b :: b in g.live ==> BlockOk(b)
  }

  predicate AskOk(a: Allocator) {
    a.offset % ALIGNMENT == 0 && (!a.pc.Idle? ==> a.pc.size == BlockSize(a.pc.request))
  }

  ghost predicate Asked(s: State) {
    && (forall i :: 0 <= i < |s.segments| ==> BlocksOk(s.segments[i]))
    && forall t :: 0 <= t < |s.threads| ==> AskOk(s.threads[t])
  }

  lemma NextOffset(a: Allocator)
    requires AskOk(a) && !a.pc.Idle?
    ensures (a.offset + a.pc.size) % ALIGNMENT == 0
  {
    BlockPositive(a.pc.request);
  }

  lemma BlockAdded(g: Segment, b: Block, g': Segment)
    requires BlocksOk(g) && BlockOk(b) && g'.live == g.live + {b}
    ensures BlocksOk(g')
  {
  }

  lemma AskedFresh(s: State, t: nat)
    requires Asked(s) && t < |s.threads| && s.threads[t].pc.Reserving?
    ensures Asked(WithSegment(s, t)) && AskOk(WithSegment(s, t).threads[t])
    ensures WithSegment(s, t).threads[t].pc == s.threads[t].pc
  {
    assert AskOk(s.threads[t]);
  }

  lemma AskedCarve(s: State, s': State, t: nat, i: nat, a': Allocator, g': Segment)
    requires Asked(s) && t < |s.threads| && i < |s.segments| && AskOk(a') && BlocksOk(g')
    requires s' == s.(threads := s.threads[t := a'], segments := s.segments[i := g'])
    ensures Asked(s')
  {
  }

  lemma AskedReserve(s: State, t: nat)
    requires Asked(s) && Enabled(s, Reserve(t))
    ensures Asked(Apply(s, Reserve(t)))
  {
    var s1, s' := WithSegment(s, t), Apply(s, Reserve(t));
    AskedFresh(s, t);
    var a := s1.threads[t];
    NextOffset(a);
    if a.offset + a.pc.size <= SEGMENT && a.segment.value < |s1.segments| {
      var i := a.segment.value;
      BlockAdded(s1.segments[i], Block(a.offset, a.pc.size, a.pc.request), s'.segments[i]);
      AskedCarve(s1, s', t, i, s'.threads[t], s'.segments[i]);
    }
  }

  lemma AskedStep(s: State, step: Step)
    requires Asked(s) && Enabled(s, step)
    ensures Asked(Apply(s, step))
  {
    match step
    case Allocate(t, r) => assert AskOk(s.threads[t]);
    case Reserve(t) => AskedReserve(s, t);
    case Seal(t) => assert AskOk(s.threads[t]) && BlocksOk(s.segments[s.threads[t].segment.value]);
    case Free(i, b) => assert BlocksOk(s.segments[i]);
  }

  // ---------- Runs ----------

  ghost predicate IsRun(run: seq<State>, steps: seq<Step>) {
    && |run| == |steps| + 1
    && Init(run[0])
    && forall i {:trigger steps[i]} ::
         0 <= i < |steps| ==> Enabled(run[i], steps[i]) && run[i + 1] == Apply(run[i], steps[i])
  }

  lemma {:induction false} InvInRun(run: seq<State>, steps: seq<Step>, k: nat)
    requires IsRun(run, steps) && k < |run|
    ensures Inv(run[k])
  {
    if k > 0 {
      InvInRun(run, steps, k - 1);
      InvStep(run[k - 1], steps[k - 1]);
    }
  }

  lemma {:induction false} AskedInRun(run: seq<State>, steps: seq<Step>, k: nat)
    requires IsRun(run, steps) && k < |run|
    ensures Asked(run[k])
  {
    if k > 0 {
      AskedInRun(run, steps, k - 1);
      AskedStep(run[k - 1], steps[k - 1]);
    }
  }

  /** Main result: a segment is released once it is sealed and its last block freed, then only, and once. */
  lemma ReleasedExactlyOnce(run: seq<State>, steps: seq<Step>, k: nat, i: nat)
    requires IsRun(run, steps) && k < |run| && i < |run[k].segments|
    ensures var g := run[k].segments[i]; g.released == if g.sealed && g.live == {} then 1 else 0
  {
    InvInRun(run, steps, k);
    var g := run[k].segments[i];
    assert SegmentOk(g);
    assert g.freed == g.granted <==> |g.live| == 0;
  }

  /** Main result: live blocks of a segment do not overlap. */
  lemma BlocksApart(run: seq<State>, steps: seq<Step>, k: nat, i: nat, a: Block, b: Block)
    requires IsRun(run, steps) && k < |run| && i < |run[k].segments|
    requires a in run[k].segments[i].live && b in run[k].segments[i].live && a != b
    ensures Apart(a, b)
  {
    InvInRun(run, steps, k);
    assert SegmentOk(run[k].segments[i]);
  }

  /** Main result: every live block lies inside its segment. */
  lemma BlockInside(run: seq<State>, steps: seq<Step>, k: nat, i: nat, a: Block)
    requires IsRun(run, steps) && k < |run| && i < |run[k].segments| && a in run[k].segments[i].live
    ensures a.offset + a.size <= SEGMENT
  {
    InvInRun(run, steps, k);
    assert SegmentOk(run[k].segments[i]);
  }

  /** Main result: in every state of a run, one more free of a segment leaves the sealed count alone. */
  lemma FreesNeverCarry(run: seq<State>, steps: seq<Step>, k: nat, i: nat)
    requires IsRun(run, steps) && k < |run| && i < |run[k].segments|
    ensures var control := run[k].segments[i].control;
            Allocations(control + 1) == Allocations(control) && Frees(control + 1) == Frees(control) + 1
  {
    InvInRun(run, steps, k);
    var g := run[k].segments[i];
    assert SegmentOk(g);
    Unpack(if g.sealed then g.granted + 1 else 0, if g.sealed then g.freed + 1 else g.freed);
  }

  /** Main result: a request that fits a segment seals at most one: the next reservation succeeds. */
  lemma SealsAtMostOnce(run: seq<State>, steps: seq<Step>, k: nat, t: nat)
    requires IsRun(run, steps) && k < |steps| && steps[k] == Reserve(t) && t < |run[k].threads|
    ensures run[k].threads[t].pc.seals <= 1
    ensures run[k].threads[t].pc.seals == 1 ==> run[k + 1].threads[t].pc.Idle?
  {
    InvInRun(run, steps, k);
    assert ThreadOk(run[k], t, run[k].threads[t]);
  }

  // ---------- Alignment ----------

  lemma PadBounds(x: nat, a: nat) returns (q: nat)
    requires a > 0
    ensures PadTo(x, a) == q * a && x <= PadTo(x, a) < x + a
  {
    q := (x + a - 1) / a;
    var r := (x + a - 1) % a;
    assert x + a - 1 == q * a + r;
  }

  lemma ProductAligned(q: nat, k: nat)
    ensures (q * (k * ALIGNMENT)) % ALIGNMENT == 0
  {
    assert q * (k * ALIGNMENT) == (q * k) * ALIGNMENT;
  }

  /** Aligned addresses less than `alignment` apart are at most `alignment` less one unit apart. */
  lemma AlignedGap(x: nat, start: nat, alignment: nat)
    requires x % ALIGNMENT == 0 && start % ALIGNMENT == 0 && alignment % ALIGNMENT == 0 && start < x + alignment
    ensures start + ALIGNMENT <= x + alignment
  {
    var a, b, c := x / ALIGNMENT, start / ALIGNMENT, alignment / ALIGNMENT;
    assert x == ALIGNMENT * a && start == ALIGNMENT * b && alignment == ALIGNMENT * c;
    assert b < a + c;
  }

  /** Main result: contents aligned inside their block fit, wherever the segment's buffer lies. */
  lemma AlignedFits(address: nat, size: nat, alignment: nat) returns (q: nat)
    requires ALIGNMENT <= alignment && alignment % ALIGNMENT == 0 && (address + HEADER) % ALIGNMENT == 0
    ensures var start := PadTo(address + HEADER, alignment);
            && start == q * alignment && address + HEADER <= start
            && start + size <= address + BlockSize(Aligned(size, alignment))
  {
    var x := address + HEADER;
    q := PadBounds(x, alignment);
    ProductAligned(q, alignment / ALIGNMENT);
    AlignedGap(x, PadTo(x, alignment), alignment);
    var _ := PadBounds(size + HEADER + alignment - ALIGNMENT, ALIGNMENT);
  }

  /** Main result: a plain block has room for the header and the contents, and less than one unit to spare. */
  lemma PlainFits(size: nat)
    ensures HEADER + size <= BlockSize(Plain(size)) < HEADER + size + ALIGNMENT
  {
    var _ := PadBounds(size + HEADER, ALIGNMENT);
  }

  /** The address that the caller is given for a block of a segment whose buffer is at `buffer`. */
  function ContentsAt(buffer: nat, b: Block): nat {
    var x := buffer + b.offset + HEADER;
    if b.request.Plain? then x else PadTo(x, b.request.alignment)
  }

  lemma OnUnit(buffer: nat, offset: nat)
    requires (buffer + HEADER) % ALIGNMENT == 0 && offset % ALIGNMENT == 0
    ensures (buffer + offset + HEADER) % ALIGNMENT == 0
  {
  }

  lemma AlignedContents(buffer: nat, b: Block) returns (q: nat)
    requires BlockOk(b) && (buffer + HEADER) % ALIGNMENT == 0 && b.request.Aligned?
    ensures buffer + b.offset + HEADER <= ContentsAt(buffer, b) == q * b.request.alignment
    ensures ContentsAt(buffer, b) + b.request.size <= buffer + b.offset + b.size
  {
    OnUnit(buffer, b.offset);
    q := AlignedFits(buffer + b.offset, b.request.size, b.request.alignment);
  }

  lemma ContentsFit(buffer: nat, b: Block)
    requires BlockOk(b) && (buffer + HEADER) % ALIGNMENT == 0
    ensures buffer + b.offset + HEADER <= ContentsAt(buffer, b)
    ensures ContentsAt(buffer, b) + b.request.size <= buffer + b.offset + b.size
  {
    if b.request.Plain? {
      PlainFits(b.request.size);
    } else {
      var _ := AlignedContents(buffer, b);
    }
  }

  /**
    Main result: in every interleaving, the header and the contents asked for of a live block lie
    inside the segment's buffer, and clear of those of every other live block.
  */
  lemma ContentsApart(run: seq<State>, steps: seq<Step>, k: nat, i: nat, buffer: nat, a: Block, b: Block)
    requires IsRun(run, steps) && k < |run| && i < |run[k].segments| && (buffer + HEADER) % ALIGNMENT == 0
    requires a in run[k].segments[i].live && b in run[k].segments[i].live
    ensures buffer + HEADER <= ContentsAt(buffer, a) && ContentsAt(buffer, a) + a.request.size <= buffer + SEGMENT
    ensures a != b ==>
              || ContentsAt(buffer, a) + a.request.size <= ContentsAt(buffer, b) - HEADER
              || ContentsAt(buffer, b) + b.request.size <= ContentsAt(buffer, a) - HEADER
  {
    BlockInside(run, steps, k, i, a);
    AskedInRun(run, steps, k);
    assert BlocksOk(run[k].segments[i]);
    ContentsFit(buffer, a);
    ContentsFit(buffer, b);
    if a != b {
      BlocksApart(run, steps, k, i, a, b);
    }
  }

  /** Main result: contents of an aligned request lie at a multiple of the alignment. */
  lemma ContentsAligned(run: seq<State>, steps: seq<Step>, k: nat, i: nat, buffer: nat, a: Block) returns (q: nat)
    requires IsRun(run, steps) && k < |run| && i < |run[k].segments| && (buffer + HEADER) % ALIGNMENT == 0
    requires a in run[k].segments[i].live && a.request.Aligned?
    ensures ContentsAt(buffer, a) == q * a.request.alignment
  {
    AskedInRun(run, steps, k);
    assert BlocksOk(run[k].segments[i]);
    q := AlignedContents(buffer, a);
  }

  /** Main result: a reservation that fits the segment is granted, as one block for the request made. */
  lemma FittingGranted(run: seq<State>, steps: seq<Step>, k: nat, t: nat)
    requires IsRun(run, steps) && k < |steps| && steps[k] == Reserve(t) && t < |run[k].threads|
    requires run[k].threads[t].offset + run[k].threads[t].pc.size <= SEGMENT
    ensures var r := run[k].threads[t].pc.request;
            var b := Block(run[k].threads[t].offset, BlockSize(r), r);
            && run[k + 1].threads[t].pc.Idle? && run[k + 1].threads[t].segment.Some?
            && run[k + 1].threads[t].segment.value < |run[k + 1].segments|
            && b in run[k + 1].segments[run[k + 1].threads[t].segment.value].live
  {
    InvInRun(run, steps, k);
    AskedInRun(run, steps, k);
    assert AskOk(run[k].threads[t]);
    FreshOk(run[k], t);
    assert ThreadOk(WithSegment(run[k], t), t, WithSegment(run[k], t).threads[t]);
  }
}
