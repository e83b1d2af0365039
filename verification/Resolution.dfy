/** From the commands on the wire to commands on buffers: resolving references
    against the binding table, and what the resolved commands may touch. */
module Resolution {
  import opened Memory
  import opened Status
  import opened ResidencySpec
  import opened Commands
  import opened Coherence
  import opened Wire
  import opened Parsing

  /** Length marker for "the rest of the buffer" (IREE_HAL_WHOLE_BUFFER). */
  const WHOLE_BUFFER: nat := U64 - 1

  const UNRESOLVED := Buffer(Unresolved, 0, 0)

  /** Direct references stand for themselves; indirect ones for a part of a
      binding table entry, which must lie inside it. */
  function Resolve(r: BufRef, tab: seq<BindEntry>): Buffer {
    if r.fd != -1 then
      Buffer(Request(r.fd, r.allocSize), r.offset, r.length)
    else if r.slot >= |tab| then
      UNRESOLVED
    else
      var e := tab[r.slot];
      if r.offset > e.length then UNRESOLVED
      else
        var length := if r.length == WHOLE_BUFFER then e.length - r.offset else r.length;
        if length > e.length - r.offset then UNRESOLVED
        else Buffer(Request(e.fd, e.allocSize), e.offset + r.offset, length)
  }

  /** The part of entry `e` that a reference asks for lies inside the entry. */
  predicate Inside(r: BufRef, e: BindEntry) {
    r.offset <= e.length && (r.length == WHOLE_BUFFER || r.offset + r.length <= e.length)
  }

  /** An indirect reference resolves exactly if it names an entry and lies inside
      it; then its first byte is byte `r.offset` of the entry, and "the rest"
      ends where the entry ends. */
  lemma ResolvesIffInside(r: BufRef, tab: seq<BindEntry>)
    requires r.fd == -1 && forall i | 0 <= i < |tab| :: tab[i].length < U64
    ensures Resolve(r, tab).request.Request? <==> r.slot < |tab| && Inside(r, tab[r.slot])
    ensures r.slot < |tab| && Inside(r, tab[r.slot]) ==>
      var (b, e) := (Resolve(r, tab), tab[r.slot]);
      && RequestFd(b) == e.fd && b.offset - e.offset == r.offset
      && b.offset + b.length <= e.offset + e.length
      && (r.length == WHOLE_BUFFER ==> b.offset + b.length == e.offset + e.length)
      && (r.length != WHOLE_BUFFER ==> b.length == r.length)
  {
  }

  function ResolveAll(rs: seq<BufRef>, tab: seq<BindEntry>): seq<Buffer> {
    seq(|rs|, i requires 0 <= i < |rs| => Resolve(rs[i], tab))
  }

  /** A loaded function: its work per workgroup id, and what the compiler
      declared about it. */
  datatype Kernel = Kernel(workgroup: (Grid, WireCommand, seq<Buffer>) -> Work, vtcm: Vtcm, usesHmx: bool)

  type Kernels = nat -> Option<Kernel>

  // ----- workgroups in execution order: z outermost, x innermost -----

  function Row(k: Kernel, x: nat, y: nat, z: nat, w: WireCommand, bufs: seq<Buffer>): seq<Work> {
    seq(x, i requires 0 <= i => k.workgroup(Grid(i, y, z), w, bufs))
  }

  function Plane(k: Kernel, x: nat, y: nat, z: nat, w: WireCommand, bufs: seq<Buffer>): seq<Work> {
    if y == 0 then [] else Plane(k, x, y - 1, z, w, bufs) + Row(k, x, y - 1, z, w, bufs)
  }

  function Workgroups(k: Kernel, x: nat, y: nat, z: nat, w: WireCommand, bufs: seq<Buffer>): seq<Work> {
    if z == 0 then [] else Workgroups(k, x, y, z - 1, w, bufs) + Plane(k, x, y, z - 1, w, bufs)
  }

  /** Every workgroup id of the grid is run exactly once. */
  lemma {:induction false} WorkgroupsCount(k: Kernel, x: nat, y: nat, z: nat, w: WireCommand, bufs: seq<Buffer>)
    ensures |Plane(k, x, y, z, w, bufs)| == y * x
    ensures |Workgroups(k, x, y, z, w, bufs)| == z * (y * x)
    decreases z, y
  {
    if y > 0 {
      PlaneCount(k, x, y, z, w, bufs);
    }
    if z > 0 {
      WorkgroupsCount(k, x, y, z - 1, w, bufs);
      PlaneCount(k, x, y, z - 1, w, bufs);
      assert z * (y * x) == (z - 1) * (y * x) + y * x;
    }
  }

  lemma {:induction false} PlaneCount(k: Kernel, x: nat, y: nat, z: nat, w: WireCommand, bufs: seq<Buffer>)
    ensures |Plane(k, x, y, z, w, bufs)| == y * x
    decreases y
  {
    if y > 0 {
      PlaneCount(k, x, y - 1, z, w, bufs);
      assert y * x == (y - 1) * x + x;
    }
  }

  /** Workgroup (a, b, c) runs after those of earlier planes, rows and columns. */
  lemma {:induction false} WorkgroupAt(k: Kernel, x: nat, y: nat, z: nat, w: WireCommand, bufs: seq<Buffer>, id: Grid)
    requires id.x < x && id.y < y && id.z < z
    ensures var at := id.z * (y * x) + (id.y * x + id.x);
      at < |Workgroups(k, x, y, z, w, bufs)| && Workgroups(k, x, y, z, w, bufs)[at] == k.workgroup(id, w, bufs)
    decreases z
  {
    hide Workgroups, Plane;
    LastPlane(k, x, y, z, w, bufs);
    if id.z < z - 1 {
      WorkgroupAt(k, x, y, z - 1, w, bufs, id);
    } else {
      WorkgroupsCount(k, x, y, z - 1, w, bufs);
      PlaneAt(k, x, y, z - 1, w, bufs, id.x, id.y);
    }
  }

  lemma LastPlane(k: Kernel, x: nat, y: nat, z: nat, w: WireCommand, bufs: seq<Buffer>)
    requires z > 0
    ensures Workgroups(k, x, y, z, w, bufs) == Workgroups(k, x, y, z - 1, w, bufs) + Plane(k, x, y, z - 1, w, bufs)
  {
  }

  lemma {:induction false} PlaneAt(k: Kernel, x: nat, y: nat, z: nat, w: WireCommand, bufs: seq<Buffer>, a: nat, b: nat)
    requires a < x && b < y
    ensures b * x + a < |Plane(k, x, y, z, w, bufs)|
    ensures Plane(k, x, y, z, w, bufs)[b * x + a] == k.workgroup(Grid(a, b, z), w, bufs)
    decreases y
  {
    PlaneCount(k, x, y - 1, z, w, bufs);
    if b < y - 1 {
      PlaneAt(k, x, y - 1, z, w, bufs, a, b);
    }
  }

  lemma {:induction false} WorkgroupOrigin(k: Kernel, x: nat, y: nat, z: nat, w: WireCommand, bufs: seq<Buffer>, g: Work)
    returns (id: Grid)
    requires g in Workgroups(k, x, y, z, w, bufs)
    ensures id.x < x && id.y < y && id.z < z && g == k.workgroup(id, w, bufs)
    decreases z
  {
    if g in Plane(k, x, y, z - 1, w, bufs) {
      id := PlaneOrigin(k, x, y, z - 1, w, bufs, g);
    } else {
      id := WorkgroupOrigin(k, x, y, z - 1, w, bufs, g);
    }
  }

  lemma {:induction false} PlaneOrigin(k: Kernel, x: nat, y: nat, z: nat, w: WireCommand, bufs: seq<Buffer>, g: Work)
    returns (id: Grid)
    requires g in Plane(k, x, y, z, w, bufs)
    ensures id.x < x && id.y < y && id.z == z && g == k.workgroup(id, w, bufs)
    decreases y
  {
    var row := Row(k, x, y - 1, z, w, bufs);
    if g in row {
      var i :| 0 <= i < |row| && row[i] == g;
      id := Grid(i, y - 1, z);
    } else {
      id := PlaneOrigin(k, x, y - 1, z, w, bufs, g);
    }
  }

  // ----- commands -----

  function ResolveCommand(w: WireCommand, tab: seq<BindEntry>, kernels: Kernels): Command {
    match w
    case WDispatch(f, _, count, _, bindings) =>
      (match kernels(f)
       case None => Malformed(BadParm)
       case Some(k) =>
         var bufs := ResolveAll(bindings, tab);
         Dispatch(Workgroups(k, count.x, count.y, count.z, w, bufs), bufs, k.vtcm, k.usesHmx))
    case WBarrier => Barrier
    case WCopy(a, b) => Copy(Resolve(a, tab), Resolve(b, tab))
    case WFill(n, pattern, t) =>
      var b := Resolve(t, tab);
      if b.request.Unresolved? then Malformed(BadItem) else Fill(b, t.length, pattern, n)
  }

  function ResolveCommands(ws: seq<WireCommand>, tab: seq<BindEntry>, kernels: Kernels): (cs: seq<Command>)
    ensures |cs| == |ws|
  {
    seq(|ws|, i requires 0 <= i < |ws| => ResolveCommand(ws[i], tab, kernels))
  }

  predicate InBuffer(b: Buffer, l: Loc) {
    b.request.Request? && InRange(l, RequestFd(b), b.offset, b.length)
  }

  ghost predicate InSome(bufs: seq<Buffer>, l: Loc) {
    exists i :: 0 <= i < |bufs| && InBuffer(bufs[i], l)
  }

  ghost predicate WithinBuffers(c: Command) {
    forall w, l | w in WorksOf(c) && l in w.loads + w.stores :: InSome(BuffersOf(c), l)
  }

  /** The contract of foreign kernels: a workgroup touches only the ranges of its
      bindings. */
  ghost predicate KernelsBehave(kernels: Kernels) {
    forall f, id, w, bufs, l | kernels(f).Some? &&
      (l in kernels(f).value.workgroup(id, w, bufs).loads || l in kernels(f).value.workgroup(id, w, bufs).stores) ::
      InSome(bufs, l)
  }

  lemma CopyStaysWithin(source: Buffer, target: Buffer)
    requires source.request.Unresolved? ==> source.length == 0
    requires target.request.Unresolved? ==> target.length == 0
    ensures WithinBuffers(Copy(source, target))
  {
    var c := Copy(source, target);
    forall w, l | w in WorksOf(c) && l in w.loads + w.stores ensures InSome(BuffersOf(c), l) {
      var i :| 0 <= i < |CopyWorks(source, target)| && CopyWorks(source, target)[i] == w;
      assert BuffersOf(c)[0] == source && BuffersOf(c)[1] == target;
      assert w == CopyByte(Loc(RequestFd(source), source.offset + i), Loc(RequestFd(target), target.offset + i));
      assert InBuffer(BuffersOf(c)[if l in w.loads then 0 else 1], l);
    }
  }

  /** A fill runs over the length on the wire, not the resolved one: it stays
      inside its buffer exactly if it is no longer. */
  lemma FillStaysWithin(b: Buffer, count: nat, pattern: seq<Byte>, n: nat)
    requires b.request.Request?
    ensures WithinBuffers(Fill(b, count, pattern, n)) <==> count <= b.length
  {
    var c := Fill(b, count, pattern, n);
    var ws := FillWorks(b, count, pattern, n);
    if count <= b.length {
      forall w, l | w in WorksOf(c) && l in w.loads + w.stores ensures InSome(BuffersOf(c), l) {
        var i :| 0 <= i < |ws| && ws[i] == w;
        assert InBuffer(BuffersOf(c)[0], l);
      }
    } else {
      var w := ws[b.length];
      var l := Loc(RequestFd(b), b.offset + b.length);
      assert w in ws && w in WorksOf(c) && l in w.loads + w.stores;
      assert BuffersOf(c) == [b] && !InBuffer(b, l);
      assert !InSome(BuffersOf(c), l);
    }
  }

  /** ... and that is so unless the reference is indirect and says "the rest". */
  predicate FillInBounds(t: BufRef, tab: seq<BindEntry>) {
    t.fd != -1 || t.length != WHOLE_BUFFER || t.slot >= |tab| || t.offset > tab[t.slot].length
    || tab[t.slot].length - t.offset >= WHOLE_BUFFER
  }

  lemma FillCommandStaysWithin(n: nat, pattern: seq<Byte>, t: BufRef, tab: seq<BindEntry>, kernels: Kernels)
    ensures WithinBuffers(ResolveCommand(WFill(n, pattern, t), tab, kernels)) <==> FillInBounds(t, tab)
  {
    var b := Resolve(t, tab);
    if b.request.Request? {
      FillStaysWithin(b, t.length, pattern, n);
    }
  }

  /** A fill of "the rest" of an 8-byte entry stores behind the entry. */
  lemma WholeBufferFillEscapes(kernels: Kernels)
    ensures var tab := [BindEntry(5, 0, 8, 16)];
      var c := ResolveCommand(WFill(1, [7, 0, 0, 0], BufRef(0, -1, 0, WHOLE_BUFFER, 0)), tab, kernels);
      c.Fill? && c.destination.length == 8 && !WithinBuffers(c)
  {
    FillCommandStaysWithin(1, [7, 0, 0, 0], BufRef(0, -1, 0, WHOLE_BUFFER, 0), [BindEntry(5, 0, 8, 16)], kernels);
  }

  ghost predicate FillsInBounds(ws: seq<WireCommand>, tab: seq<BindEntry>) {
    forall i | 0 <= i < |ws| && ws[i].WFill? :: FillInBounds(ws[i].destination, tab)
  }

  /** Every resolved command keeps within the buffers it names. */
  lemma CommandStaysWithin(w: WireCommand, tab: seq<BindEntry>, kernels: Kernels)
    requires KernelsBehave(kernels) && (w.WFill? ==> FillInBounds(w.destination, tab))
    ensures WithinBuffers(ResolveCommand(w, tab, kernels))
  {
    match w
    case WDispatch(f, _, count, _, bindings) =>
      if kernels(f).Some? {
        DispatchStaysWithin(w, tab, kernels);
      }
    case WBarrier =>
    case WCopy(a, b) => CopyStaysWithin(Resolve(a, tab), Resolve(b, tab));
    case WFill(n, pattern, t) => FillCommandStaysWithin(n, pattern, t, tab, kernels);
  }

  lemma DispatchStaysWithin(w: WireCommand, tab: seq<BindEntry>, kernels: Kernels)
    requires KernelsBehave(kernels) && w.WDispatch? && kernels(w.function_handle).Some?
    ensures WithinBuffers(ResolveCommand(w, tab, kernels))
  {
    var c := ResolveCommand(w, tab, kernels);
    var k := kernels(w.function_handle).value;
    forall g, l | g in WorksOf(c) && l in g.loads + g.stores ensures InSome(BuffersOf(c), l) {
      var id := WorkgroupOrigin(k, w.count.x, w.count.y, w.count.z, w, c.bindings, g);
    }
  }

  // ----- what is bound -----

  function TableRanges(tab: seq<BindEntry>): seq<Binding> {
    seq(|tab|, i requires 0 <= i < |tab| => Binding(tab[i].fd, tab[i].offset, tab[i].length))
  }

  /** What a resolved reference covers is covered by its binding table entry, or
      by the reference itself if it is direct. */
  lemma ResolvedIsBound(r: BufRef, tab: seq<BindEntry>, l: Loc)
    requires InBuffer(Resolve(r, tab), l)
    requires forall i | 0 <= i < |tab| :: tab[i].fd != -1
    ensures Bound(TableRanges(tab), l) || Covers(RangeOf(r), l)
  {
    if r.fd == -1 {
      assert Covers(TableRanges(tab)[r.slot], l);
    }
  }

  lemma CommandBuffersBound(w: WireCommand, tab: seq<BindEntry>, kernels: Kernels, l: Loc)
    requires InSome(BuffersOf(ResolveCommand(w, tab, kernels)), l)
    requires forall i | 0 <= i < |tab| :: tab[i].fd != -1
    ensures Bound(TableRanges(tab), l) || Bound(RangesOf(CommandRefs(w)), l)
  {
    var bufs := BuffersOf(ResolveCommand(w, tab, kernels));
    var i :| 0 <= i < |bufs| && InBuffer(bufs[i], l);
    var r := CommandRefs(w)[i];
    assert bufs[i] == Resolve(r, tab);
    ResolvedIsBound(r, tab, l);
    assert RangesOf(CommandRefs(w))[i] == RangeOf(r);
  }

  lemma {:induction false} AllRefsContain(ws: seq<WireCommand>, i: nat, l: Loc)
    requires i < |ws| && Bound(RangesOf(CommandRefs(ws[i])), l)
    ensures Bound(RangesOf(AllRefs(ws)), l)
    decreases |ws|
  {
    hide CommandRefs, Covers;
    var front := AllRefs(ws[..|ws| - 1]);
    var last := CommandRefs(ws[|ws| - 1]);
    if i == |ws| - 1 {
      var k :| 0 <= k < |last| && Covers(RangesOf(last)[k], l);
      assert RangesOf(AllRefs(ws))[|front| + k] == RangesOf(last)[k];
    } else {
      AllRefsContain(ws[..|ws| - 1], i, l);
      var k :| 0 <= k < |front| && Covers(RangesOf(front)[k], l);
      assert RangesOf(AllRefs(ws))[k] == RangesOf(front)[k];
    }
  }
}
