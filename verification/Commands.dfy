/** The commands of a command buffer after resolving their buffer references,
    and the in-order interpreter that gives them meaning on plain memory. */
module Commands {
  import opened Memory
  import opened Status
  import opened ResidencySpec

  /** A resolved buffer reference: what to map, and the byte range to use. */
  datatype Buffer = Buffer(request: Request, offset: nat, length: nat)

  /** VTCM a dispatch declared, `Everything` if it did not. */
  datatype Vtcm = Everything | Bytes(n: nat)

  datatype Command =
    | Dispatch(workgroups: seq<Work>, bindings: seq<Buffer>, vtcm: Vtcm, usesHmx: bool)
    | Barrier
    | Copy(source: Buffer, target: Buffer)
    | Fill(destination: Buffer, count: nat, pattern: seq<Byte>, patternLength: nat)
    | Malformed(status: Status)  // an entry rejected before any buffer is mapped

  function RequestFd(b: Buffer): int {
    FdOf(b.request)
  }

  function Requests(bufs: seq<Buffer>): seq<Request> {
    seq(|bufs|, i requires 0 <= i < |bufs| => bufs[i].request)
  }

  function CopyByte(from: Loc, to: Loc): Work {
    Work({from}, {to}, (m: Mem) => Outcome(true, if from in m then map[to := m[from]] else map[]))
  }

  function StoreByte(to: Loc, b: Byte): Work {
    Work({}, {to}, (m: Mem) => Outcome(true, map[to := b]))
  }

  function Min(a: nat, b: nat): nat {
    if a < b then a else b
  }

  /** A copy moves the shorter of the two lengths, byte by byte. */
  function CopyWorks(source: Buffer, target: Buffer): seq<Work> {
    seq(Min(target.length, source.length), i requires 0 <= i =>
      CopyByte(Loc(RequestFd(source), source.offset + i), Loc(RequestFd(target), target.offset + i)))
  }

  /** Byte `i` of a repeated pattern. A zero length repeats the first byte. */
  function PatternByte(pattern: seq<Byte>, patternLength: nat, i: nat): Byte {
    var p := if patternLength == 0 then 0 else i % patternLength;
    if p < |pattern| then pattern[p] else 0
  }

  function FillWorks(destination: Buffer, count: nat, pattern: seq<Byte>, patternLength: nat): seq<Work> {
    seq(count, i requires 0 <= i =>
      StoreByte(Loc(RequestFd(destination), destination.offset + i), PatternByte(pattern, patternLength, i)))
  }

  function WorksOf(c: Command): seq<Work> {
    match c
    case Dispatch(ws, _, _, _) => ws
    case Copy(source, target) => CopyWorks(source, target)
    case Fill(destination, count, pattern, n) => FillWorks(destination, count, pattern, n)
    case _ => []
  }

  function BuffersOf(c: Command): seq<Buffer> {
    match c
    case Dispatch(_, bindings, _, _) => bindings
    case Copy(source, target) => [source, target]
    case Fill(destination, _, _, _) => [destination]
    case _ => []
  }

  /** The in-order interpreter: runs the first `n` commands one after the other,
      stopping at the first that fails. */
  function Interpret(cmds: seq<Command>, n: nat, m: Mem): Result
    requires n <= |cmds|
  {
    if n == 0 then
      Result(m, true)
    else
      var before := Interpret(cmds, n - 1, m);
      if before.ok then RunWorks(WorksOf(cmds[n - 1]), before.mem) else before
  }

  ghost predicate NoBarrierBetween(cmds: seq<Command>, i: nat, j: nat) {
    forall b | i < b < j && b < |cmds| :: !cmds[b].Barrier?
  }

  /** Commands not separated by a barrier have non-conflicting footprints. */
  ghost predicate IndependentBetweenBarriers(cmds: seq<Command>) {
    forall i, j | 0 <= i < j < |cmds| && NoBarrierBetween(cmds, i, j) ::
      IndependentSeqs(WorksOf(cmds[i]), WorksOf(cmds[j]))
  }

  ghost predicate TouchesOnly(w: Work, fds: set<int>) {
    forall l | l in w.loads + w.stores :: l.fd in fds
  }

  /** Kernels touch only the allocations of their bindings. */
  ghost predicate Confined(cmds: seq<Command>) {
    forall i, w | 0 <= i < |cmds| && w in WorksOf(cmds[i]) :: TouchesOnly(w, FdSet(BuffersOf(cmds[i])))
  }

  ghost function FdSet(bufs: seq<Buffer>): set<int> {
    set b | b in bufs :: RequestFd(b)
  }

  // ----- what a copy and a fill do to plain memory -----

  predicate InRange(l: Loc, fd: int, offset: nat, length: nat) {
    l.fd == fd && offset <= l.at < offset + length
  }

  lemma {:induction false} RunWorksAppend(ws: seq<Work>, w: Work, m: Mem)
    requires RunWorks(ws, m).ok
    ensures RunWorks(ws + [w], m).mem == Apply(w, RunWorks(ws, m).mem)
    ensures RunWorks(ws + [w], m).ok == Succeeds(w, RunWorks(ws, m).mem)
    decreases |ws|
  {
    if ws == [] {
      assert ws + [w] == [w];
    } else {
      RunWorksAppend(ws[1..], w, Apply(ws[0], m));
      assert (ws + [w])[1..] == ws[1..] + [w];
    }
  }

  ghost predicate SameAt(a: Mem, la: Loc, b: Mem, lb: Loc) {
    (la in a <==> lb in b) && (la in a ==> a[la] == b[lb])
  }

  lemma StoreByteAt(to: Loc, b: Byte, m: Mem, l: Loc)
    ensures Succeeds(StoreByte(to, b), m)
    ensures if l == to then l in Apply(StoreByte(to, b), m) && Apply(StoreByte(to, b), m)[l] == b
            else SameAt(Apply(StoreByte(to, b), m), l, m, l)
  {
  }

  lemma CopyByteAt(from: Loc, to: Loc, m: Mem, l: Loc)
    requires from in m
    ensures Succeeds(CopyByte(from, to), m)
    ensures SameAt(Apply(CopyByte(from, to), m), l, m, if l == to then from else l)
  {
  }

  predicate Overlapping(source: Buffer, target: Buffer, n: nat) {
    && RequestFd(source) == RequestFd(target)
    && source.offset < target.offset + n
    && target.offset < source.offset + n
  }

  /** Between ranges that do not overlap, copying byte by byte puts the source
      bytes into the target range and leaves every other location alone. */
  lemma {:induction false} CopyMoves(source: Buffer, target: Buffer, n: nat, m: Mem, l: Loc)
    requires n <= Min(target.length, source.length) && !Overlapping(source, target, n)
    requires forall k | InRange(k, RequestFd(source), source.offset, n) :: k in m
    ensures RunWorks(CopyWorks(source, target)[..n], m).ok
    ensures SameAt(RunWorks(CopyWorks(source, target)[..n], m).mem, l, m,
                   if InRange(l, RequestFd(target), target.offset, n)
                   then Loc(RequestFd(source), source.offset + (l.at - target.offset)) else l)
    decreases n
  {
    if n > 0 {
      var ws := CopyWorks(source, target);
      var from := Loc(RequestFd(source), source.offset + (n - 1));
      var to := Loc(RequestFd(target), target.offset + (n - 1));
      CopyMoves(source, target, n - 1, m, l);
      CopyMoves(source, target, n - 1, m, from);
      assert InRange(from, RequestFd(source), source.offset, n);
      assert ws[..n] == ws[..n - 1] + [CopyByte(from, to)];
      RunWorksAppend(ws[..n - 1], CopyByte(from, to), m);
      CopyByteAt(from, to, RunWorks(ws[..n - 1], m).mem, l);
    }
  }

  /** A fill writes the repeated pattern into its range and leaves every other
      location alone. */
  lemma {:induction false} FillRepeats(b: Buffer, count: nat, pattern: seq<Byte>, patternLength: nat, n: nat, m: Mem, l: Loc)
    requires n <= count
    ensures var r := RunWorks(FillWorks(b, count, pattern, patternLength)[..n], m);
      && r.ok
      && if InRange(l, RequestFd(b), b.offset, n)
         then l in r.mem && r.mem[l] == PatternByte(pattern, patternLength, l.at - b.offset)
         else SameAt(r.mem, l, m, l)
    decreases n
  {
    if n > 0 {
      var ws := FillWorks(b, count, pattern, patternLength);
      var to := Loc(RequestFd(b), b.offset + (n - 1));
      var w := StoreByte(to, PatternByte(pattern, patternLength, n - 1));
      FillRepeats(b, count, pattern, patternLength, n - 1, m, l);
      assert ws[..n] == ws[..n - 1] + [w];
      RunWorksAppend(ws[..n - 1], w, m);
      StoreByteAt(to, PatternByte(pattern, patternLength, n - 1), RunWorks(ws[..n - 1], m).mem, l);
    }
  }
}
