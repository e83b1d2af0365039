/** The byte format in which the host hands command buffers and binding tables to
    the DSP: packed little-endian structures. */
module Wire {
  import opened Memory
  import opened Status

  /** A buffer reference: direct if `fd` is not -1, else slot of the binding table. */
  datatype BufRef = BufRef(slot: nat, fd: int, offset: nat, length: nat, allocSize: nat)

  /** A binding table entry. */
  datatype BindEntry = BindEntry(fd: int, offset: nat, length: nat, allocSize: nat)

  datatype Grid = Grid(x: nat, y: nat, z: nat)

  datatype WireCommand =
    | WDispatch(function_handle: nat, size: Grid, count: Grid, constants: seq<nat>, bindings: seq<BufRef>)
    | WBarrier
    | WCopy(source: BufRef, target: BufRef)
    | WFill(patternLength: nat, pattern: seq<Byte>, destination: BufRef)

  const U8: nat := 0x100
  const U16: nat := 0x1_0000
  const U32: nat := 0x1_0000_0000
  const U64: nat := 0x1_0000_0000_0000_0000

  const CMD_DISPATCH: nat := 0
  const CMD_BARRIER: nat := 1
  const CMD_COPY: nat := 2
  const CMD_FILL: nat := 3

  const REF_SIZE: nat := 32
  const BINDING_SIZE: nat := 28
  const DISPATCH_SIZE: nat := 35
  const CONSTANT_SIZE: nat := 4
  const BARRIER_SIZE: nat := 1
  const COPY_SIZE: nat := 65
  const FILL_SIZE: nat := 38
  const HEADER_SIZE: nat := 4

  // ----- little-endian numbers -----

  function Pow256(n: nat): nat {
    if n == 0 then 1 else 256 * Pow256(n - 1)
  }

  /** The low `n` bytes of `v`: storing a wider value truncates it. */
  function Le(v: nat, n: nat): (s: seq<Byte>)
    ensures |s| == n
  {
    if n == 0 then [] else [v % 256] + Le(v / 256, n - 1)
  }

  function FromLe(s: seq<Byte>): nat {
    if s == [] then 0 else s[0] + 256 * FromLe(s[1..])
  }

  lemma {:induction false} LeRoundTrip(v: nat, n: nat)
    requires v < Pow256(n)
    ensures FromLe(Le(v, n)) == v
    decreases n
  {
    if n > 0 {
      LeRoundTrip(v / 256, n - 1);
      assert Le(v, n)[1..] == Le(v / 256, n - 1);
    }
  }

  lemma Widths()
    ensures Pow256(1) == U8 && Pow256(2) == U16 && Pow256(4) == U32 && Pow256(8) == U64
  {
    assert Pow256(3) == 0x100_0000;
    assert Pow256(5) == 0x100_0000_0000;
    assert Pow256(6) == 0x1_0000_0000_0000;
    assert Pow256(7) == 0x100_0000_0000_0000;
  }

  /** A 32-bit file descriptor from its two's complement bits. */
  function FdOfBits(b: nat): int {
    if b >= 0x8000_0000 then b - U32 else b
  }

  // ----- encoding -----

  ghost predicate IsFd(fd: int) {
    -0x8000_0000 <= fd < 0x8000_0000
  }

  ghost predicate RefFits(r: BufRef) {
    IsFd(r.fd) && r.slot < U32 && r.offset < U64 && r.length < U64 && r.allocSize < U64
  }

  ghost predicate EntryFits(e: BindEntry) {
    IsFd(e.fd) && e.offset < U64 && e.length < U64 && e.allocSize < U64
  }

  /** Fields within the widths the format gives them. */
  ghost predicate Fits(w: WireCommand) {
    match w
    case WDispatch(f, size, count, constants, bindings) =>
      && f < U64 && size.x < U32 && size.y < U32 && size.z < U16
      && count.x < U32 && count.y < U32 && count.z < U16
      && |constants| < U16 && |bindings| < U32
      && (forall i | 0 <= i < |constants| :: constants[i] < U32)
      && (forall i | 0 <= i < |bindings| :: RefFits(bindings[i]))
    case WBarrier => true
    case WCopy(s, t) => RefFits(s) && RefFits(t)
    case WFill(n, pattern, t) => n < U8 && |pattern| == 4 && RefFits(t)
  }

  function EncodeFd(fd: int): (s: seq<Byte>)
    ensures |s| == 4
  {
    Le(fd % U32, 4)
  }

  function EncodeRef(r: BufRef): (s: seq<Byte>)
    ensures |s| == REF_SIZE
  {
    Le(r.slot, 4) + EncodeFd(r.fd) + Le(r.offset, 8) + Le(r.length, 8) + Le(r.allocSize, 8)
  }

  function EncodeEntry(e: BindEntry): (s: seq<Byte>)
    ensures |s| == BINDING_SIZE
  {
    EncodeFd(e.fd) + Le(e.offset, 8) + Le(e.length, 8) + Le(e.allocSize, 8)
  }

  function EncodeRefs(rs: seq<BufRef>): (s: seq<Byte>)
    ensures |s| == REF_SIZE * |rs|
  {
    if rs == [] then [] else EncodeRefs(rs[..|rs| - 1]) + EncodeRef(rs[|rs| - 1])
  }

  function EncodeConstants(cs: seq<nat>): (s: seq<Byte>)
    ensures |s| == CONSTANT_SIZE * |cs|
  {
    if cs == [] then [] else EncodeConstants(cs[..|cs| - 1]) + Le(cs[|cs| - 1], 4)
  }

  function EncodeDispatchHeader(f: nat, size: Grid, count: Grid, numConstants: nat, numBindings: nat): (s: seq<Byte>)
    ensures |s| == DISPATCH_SIZE
  {
    Le(CMD_DISPATCH, 1) + Le(f, 8)
    + Le(size.x, 4) + Le(size.y, 4) + Le(size.z, 2)
    + Le(count.x, 4) + Le(count.y, 4) + Le(count.z, 2)
    + Le(numConstants, 2) + Le(numBindings, 4)
  }

  function Encode(w: WireCommand): seq<Byte> {
    match w
    case WDispatch(f, size, count, constants, bindings) =>
      EncodeDispatchHeader(f, size, count, |constants|, |bindings|) + EncodeConstants(constants) + EncodeRefs(bindings)
    case WBarrier => Le(CMD_BARRIER, 1)
    case WCopy(s, t) => Le(CMD_COPY, 1) + EncodeRef(s) + EncodeRef(t)
    case WFill(n, pattern, t) => Le(CMD_FILL, 1) + Le(n, 1) + pattern + EncodeRef(t)
  }

  function Concat(parts: seq<seq<Byte>>): (s: seq<Byte>) {
    if parts == [] then [] else Concat(parts[..|parts| - 1]) + parts[|parts| - 1]
  }

  function EncodeAll(ws: seq<WireCommand>): seq<seq<Byte>> {
    seq(|ws|, i requires 0 <= i < |ws| => Encode(ws[i]))
  }

  function EncodeBuffer(entries: seq<seq<Byte>>): seq<Byte> {
    Le(|entries|, 4) + Concat(entries)
  }

  function EncodeEntries(es: seq<BindEntry>): seq<seq<Byte>> {
    seq(|es|, i requires 0 <= i < |es| => EncodeEntry(es[i]))
  }

  function EncodeTable(es: seq<BindEntry>): seq<Byte> {
    Le(|es|, 4) + Concat(EncodeEntries(es))
  }

  // ----- decoding: fields at fixed offsets, as the packed structures have them -----

  function Field(s: seq<Byte>, at: nat, n: nat): nat
    requires at + n <= |s|
  {
    FromLe(s[at..at + n])
  }

  function DecodeRef(s: seq<Byte>, at: nat): BufRef
    requires at + REF_SIZE <= |s|
  {
    BufRef(Field(s, at, 4), FdOfBits(Field(s, at + 4, 4)), Field(s, at + 8, 8), Field(s, at + 16, 8), Field(s, at + 24, 8))
  }

  function DecodeEntry(s: seq<Byte>, at: nat): BindEntry
    requires at + BINDING_SIZE <= |s|
  {
    BindEntry(FdOfBits(Field(s, at, 4)), Field(s, at + 4, 8), Field(s, at + 12, 8), Field(s, at + 20, 8))
  }

  function DecodeConstants(s: seq<Byte>, at: nat, n: nat): (cs: seq<nat>)
    requires at + CONSTANT_SIZE * n <= |s|
    ensures |cs| == n
  {
    if n == 0 then [] else DecodeConstants(s, at, n - 1) + [Field(s, at + CONSTANT_SIZE * (n - 1), 4)]
  }

  function DecodeRefs(s: seq<Byte>, at: nat, n: nat): (rs: seq<BufRef>)
    requires at + REF_SIZE * n <= |s|
    ensures |rs| == n
  {
    if n == 0 then [] else DecodeRefs(s, at, n - 1) + [DecodeRef(s, at + REF_SIZE * (n - 1))]
  }

  function NumConstants(s: seq<Byte>, at: nat): nat
    requires at + DISPATCH_SIZE <= |s|
  {
    Field(s, at + 29, 2)
  }

  function NumBindings(s: seq<Byte>, at: nat): nat
    requires at + DISPATCH_SIZE <= |s|
  {
    Field(s, at + 31, 4)
  }

  function DispatchBytes(s: seq<Byte>, at: nat): nat
    requires at + DISPATCH_SIZE <= |s|
  {
    DISPATCH_SIZE + CONSTANT_SIZE * NumConstants(s, at) + REF_SIZE * NumBindings(s, at)
  }

  datatype Parsed = Parsed(command: WireCommand, next: nat) | Rejected(status: Status)

  function ParseDispatch(s: seq<Byte>, at: nat): (p: Parsed)
    requires at <= |s|
    ensures p.Parsed? ==> at < p.next <= |s|
    ensures p.Rejected? ==> p.status == IncompleteItem
  {
    if |s| - at < DISPATCH_SIZE || |s| - at < DispatchBytes(s, at) then
      Rejected(IncompleteItem)
    else
      Parsed(DecodeDispatch(s, at), at + DispatchBytes(s, at))
  }

  function DecodeDispatch(s: seq<Byte>, at: nat): WireCommand
    requires at + DISPATCH_SIZE <= |s| && at + DispatchBytes(s, at) <= |s|
  {
    var constantsAt := at + DISPATCH_SIZE;
    var refsAt := constantsAt + CONSTANT_SIZE * NumConstants(s, at);
    WDispatch(Field(s, at + 1, 8),
              Grid(Field(s, at + 9, 4), Field(s, at + 13, 4), Field(s, at + 17, 2)),
              Grid(Field(s, at + 19, 4), Field(s, at + 23, 4), Field(s, at + 27, 2)),
              DecodeConstants(s, constantsAt, NumConstants(s, at)),
              DecodeRefs(s, refsAt, NumBindings(s, at)))
  }

  /** The entry that starts at `at`, and where the next one starts. */
  function ParseEntry(s: seq<Byte>, at: nat): (p: Parsed)
    requires at <= |s|
    ensures p.Parsed? ==> at < p.next <= |s|
    ensures p.Rejected? ==> p.status in {BadItem, IncompleteItem}
  {
    if |s| - at < 1 then Rejected(IncompleteItem)
    else if s[at] == CMD_DISPATCH then
      ParseDispatch(s, at)
    else if s[at] == CMD_BARRIER then
      Parsed(WBarrier, at + BARRIER_SIZE)
    else if s[at] == CMD_COPY then
      if |s| - at < COPY_SIZE then Rejected(IncompleteItem)
      else Parsed(WCopy(DecodeRef(s, at + 1), DecodeRef(s, at + 1 + REF_SIZE)), at + COPY_SIZE)
    else if s[at] == CMD_FILL then
      if |s| - at < FILL_SIZE then Rejected(IncompleteItem)
      else Parsed(WFill(Field(s, at + 1, 1), s[at + 2..at + 6], DecodeRef(s, at + 6)), at + FILL_SIZE)
    else Rejected(BadItem)
  }

  /** The first `n` entries from `at`, with the position behind them. */
  function ParseEntries(s: seq<Byte>, at: nat, n: nat): (Status, seq<WireCommand>, nat)
    requires at <= |s|
  {
    if n == 0 then (Success, [], at)
    else
      var (st, ws, next) := ParseEntries(s, at, n - 1);
      if st != Success || next > |s| then (st, ws, next)
      else match ParseEntry(s, next)
        case Parsed(w, next') => (Success, ws + [w], next')
        case Rejected(e) => (e, ws, next)
  }

  // ----- round trip -----

  /** A number written at `at` reads back. */
  lemma FieldAt(s: seq<Byte>, at: nat, v: nat, n: nat)
    requires v < Pow256(n) && at + n <= |s| && s[at..at + n] == Le(v, n)
    ensures Field(s, at, n) == v
  {
    LeRoundTrip(v, n);
  }

  ghost predicate Holds(s: seq<Byte>, at: nat, part: seq<Byte>) {
    at + |part| <= |s| && s[at..at + |part|] == part
  }

  lemma HoldsSplit(s: seq<Byte>, at: nat, a: seq<Byte>, b: seq<Byte>)
    requires Holds(s, at, a + b)
    ensures Holds(s, at, a) && Holds(s, at + |a|, b)
  {
    assert (a + b)[..|a|] == a && (a + b)[|a|..] == b;
    assert s[at..at + |a|] == s[at..at + |a + b|][..|a|];
    assert s[at + |a|..at + |a| + |b|] == s[at..at + |a + b|][|a|..];
  }

  lemma FdRoundTrip(s: seq<Byte>, at: nat, fd: int)
    requires IsFd(fd) && Holds(s, at, EncodeFd(fd))
    ensures FdOfBits(Field(s, at, 4)) == fd
  {
    Widths();
    FieldAt(s, at, fd % U32, 4);
  }

  lemma RefRoundTrip(s: seq<Byte>, at: nat, r: BufRef)
    requires RefFits(r) && Holds(s, at, EncodeRef(r))
    ensures DecodeRef(s, at) == r
  {
    hide Le, Field, EncodeFd, FdOfBits, Holds;
    Widths();
    var p1 := Le(r.slot, 4);
    var p2 := p1 + EncodeFd(r.fd);
    var p3 := p2 + Le(r.offset, 8);
    var p4 := p3 + Le(r.length, 8);
    HoldsSplit(s, at, p4, Le(r.allocSize, 8));
    HoldsSplit(s, at, p3, Le(r.length, 8));
    HoldsSplit(s, at, p2, Le(r.offset, 8));
    HoldsSplit(s, at, p1, EncodeFd(r.fd));
    NumberAt(s, at, r.slot, 4);
    FdRoundTrip(s, at + 4, r.fd);
    NumberAt(s, at + 8, r.offset, 8);
    NumberAt(s, at + 16, r.length, 8);
    NumberAt(s, at + 24, r.allocSize, 8);
  }

  lemma NumberAt(s: seq<Byte>, at: nat, v: nat, n: nat)
    requires v < Pow256(n) && Holds(s, at, Le(v, n))
    ensures at + n <= |s| && Field(s, at, n) == v
  {
    FieldAt(s, at, v, n);
  }

  lemma EntryRoundTrip(s: seq<Byte>, at: nat, e: BindEntry)
    requires EntryFits(e) && Holds(s, at, EncodeEntry(e))
    ensures DecodeEntry(s, at) == e
  {
    hide Le, Field, EncodeFd, FdOfBits, Holds;
    Widths();
    var p1 := EncodeFd(e.fd);
    var p2 := p1 + Le(e.offset, 8);
    var p3 := p2 + Le(e.length, 8);
    HoldsSplit(s, at, p3, Le(e.allocSize, 8));
    HoldsSplit(s, at, p2, Le(e.length, 8));
    HoldsSplit(s, at, p1, Le(e.offset, 8));
    FdRoundTrip(s, at, e.fd);
    NumberAt(s, at + 4, e.offset, 8);
    NumberAt(s, at + 12, e.length, 8);
    NumberAt(s, at + 20, e.allocSize, 8);
  }

  lemma {:induction false} ConstantsRoundTrip(s: seq<Byte>, at: nat, cs: seq<nat>)
    requires Holds(s, at, EncodeConstants(cs)) && forall i | 0 <= i < |cs| :: cs[i] < U32
    ensures at + CONSTANT_SIZE * |cs| <= |s| && DecodeConstants(s, at, |cs|) == cs
    decreases |cs|
  {
    if cs != [] {
      var last := |cs| - 1;
      Widths();
      HoldsSplit(s, at, EncodeConstants(cs[..last]), Le(cs[last], 4));
      ConstantsRoundTrip(s, at, cs[..last]);
      NumberAt(s, at + CONSTANT_SIZE * last, cs[last], 4);
    }
  }

  lemma {:induction false} RefsRoundTrip(s: seq<Byte>, at: nat, rs: seq<BufRef>)
    requires Holds(s, at, EncodeRefs(rs)) && forall i | 0 <= i < |rs| :: RefFits(rs[i])
    ensures at + REF_SIZE * |rs| <= |s| && DecodeRefs(s, at, |rs|) == rs
    decreases |rs|
  {
    hide EncodeRef, DecodeRef, RefFits;
    if rs != [] {
      var last := |rs| - 1;
      HoldsSplit(s, at, EncodeRefs(rs[..last]), EncodeRef(rs[last]));
      RefsRoundTrip(s, at, rs[..last]);
      RefRoundTrip(s, at + REF_SIZE * last, rs[last]);
    }
  }

  ghost predicate HeaderReads(s: seq<Byte>, at: nat, f: nat, size: Grid, count: Grid, nc: nat, nb: nat) {
    && at + DISPATCH_SIZE <= |s|
    && Field(s, at, 1) == CMD_DISPATCH && Field(s, at + 1, 8) == f
    && Field(s, at + 9, 4) == size.x && Field(s, at + 13, 4) == size.y && Field(s, at + 17, 2) == size.z
    && Field(s, at + 19, 4) == count.x && Field(s, at + 23, 4) == count.y && Field(s, at + 27, 2) == count.z
    && NumConstants(s, at) == nc && NumBindings(s, at) == nb
  }

  lemma HeaderRoundTrip(s: seq<Byte>, at: nat, f: nat, size: Grid, count: Grid, nc: nat, nb: nat)
    requires Holds(s, at, EncodeDispatchHeader(f, size, count, nc, nb))
    requires f < U64 && size.x < U32 && size.y < U32 && size.z < U16
    requires count.x < U32 && count.y < U32 && count.z < U16 && nc < U16 && nb < U32
    ensures HeaderReads(s, at, f, size, count, nc, nb)
  {
    hide Le, Field, Holds;
    Widths();
    var p1 := Le(CMD_DISPATCH, 1);
    var p2 := p1 + Le(f, 8);
    var p3 := p2 + Le(size.x, 4);
    var p4 := p3 + Le(size.y, 4);
    var p5 := p4 + Le(size.z, 2);
    var p6 := p5 + Le(count.x, 4);
    var p7 := p6 + Le(count.y, 4);
    var p8 := p7 + Le(count.z, 2);
    var p9 := p8 + Le(nc, 2);
    HoldsSplit(s, at, p9, Le(nb, 4));
    HoldsSplit(s, at, p8, Le(nc, 2));
    HoldsSplit(s, at, p7, Le(count.z, 2));
    HoldsSplit(s, at, p6, Le(count.y, 4));
    HoldsSplit(s, at, p5, Le(count.x, 4));
    HoldsSplit(s, at, p4, Le(size.z, 2));
    HoldsSplit(s, at, p3, Le(size.y, 4));
    HoldsSplit(s, at, p2, Le(size.x, 4));
    HoldsSplit(s, at, p1, Le(f, 8));
    NumberAt(s, at, CMD_DISPATCH, 1);
    NumberAt(s, at + 1, f, 8);
    NumberAt(s, at + 9, size.x, 4);
    NumberAt(s, at + 13, size.y, 4);
    NumberAt(s, at + 17, size.z, 2);
    NumberAt(s, at + 19, count.x, 4);
    NumberAt(s, at + 23, count.y, 4);
    NumberAt(s, at + 27, count.z, 2);
    NumberAt(s, at + 29, nc, 2);
    NumberAt(s, at + 31, nb, 4);
  }

  lemma ByteField(s: seq<Byte>, at: nat)
    requires at < |s|
    ensures Field(s, at, 1) == s[at]
  {
    var t := s[at..at + 1];
    assert t[1..] == [] && t[0] == s[at];
    assert FromLe(t) == t[0] + 256 * FromLe(t[1..]);
  }

  lemma TypeByte(s: seq<Byte>, at: nat, v: nat, rest: seq<Byte>)
    requires v < U8 && Holds(s, at, Le(v, 1) + rest)
    ensures at < |s| && s[at] == v && Holds(s, at + 1, rest)
  {
    Widths();
    HoldsSplit(s, at, Le(v, 1), rest);
    NumberAt(s, at, v, 1);
    ByteField(s, at);
  }

  lemma DispatchParts(s: seq<Byte>, at: nat, w: WireCommand)
    requires w.WDispatch? && Holds(s, at, Encode(w))
    ensures Holds(s, at, EncodeDispatchHeader(w.function_handle, w.size, w.count, |w.constants|, |w.bindings|))
    ensures Holds(s, at + DISPATCH_SIZE, EncodeConstants(w.constants))
    ensures Holds(s, at + DISPATCH_SIZE + CONSTANT_SIZE * |w.constants|, EncodeRefs(w.bindings))
    ensures |Encode(w)| == DISPATCH_SIZE + CONSTANT_SIZE * |w.constants| + REF_SIZE * |w.bindings|
  {
    var header := EncodeDispatchHeader(w.function_handle, w.size, w.count, |w.constants|, |w.bindings|);
    hide Holds, EncodeDispatchHeader, EncodeConstants, EncodeRefs;
    HoldsSplit(s, at, header + EncodeConstants(w.constants), EncodeRefs(w.bindings));
    HoldsSplit(s, at, header, EncodeConstants(w.constants));
  }

  lemma DispatchReads(s: seq<Byte>, at: nat, w: WireCommand)
    requires w.WDispatch? && Fits(w) && Holds(s, at, Encode(w))
    ensures HeaderReads(s, at, w.function_handle, w.size, w.count, |w.constants|, |w.bindings|)
    ensures at + DispatchBytes(s, at) <= |s| && DispatchBytes(s, at) == |Encode(w)|
    ensures DecodeConstants(s, at + DISPATCH_SIZE, |w.constants|) == w.constants
    ensures DecodeRefs(s, at + DISPATCH_SIZE + CONSTANT_SIZE * |w.constants|, |w.bindings|) == w.bindings
  {
    hide Le, FromLe, Field, Holds, Encode, EncodeDispatchHeader, EncodeConstants, EncodeRefs, DecodeConstants, DecodeRefs,
      RefFits;
    DispatchParts(s, at, w);
    HeaderRoundTrip(s, at, w.function_handle, w.size, w.count, |w.constants|, |w.bindings|);
    ConstantsRoundTrip(s, at + DISPATCH_SIZE, w.constants);
    RefsRoundTrip(s, at + DISPATCH_SIZE + CONSTANT_SIZE * |w.constants|, w.bindings);
  }

  lemma DispatchParses(s: seq<Byte>, at: nat, w: WireCommand)
    requires w.WDispatch? && Fits(w) && Holds(s, at, Encode(w))
    ensures at < |s| && Field(s, at, 1) == CMD_DISPATCH
    ensures ParseDispatch(s, at) == Parsed(w, at + |Encode(w)|)
  {
    hide Le, FromLe, Field, Holds, Encode, DecodeConstants, DecodeRefs, Fits, NumConstants, NumBindings;
    DispatchReads(s, at, w);
  }

  lemma DispatchRoundTrip(s: seq<Byte>, at: nat, w: WireCommand)
    requires w.WDispatch? && Fits(w) && Holds(s, at, Encode(w))
    ensures ParseEntry(s, at) == Parsed(w, at + |Encode(w)|)
  {
    hide Field, Holds, Encode, Fits, ParseDispatch;
    DispatchParses(s, at, w);
    ByteField(s, at);
  }

  lemma CopyRoundTrip(s: seq<Byte>, at: nat, a: BufRef, b: BufRef)
    requires RefFits(a) && RefFits(b) && Holds(s, at, Encode(WCopy(a, b)))
    ensures ParseEntry(s, at) == Parsed(WCopy(a, b), at + COPY_SIZE)
  {
    assert Encode(WCopy(a, b)) == Le(CMD_COPY, 1) + (EncodeRef(a) + EncodeRef(b));
    hide Le, Field, Holds, EncodeRef, DecodeRef;
    TypeByte(s, at, CMD_COPY, EncodeRef(a) + EncodeRef(b));
    HoldsSplit(s, at + 1, EncodeRef(a), EncodeRef(b));
    HoldsLength(s, at + 1 + REF_SIZE, EncodeRef(b));
    RefRoundTrip(s, at + 1, a);
    RefRoundTrip(s, at + 1 + REF_SIZE, b);
  }

  lemma FillParts(s: seq<Byte>, at: nat, n: nat, pattern: seq<Byte>, t: BufRef)
    requires n < U8 && |pattern| == 4 && Holds(s, at, Encode(WFill(n, pattern, t)))
    ensures at + FILL_SIZE <= |s| && s[at] == CMD_FILL && Field(s, at + 1, 1) == n
    ensures s[at + 2..at + 6] == pattern && Holds(s, at + 6, EncodeRef(t))
  {
    hide Le, Field, Holds, EncodeRef;
    var kind := Le(CMD_FILL, 1);
    HoldsSplit(s, at, kind + Le(n, 1) + pattern, EncodeRef(t));
    HoldsSplit(s, at, kind + Le(n, 1), pattern);
    HoldsSplit(s, at, kind, Le(n, 1));
    HoldsLength(s, at + 6, EncodeRef(t));
    HoldsLength(s, at + 2, pattern);
    Widths();
    NumberAt(s, at, CMD_FILL, 1);
    NumberAt(s, at + 1, n, 1);
    ByteField(s, at);
  }

  lemma FillRoundTrip(s: seq<Byte>, at: nat, n: nat, pattern: seq<Byte>, t: BufRef)
    requires n < U8 && |pattern| == 4 && RefFits(t) && Holds(s, at, Encode(WFill(n, pattern, t)))
    ensures ParseEntry(s, at) == Parsed(WFill(n, pattern, t), at + FILL_SIZE)
  {
    FillParts(s, at, n, pattern, t);
    hide Le, Field, Holds, EncodeRef, DecodeRef, Encode;
    RefRoundTrip(s, at + 6, t);
  }

  /** Parsing an encoded command yields the command and the position behind it. */
  lemma CommandRoundTrip(s: seq<Byte>, at: nat, w: WireCommand)
    requires Fits(w) && Holds(s, at, Encode(w))
    ensures ParseEntry(s, at) == Parsed(w, at + |Encode(w)|)
  {
    match w
    case WDispatch(_, _, _, _, _) => DispatchRoundTrip(s, at, w);
    case WBarrier =>
      assert Le(CMD_BARRIER, 1) + [] == Le(CMD_BARRIER, 1);
      TypeByte(s, at, CMD_BARRIER, []);
    case WCopy(a, b) => CopyRoundTrip(s, at, a, b);
    case WFill(n, pattern, t) => FillRoundTrip(s, at, n, pattern, t);
  }

  lemma HoldsLength(s: seq<Byte>, at: nat, part: seq<Byte>)
    requires Holds(s, at, part)
    ensures at + |part| <= |s| && s[at..at + |part|] == part
  {
  }

  ghost predicate AllFit(ws: seq<WireCommand>) {
    forall i | 0 <= i < |ws| :: Fits(ws[i])
  }

  lemma EncodeAllFront(ws: seq<WireCommand>)
    requires ws != []
    ensures EncodeAll(ws)[..|ws| - 1] == EncodeAll(ws[..|ws| - 1])
  {
  }

  lemma ConcatLast(front: seq<WireCommand>, last: WireCommand)
    ensures Concat(EncodeAll(front + [last])) == Concat(EncodeAll(front)) + Encode(last)
  {
    hide Encode;
    assert (front + [last])[..|front|] == front;
    EncodeAllFront(front + [last]);
  }

  lemma ParseNext(s: seq<Byte>, at: nat, n: nat, ws: seq<WireCommand>, next: nat)
    requires at <= |s| && next <= |s| && ParseEntries(s, at, n) == (Success, ws, next)
    requires ParseEntry(s, next).Parsed?
    ensures ParseEntries(s, at, n + 1) ==
      (Success, ws + [ParseEntry(s, next).command], ParseEntry(s, next).next)
  {
    hide ParseEntry;
  }

  lemma EntriesStep(s: seq<Byte>, at: nat, front: seq<WireCommand>, last: WireCommand, next: nat)
    requires at <= |s| && next <= |s| && ParseEntries(s, at, |front|) == (Success, front, next)
    requires Fits(last) && Holds(s, next, Encode(last))
    ensures ParseEntries(s, at, |front| + 1) == (Success, front + [last], next + |Encode(last)|)
  {
    hide Encode, Fits, Holds, ParseEntry, ParseEntries;
    CommandRoundTrip(s, next, last);
    ParseNext(s, at, |front|, front, next);
  }

  lemma SplitLast(ws: seq<WireCommand>) returns (front: seq<WireCommand>, last: WireCommand)
    requires ws != [] && AllFit(ws)
    ensures ws == front + [last] && |front| == |ws| - 1 && AllFit(front) && Fits(last)
  {
    front, last := ws[..|ws| - 1], ws[|ws| - 1];
  }

  lemma NoEntries(s: seq<Byte>, at: nat, ws: seq<WireCommand>)
    requires ws == [] && Holds(s, at, Concat(EncodeAll(ws)))
    ensures at <= |s| && ParseEntries(s, at, |ws|) == (Success, ws, at + |Concat(EncodeAll(ws))|)
  {
  }

  lemma {:induction false} EntriesRoundTrip(s: seq<Byte>, at: nat, ws: seq<WireCommand>)
    requires AllFit(ws) && Holds(s, at, Concat(EncodeAll(ws)))
    ensures at <= |s| && ParseEntries(s, at, |ws|) == (Success, ws, at + |Concat(EncodeAll(ws))|)
    decreases |ws|
  {
    hide Encode, EncodeAll, Concat, Fits, AllFit, Holds, ParseEntry, ParseEntries;
    if ws == [] {
      NoEntries(s, at, ws);
    } else {
      var front, last := SplitLast(ws);
      ConcatLast(front, last);
      HoldsSplit(s, at, Concat(EncodeAll(front)), Encode(last));
      EntriesRoundTrip(s, at, front);
      HoldsLength(s, at + |Concat(EncodeAll(front))|, Encode(last));
      EntriesStep(s, at, front, last, at + |Concat(EncodeAll(front))|);
    }
  }

  /** The DSP reads back exactly the commands the host wrote, in order, and ends
      where the data ends. */
  lemma BufferRoundTrip(ws: seq<WireCommand>)
    requires AllFit(ws) && |ws| < U32
    ensures var s := EncodeBuffer(EncodeAll(ws));
      && Field(s, 0, 4) == |ws|
      && ParseEntries(s, HEADER_SIZE, |ws|) == (Success, ws, |s|)
  {
    var s := EncodeBuffer(EncodeAll(ws));
    Widths();
    assert s[0..|s|] == s;
    assert Holds(s, 0, Le(|ws|, 4) + Concat(EncodeAll(ws)));
    HoldsSplit(s, 0, Le(|ws|, 4), Concat(EncodeAll(ws)));
    NumberAt(s, 0, |ws|, 4);
    EntriesRoundTrip(s, 4, ws);
  }

  function DecodeTable(s: seq<Byte>, n: nat): (es: seq<BindEntry>)
    requires HEADER_SIZE + BINDING_SIZE * n <= |s|
  {
    seq(n, i requires 0 <= i < n => DecodeEntry(s, HEADER_SIZE + BINDING_SIZE * i))
  }

  lemma {:induction false} ConcatEntriesAt(es: seq<BindEntry>, i: nat)
    requires i < |es|
    ensures |Concat(EncodeEntries(es))| == BINDING_SIZE * |es|
    ensures Holds(Concat(EncodeEntries(es)), BINDING_SIZE * i, EncodeEntry(es[i]))
    decreases |es|
  {
    var front := es[..|es| - 1];
    var parts, frontParts := EncodeEntries(es), EncodeEntries(front);
    assert parts[..|es| - 1] == frontParts;
    if |es| > 1 {
      ConcatEntriesAt(front, if i < |front| then i else 0);
    }
    if i < |front| {
      var at := BINDING_SIZE * i;
      assert Concat(parts)[at..at + BINDING_SIZE] == Concat(frontParts)[at..at + BINDING_SIZE];
    }
  }

  lemma TableHeader(es: seq<BindEntry>)
    requires |es| < U32
    ensures var s := EncodeTable(es);
      |s| == HEADER_SIZE + BINDING_SIZE * |es| && Field(s, 0, 4) == |es|
  {
    var s := EncodeTable(es);
    Widths();
    if |es| > 0 {
      ConcatEntriesAt(es, 0);
    }
    assert s[0..4] == Le(|es|, 4);
    FieldAt(s, 0, |es|, 4);
  }

  lemma TableEntry(es: seq<BindEntry>, i: nat)
    requires |es| < U32 && i < |es| && EntryFits(es[i])
    ensures |EncodeTable(es)| == HEADER_SIZE + BINDING_SIZE * |es|
    ensures DecodeEntry(EncodeTable(es), HEADER_SIZE + BINDING_SIZE * i) == es[i]
  {
    var s := EncodeTable(es);
    var body := Concat(EncodeEntries(es));
    ConcatEntriesAt(es, i);
    var at := BINDING_SIZE * i;
    assert s[4 + at..4 + at + BINDING_SIZE] == body[at..at + BINDING_SIZE];
    hide Concat, EncodeEntry, Field, FromLe, FdOfBits;
    EntryRoundTrip(s, 4 + at, es[i]);
  }

  /** The binding table round trip, read by index as the DSP does. */
  lemma TableRoundTrip(es: seq<BindEntry>)
    requires |es| < U32 && forall i | 0 <= i < |es| :: EntryFits(es[i])
    ensures var s := EncodeTable(es);
      && |s| == HEADER_SIZE + BINDING_SIZE * |es|
      && Field(s, 0, 4) == |es|
      && DecodeTable(s, |es|) == es
  {
    TableHeader(es);
    hide EncodeTable, Field, DecodeEntry;
    forall i | 0 <= i < |es| ensures DecodeEntry(EncodeTable(es), HEADER_SIZE + BINDING_SIZE * i) == es[i] {
      TableEntry(es, i);
    }
  }
}
