/** The host side: recording commands, serializing each into its entry, and
    concatenating the entries into the buffer sent to the DSP. */
module Recording {
  import opened Memory
  import opened Status
  import opened Wire

  datatype HostStatus = Ok | OutOfRange | Unimplemented | Internal | ResourceExhausted | Unknown | DspError(error: Status)

  /** A normalized buffer reference: a buffer known now, or a binding table slot. */
  datatype HostRef = HostRef(slot: nat, buffer: Option<HostBuffer>, offset: nat, length: nat)

  datatype HostBuffer = HostBuffer(fd: int, allocSize: nat)

  datatype HostCommand =
    | HostDispatch(function_handle: nat, size: Grid, count: Grid, constants: seq<Byte>, bindings: seq<HostRef>,
                   indirectCount: bool, localMemory: bool)
    | HostBarrier
    | HostCopy(source: HostRef, target: HostRef)
    | HostFill(pattern: seq<Byte>, destination: HostRef)

  const INT_MAX: nat := 0x7fff_ffff

  // ----- what each command becomes -----

  function RefOf(r: HostRef): BufRef {
    match r.buffer
    case Some(b) => BufRef(r.slot, b.fd, r.offset, r.length, b.allocSize)
    case None => BufRef(r.slot, -1, r.offset, r.length, 0)
  }

  function RefsOf(rs: seq<HostRef>): seq<BufRef> {
    seq(|rs|, i requires 0 <= i < |rs| => RefOf(rs[i]))
  }

  /** Constants are taken as little-endian 32-bit words. */
  function ConstantsOf(bytes: seq<Byte>, n: nat): (cs: seq<nat>)
    requires CONSTANT_SIZE * n <= |bytes|
    ensures |cs| == n
  {
    if n == 0 then [] else ConstantsOf(bytes, n - 1) + [FromLe(bytes[CONSTANT_SIZE * (n - 1)..CONSTANT_SIZE * n])]
  }

  /** A workgroup size of 0 means the default, which is 1. */
  function OrOne(n: nat): nat {
    if n == 0 then 1 else n
  }

  function ZeroPadded(pattern: seq<Byte>): (p: seq<Byte>)
    requires |pattern| <= 4
    ensures |p| == 4
  {
    pattern + seq(4 - |pattern|, _ => 0)
  }

  /** Why the host refuses a command, in the order of its checks. */
  function Verdict(c: HostCommand): HostStatus {
    match c
    case HostDispatch(_, size, _, constants, _, indirectCount, localMemory) =>
      if |constants| % CONSTANT_SIZE != 0 then Unimplemented
      else if |constants| / CONSTANT_SIZE >= U16 then OutOfRange
      else if size.z >= U16 then OutOfRange
      else if indirectCount || localMemory then Unimplemented
      else Ok
    case HostFill(pattern, _) => if |pattern| == 0 || |pattern| > 4 then OutOfRange else Ok
    case _ => Ok
  }

  /** The command the DSP will see. The z workgroup count is stored in 16 bits
      without a check. */
  function WireOf(c: HostCommand): WireCommand
    requires Verdict(c) == Ok
  {
    match c
    case HostDispatch(f, size, count, constants, bindings, _, _) =>
      WDispatch(f, Grid(OrOne(size.x), OrOne(size.y), OrOne(size.z)), Grid(count.x, count.y, count.z % U16),
                ConstantsOf(constants, |constants| / CONSTANT_SIZE), RefsOf(bindings))
    case HostBarrier => WBarrier
    case HostCopy(s, t) => WCopy(RefOf(s), RefOf(t))
    case HostFill(pattern, t) => WFill(|pattern|, ZeroPadded(pattern), RefOf(t))
  }

  ghost predicate HostRefFits(r: HostRef) {
    && r.slot < U32 && r.offset < U64 && r.length < U64
    && (r.buffer.Some? ==> IsFd(r.buffer.value.fd) && r.buffer.value.allocSize < U64)
  }

  /** What the host's own types guarantee. */
  ghost predicate Typed(c: HostCommand) {
    match c
    case HostDispatch(f, size, count, _, bindings, _, _) =>
      && f < U64 && size.x < U32 && size.y < U32 && size.z < U32
      && count.x < U32 && count.y < U32 && count.z < U32
      && |bindings| < U32 && (forall i | 0 <= i < |bindings| :: HostRefFits(bindings[i]))
    case HostBarrier => true
    case HostCopy(s, t) => HostRefFits(s) && HostRefFits(t)
    case HostFill(_, t) => HostRefFits(t)
  }

  /** The dispatch grid arrives as requested exactly if the z count fits 16 bits. */
  lemma CountArrives(c: HostCommand)
    requires c.HostDispatch? && Typed(c) && Verdict(c) == Ok
    ensures WireOf(c).count == c.count <==> c.count.z < U16
  {
  }

  lemma NarrowedCountIsLost()
    ensures var c := HostDispatch(1, Grid(1, 1, 1), Grid(1, 1, 65536), [], [], false, false);
      Typed(c) && Verdict(c) == Ok && WireOf(c).count.z == 0
  {
  }

  lemma {:induction false} FromLeBound(s: seq<Byte>)
    ensures FromLe(s) < Pow256(|s|)
    decreases |s|
  {
    if s != [] {
      FromLeBound(s[1..]);
    }
  }

  lemma {:induction false} LeFromLe(s: seq<Byte>)
    ensures Le(FromLe(s), |s|) == s
    decreases |s|
  {
    if s != [] {
      LeFromLe(s[1..]);
      assert (s[0] + 256 * FromLe(s[1..])) / 256 == FromLe(s[1..]);
      assert s == [s[0]] + s[1..];
    }
  }

  /** Copying the constant bytes is encoding the constants. */
  lemma {:induction false} ConstantsEncode(bytes: seq<Byte>, n: nat)
    requires CONSTANT_SIZE * n <= |bytes|
    ensures EncodeConstants(ConstantsOf(bytes, n)) == bytes[..CONSTANT_SIZE * n]
    ensures forall i | 0 <= i < n :: ConstantsOf(bytes, n)[i] < U32
    decreases n
  {
    if n > 0 {
      ConstantsEncode(bytes, n - 1);
      var word := bytes[CONSTANT_SIZE * (n - 1)..CONSTANT_SIZE * n];
      LeFromLe(word);
      FromLeBound(word);
      Widths();
      var cs := ConstantsOf(bytes, n);
      assert cs[..n - 1] == ConstantsOf(bytes, n - 1);
      assert bytes[..CONSTANT_SIZE * n] == bytes[..CONSTANT_SIZE * (n - 1)] + word;
    }
  }

  lemma WireFits(c: HostCommand)
    requires Typed(c) && Verdict(c) == Ok
    ensures Fits(WireOf(c))
  {
    if c.HostDispatch? {
      ConstantsEncode(c.constants, |c.constants| / CONSTANT_SIZE);
    }
  }

  // ----- serializing one command -----

  /** Writes `part` at the cursor if it still fits. */
  method Put(buf: array<Byte>, ptr: nat, part: seq<Byte>) returns (ok: bool, next: nat)
    requires ptr <= buf.Length
    modifies buf
    ensures ok <==> ptr + |part| <= buf.Length
    ensures ok ==> next == ptr + |part| && buf[..next] == old(buf[..ptr]) + part
    ensures !ok ==> next == ptr && buf[..] == old(buf[..])
  {
    if ptr + |part| > buf.Length {
      return false, ptr;
    }
    for i := 0 to |part|
      invariant buf[..ptr + i] == old(buf[..ptr]) + part[..i]
    {
      buf[ptr + i] := part[i];
      assert buf[..ptr + i + 1] == buf[..ptr + i] + [part[i]];
    }
    assert part[..|part|] == part;
    return true, ptr + |part|;
  }

  /** Size of the entry a command needs, or why its constants are refused. */
  function PrepSize(c: HostCommand): (r: (HostStatus, nat)) {
    match c
    case HostDispatch(_, _, _, constants, bindings, _, _) =>
      if |constants| % CONSTANT_SIZE != 0 then (Unimplemented, 0)
      else if |constants| / CONSTANT_SIZE >= U16 then (OutOfRange, 0)
      else (Ok, DISPATCH_SIZE + CONSTANT_SIZE * (|constants| / CONSTANT_SIZE) + REF_SIZE * |bindings|)
    case HostBarrier => (Ok, BARRIER_SIZE)
    case HostCopy(_, _) => (Ok, COPY_SIZE)
    case HostFill(pattern, _) => (Ok, FILL_SIZE)
  }

  /** The size computed beforehand is the size of what is written. */
  lemma PrepSizeIsExact(c: HostCommand)
    requires Verdict(c) == Ok
    ensures PrepSize(c) == (Ok, |Encode(WireOf(c))|)
  {
    hide Le, EncodeRef, EncodeRefs, EncodeConstants, EncodeDispatchHeader, ConstantsOf;
  }

  lemma RefsOfFront(rs: seq<HostRef>, n: nat)
    requires n < |rs|
    ensures EncodeRefs(RefsOf(rs)[..n + 1]) == EncodeRefs(RefsOf(rs)[..n]) + EncodeRef(RefOf(rs[n]))
  {
    assert RefsOf(rs)[..n + 1][..n] == RefsOf(rs)[..n];
  }

  /** Appends the binding references, one at a time. */
  method SerializeBindings(bindings: seq<HostRef>, buf: array<Byte>, start: nat) returns (st: HostStatus)
    requires start + REF_SIZE * |bindings| == buf.Length
    modifies buf
    ensures st == Ok && buf[..] == old(buf[..start]) + EncodeRefs(RefsOf(bindings))
  {
    hide EncodeRef;
    var ptr := start;
    var b := 0;
    assert EncodeRefs(RefsOf(bindings)[..0]) == [];
    while b < |bindings|
      invariant b <= |bindings| && ptr == start + REF_SIZE * b
      invariant buf[..ptr] == old(buf[..start]) + EncodeRefs(RefsOf(bindings)[..b])
    {
      RefsOfFront(bindings, b);
      var ok;
      ok, ptr := Put(buf, ptr, EncodeRef(RefOf(bindings[b])));
      if !ok {
        return Internal;
      }
      b := b + 1;
    }
    assert RefsOf(bindings)[..|bindings|] == RefsOf(bindings);
    assert buf[..ptr] == buf[..];
    return Ok;
  }

  /** Serializes a dispatch into a buffer of the size computed for it. */
  method SerializeDispatch(c: HostCommand, buf: array<Byte>) returns (st: HostStatus)
    requires c.HostDispatch? && PrepSize(c).0 == Ok && buf.Length == PrepSize(c).1
    modifies buf
    ensures st == Verdict(c)
    ensures st == Ok ==> buf[..] == Encode(WireOf(c))
  {
    if c.size.z >= U16 {
      return OutOfRange;
    }
    if c.indirectCount {
      return Unimplemented;
    }
    if c.localMemory {
      return Unimplemented;
    }
    hide EncodeDispatchHeader, EncodeRefs, EncodeConstants, FromLe;
    var n := |c.constants| / CONSTANT_SIZE;
    var header := EncodeDispatchHeader(c.function_handle, Grid(OrOne(c.size.x), OrOne(c.size.y), OrOne(c.size.z)),
                                       Grid(c.count.x, c.count.y, c.count.z % U16), n, |c.bindings|);
    var ok, ptr := Put(buf, 0, header);
    assert buf[..ptr] == header;
    ok, ptr := Put(buf, ptr, c.constants[..CONSTANT_SIZE * n]);
    ConstantsEncode(c.constants, n);
    st := SerializeBindings(c.bindings, buf, ptr);
  }

  method SerializeBarrier(buf: array<Byte>) returns (st: HostStatus)
    requires buf.Length == BARRIER_SIZE
    modifies buf
    ensures st == Ok && buf[..] == Encode(WBarrier)
  {
    var ok, ptr := Put(buf, 0, Le(CMD_BARRIER, 1));
    assert buf[..ptr] == buf[..];
    return if ok then Ok else Internal;
  }

  method SerializeCopy(source: HostRef, target: HostRef, buf: array<Byte>) returns (st: HostStatus)
    requires buf.Length == COPY_SIZE
    modifies buf
    ensures st == Ok && buf[..] == Encode(WCopy(RefOf(source), RefOf(target)))
  {
    var ok, ptr := Put(buf, 0, Le(CMD_COPY, 1) + EncodeRef(RefOf(source)) + EncodeRef(RefOf(target)));
    assert buf[..ptr] == buf[..];
    return if ok then Ok else Internal;
  }

  method SerializeFill(pattern: seq<Byte>, target: HostRef, buf: array<Byte>) returns (st: HostStatus)
    requires buf.Length == FILL_SIZE
    modifies buf
    ensures st == if |pattern| > 4 then OutOfRange else Ok
    ensures st == Ok ==> buf[..] == Encode(WFill(|pattern|, ZeroPadded(pattern), RefOf(target)))
  {
    if |pattern| > 4 {
      return OutOfRange;
    }
    var ok, ptr := Put(buf, 0, Le(CMD_FILL, 1) + Le(|pattern|, 1));
    var zeros := seq(4 - |pattern|, _ => 0);
    ok, ptr := Put(buf, ptr, pattern);
    ok, ptr := Put(buf, ptr, zeros);
    ok, ptr := Put(buf, ptr, EncodeRef(RefOf(target)));
    assert buf[..ptr] == buf[..];
    return Ok;
  }

  // ----- the command buffer -----

  lemma ConcatNext(parts: seq<seq<Byte>>, i: nat)
    requires i < |parts|
    ensures Concat(parts[..i + 1]) == Concat(parts[..i]) + parts[i]
    ensures |Concat(parts[..i])| + |parts[i]| <= |Concat(parts)|
  {
    assert parts[..i + 1][..i] == parts[..i];
    ConcatPrefix(parts, i + 1);
  }

  lemma {:induction false} ConcatPrefix(parts: seq<seq<Byte>>, i: nat)
    requires i <= |parts|
    ensures |Concat(parts[..i])| <= |Concat(parts)|
    decreases |parts| - i
  {
    if i < |parts| {
      assert parts[..i + 1][..i] == parts[..i];
      ConcatPrefix(parts, i + 1);
    } else {
      assert parts[..i] == parts;
    }
  }

  /** Writes the number of entries and then the entries one after the other. */
  method Concatenate(parts: seq<seq<Byte>>, buf: array<Byte>)
    requires buf.Length == |EncodeBuffer(parts)|
    modifies buf
    ensures buf[..] == EncodeBuffer(parts)
  {
    assert Concat(parts[..0]) == [] && parts[..|parts|] == parts;
    hide Le, Concat;
    var ok, ptr := Put(buf, 0, Le(|parts|, 4));
    assert buf[..ptr] == Le(|parts|, 4) + Concat(parts[..0]);
    for i := 0 to |parts|
      invariant ptr == HEADER_SIZE + |Concat(parts[..i])| <= buf.Length
      invariant buf[..ptr] == Le(|parts|, 4) + Concat(parts[..i])
    {
      ConcatNext(parts, i);
      ok, ptr := Put(buf, ptr, parts[i]);
    }
    assert buf[..ptr] == buf[..];
  }

  class Recorder {
    /** serialized entries in the order of recording */
    var entries: seq<seq<Byte>>
    /** the commands they stand for */
    ghost var recorded: seq<WireCommand>

    ghost predicate Valid()
      reads this
    {
      entries == EncodeAll(recorded) && AllFit(recorded)
    }

    constructor ()
      ensures Valid() && recorded == []
    {
      entries, recorded := [], [];
    }

    /** Records a command, or refuses it and records nothing. */
    method Record(c: HostCommand) returns (st: HostStatus)
      requires Valid() && Typed(c)
      modifies this
      ensures Valid() && st == Verdict(c)
      ensures recorded == if st == Ok then old(recorded) + [WireOf(c)] else old(recorded)
    {
      if c.HostFill? && (|c.pattern| == 0 || |c.pattern| > 4) {
        return OutOfRange;
      }
      var (prep, size) := PrepSize(c);
      if prep != Ok {
        return prep;
      }
      var buf := new Byte[size](_ => 0);
      match c {
        case HostDispatch(_, _, _, _, _, _, _) => st := SerializeDispatch(c, buf);
        case HostBarrier => st := SerializeBarrier(buf);
        case HostCopy(s, t) => st := SerializeCopy(s, t, buf);
        case HostFill(p, t) => st := SerializeFill(p, t, buf);
      }
      if st == Ok {
        Append(buf[..], WireOf(c), c);
      }
    }

    method Append(entry: seq<Byte>, ghost w: WireCommand, ghost c: HostCommand)
      requires Valid() && Typed(c) && Verdict(c) == Ok && w == WireOf(c) && entry == Encode(w)
      modifies this
      ensures Valid() && recorded == old(recorded) + [w]
    {
      WireFits(c);
      entries := entries + [entry];
      recorded := recorded + [w];
      assert EncodeAll(recorded) == EncodeAll(old(recorded)) + [Encode(w)];
    }

    /** Concatenates all entries and has the DSP create its command buffer from
        them: `memory` tells whether there is shared memory for the data, and
        `create` is the DSP's answer to it. On every failure what was recorded
        stays recorded; only success clears it. */
    method End(memory: bool, create: seq<Byte> -> Status) returns (st: HostStatus)
      requires Valid()
      modifies this
      ensures Valid()
      ensures var data := EncodeBuffer(EncodeAll(old(recorded)));
        st == if |data| > INT_MAX || |old(recorded)| >= U32 then ResourceExhausted
              else if !memory then Unknown
              else if create(data) != Success then DspError(create(data))
              else Ok
      ensures recorded == if st == Ok then [] else old(recorded)
    {
      var size, count := Prep();
      if count >= U32 || size > INT_MAX {
        return ResourceExhausted;
      }
      if !memory {
        return Unknown;
      }
      var data := new Byte[size](_ => 0);
      Concatenate(entries, data);
      var answer := create(data[..]);
      if answer != Success {
        return DspError(answer);
      }
      entries, recorded := [], [];
      return Ok;
    }

    method Prep() returns (size: nat, count: nat)
      requires Valid()
      ensures size == |EncodeBuffer(entries)| && count == |entries|
    {
      size, count := HEADER_SIZE, 0;
      assert entries[..0] == [];
      while count < |entries|
        invariant count <= |entries| && size == HEADER_SIZE + |Concat(entries[..count])|
      {
        ConcatNext(entries, count);
        size := size + |entries[count]|;
        count := count + 1;
      }
      assert entries[..count] == entries;
    }
  }

  // ----- the binding table -----

  lemma TableNext(es: seq<BindEntry>, i: nat)
    requires i < |es|
    ensures Concat(EncodeEntries(es)[..i + 1]) == Concat(EncodeEntries(es)[..i]) + EncodeEntry(es[i])
  {
    hide Concat;
    ConcatNext(EncodeEntries(es), i);
  }

  /** Serializes the binding table of one execution. */
  lemma TableParts(entries: seq<BindEntry>)
    ensures var parts := EncodeEntries(entries);
      |parts| == |entries| && Concat(parts[..0]) == [] && parts[..|entries|] == parts
  {
  }

  method SerializeTable(entries: seq<BindEntry>) returns (st: HostStatus, data: seq<Byte>)
    ensures st == if |entries| >= U32 then ResourceExhausted else Ok
    ensures st == Ok ==> data == EncodeTable(entries)
  {
    hide Le, EncodeEntry, EncodeEntries, Concat;
    data := [];
    if |entries| >= U32 {
      return ResourceExhausted, [];
    }
    ghost var parts := EncodeEntries(entries);
    TableParts(entries);
    var buf := new Byte[HEADER_SIZE + BINDING_SIZE * |entries|](_ => 0);
    var ok, ptr := Put(buf, 0, Le(|entries|, 4));
    assert buf[..ptr] == Le(|entries|, 4) + Concat(parts[..0]);
    for i := 0 to |entries|
      invariant ptr == HEADER_SIZE + BINDING_SIZE * i
      invariant buf[..ptr] == Le(|entries|, 4) + Concat(parts[..i])
    {
      TableNext(entries, i);
      ok, ptr := Put(buf, ptr, EncodeEntry(entries[i]));
    }
    assert buf[..ptr] == buf[..];
    return Ok, buf[..];
  }
}
