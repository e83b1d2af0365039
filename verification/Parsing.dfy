/** The DSP side: two walks over the same serialized commands, one to collect
    buffer references when the command buffer is created and one to execute.
    Both advance a cursor and both are proved to see what `ParseEntries` says. */
module Parsing {
  import opened Memory
  import opened Status
  import opened Wire
  import opened Coherence
  import opened Ranges

  /** All commands of a serialized command buffer, or the error of the walk. */
  function ParseBuffer(s: seq<Byte>): (Status, seq<WireCommand>, nat) {
    if |s| < HEADER_SIZE then (IncompleteItem, [], 0) else ParseEntries(s, HEADER_SIZE, Field(s, 0, 4))
  }

  function CommandRefs(w: WireCommand): seq<BufRef> {
    match w
    case WDispatch(_, _, _, _, bindings) => bindings
    case WBarrier => []
    case WCopy(a, b) => [a, b]
    case WFill(_, _, t) => [t]
  }

  function AllRefs(ws: seq<WireCommand>): seq<BufRef> {
    if ws == [] then [] else AllRefs(ws[..|ws| - 1]) + CommandRefs(ws[|ws| - 1])
  }

  function RangeOf(r: BufRef): Binding {
    Binding(r.fd, r.offset, r.length)
  }

  function RangesOf(rs: seq<BufRef>): seq<Binding> {
    seq(|rs|, i requires 0 <= i < |rs| => RangeOf(rs[i]))
  }

  lemma {:induction false} ParseStays(s: seq<Byte>, at: nat, n: nat)
    requires at <= |s|
    ensures at <= ParseEntries(s, at, n).2 <= |s|
    decreases n
  {
    if n > 0 {
      ParseStays(s, at, n - 1);
    }
  }

  lemma {:induction false} ParseStuck(s: seq<Byte>, at: nat, k: nat, n: nat)
    requires at <= |s| && k <= n && ParseEntries(s, at, k).0 != Success
    ensures ParseEntries(s, at, n) == ParseEntries(s, at, k)
    decreases n - k
  {
    if k < n {
      ParseStuck(s, at, k, n - 1);
    }
  }

  /** After `k` entries the walk has seen `ws` and its cursor is at `cursor`. */
  ghost predicate Walked(s: seq<Byte>, k: nat, ws: seq<WireCommand>, cursor: nat) {
    HEADER_SIZE <= |s| && cursor <= |s| && ParseEntries(s, HEADER_SIZE, k) == (Success, ws, cursor)
  }

  lemma WalkStarts(s: seq<Byte>)
    requires HEADER_SIZE <= |s|
    ensures Walked(s, 0, [], HEADER_SIZE)
  {
  }

  lemma WalkGoesOn(s: seq<Byte>, k: nat, ws: seq<WireCommand>, cursor: nat)
    requires Walked(s, k, ws, cursor) && ParseEntry(s, cursor).Parsed?
    ensures Walked(s, k + 1, ws + [ParseEntry(s, cursor).command], ParseEntry(s, cursor).next)
  {
  }

  lemma WalkStops(s: seq<Byte>, k: nat, ws: seq<WireCommand>, cursor: nat)
    requires Walked(s, k, ws, cursor) && k < Field(s, 0, 4) && ParseEntry(s, cursor).Rejected?
    ensures ParseBuffer(s) == (ParseEntry(s, cursor).status, ws, cursor)
  {
    hide ParseEntry, Field;
    ParseStuck(s, HEADER_SIZE, k + 1, Field(s, 0, 4));
  }

  lemma WalkEnds(s: seq<Byte>, ws: seq<WireCommand>, cursor: nat)
    requires HEADER_SIZE <= |s| && Walked(s, Field(s, 0, 4), ws, cursor)
    ensures ParseBuffer(s) == (Success, ws, cursor)
  {
  }

  // ----- reading one dispatch -----

  /** Reads the constants one by one, checking the remaining size each time. */
  method ReadConstants(s: seq<Byte>, at: nat, n: nat) returns (ok: bool, cs: seq<nat>, next: nat)
    requires at <= |s|
    ensures ok <==> at + CONSTANT_SIZE * n <= |s|
    ensures ok ==> cs == DecodeConstants(s, at, n) && next == at + CONSTANT_SIZE * n
  {
    cs, next := [], at;
    for c := 0 to n
      invariant next == at + CONSTANT_SIZE * c <= |s| && cs == DecodeConstants(s, at, c)
    {
      if |s| - next < CONSTANT_SIZE {
        return false, cs, next;
      }
      cs := cs + [Field(s, next, 4)];
      next := next + CONSTANT_SIZE;
    }
    ok := true;
  }

  method ReadRefs(s: seq<Byte>, at: nat, n: nat) returns (ok: bool, rs: seq<BufRef>, next: nat)
    requires at <= |s|
    ensures ok <==> at + REF_SIZE * n <= |s|
    ensures ok ==> rs == DecodeRefs(s, at, n) && next == at + REF_SIZE * n
  {
    rs, next := [], at;
    for b := 0 to n
      invariant next == at + REF_SIZE * b <= |s| && rs == DecodeRefs(s, at, b)
    {
      if |s| - next < REF_SIZE {
        return false, rs, next;
      }
      rs := rs + [DecodeRef(s, next)];
      next := next + REF_SIZE;
    }
    ok := true;
  }

  /** The collecting walk reads a dispatch piece by piece. */
  method CollectDispatch(s: seq<Byte>, at: nat) returns (st: Status, rs: seq<BufRef>, next: nat)
    requires at <= |s|
    ensures match ParseDispatch(s, at)
      case Parsed(w, n) => st == Success && rs == CommandRefs(w) && next == n
      case Rejected(e) => st == e
  {
    hide Field, DecodeConstants, DecodeRefs;
    rs, next := [], at;
    if |s| - at < DISPATCH_SIZE {
      return IncompleteItem, [], at;
    }
    var ok, cs;
    ok, cs, next := ReadConstants(s, at + DISPATCH_SIZE, NumConstants(s, at));
    if !ok {
      return IncompleteItem, [], at;
    }
    ok, rs, next := ReadRefs(s, next, NumBindings(s, at));
    st := if ok then Success else IncompleteItem;
  }

  /** The executing walk first checks that the whole entry is there, so that
      reading it cannot fail half-way. */
  method PrepareEntry(s: seq<Byte>, at: nat) returns (st: Status, w: WireCommand, next: nat)
    requires at <= |s|
    ensures match ParseDispatch(s, at)
      case Parsed(v, n) => st == Success && w == v && next == n
      case Rejected(e) => st == e && next == at
  {
    hide Field, DecodeConstants, DecodeRefs;
    w, next := WBarrier, at;
    if |s| - at < DISPATCH_SIZE || |s| - at < DispatchBytes(s, at) {
      return IncompleteItem, w, at;
    }
    var ok, cs, rs;
    ok, cs, next := ReadConstants(s, at + DISPATCH_SIZE, NumConstants(s, at));
    ok, rs, next := ReadRefs(s, next, NumBindings(s, at));
    w := WDispatch(Field(s, at + 1, 8),
                   Grid(Field(s, at + 9, 4), Field(s, at + 13, 4), Field(s, at + 17, 2)),
                   Grid(Field(s, at + 19, 4), Field(s, at + 23, 4), Field(s, at + 27, 2)), cs, rs);
    st := Success;
  }

  // ----- the two walks -----

  method CollectEntry(s: seq<Byte>, at: nat) returns (st: Status, rs: seq<BufRef>, next: nat)
    requires at <= |s|
    ensures match ParseEntry(s, at)
      case Parsed(w, n) => st == Success && rs == CommandRefs(w) && next == n
      case Rejected(e) => st == e
  {
    rs, next := [], at;
    if |s| - at < 1 {
      return IncompleteItem, [], at;
    }
    hide Field, DecodeRef, ParseDispatch;
    if s[at] == CMD_DISPATCH {
      st, rs, next := CollectDispatch(s, at);
    } else if s[at] == CMD_BARRIER {
      st, next := Success, at + BARRIER_SIZE;
    } else if s[at] == CMD_COPY {
      if |s| - at < COPY_SIZE {
        return IncompleteItem, [], at;
      }
      st, rs, next := Success, [DecodeRef(s, at + 1), DecodeRef(s, at + 1 + REF_SIZE)], at + COPY_SIZE;
    } else if s[at] == CMD_FILL {
      if |s| - at < FILL_SIZE {
        return IncompleteItem, [], at;
      }
      st, rs, next := Success, [DecodeRef(s, at + 6)], at + FILL_SIZE;
    } else {
      st := BadItem;
    }
  }

  method ExecuteEntry(s: seq<Byte>, at: nat) returns (st: Status, w: WireCommand, next: nat)
    requires at <= |s|
    ensures match ParseEntry(s, at)
      case Parsed(v, n) => st == Success && w == v && next == n
      case Rejected(e) => st == e && next == at
  {
    w, next := WBarrier, at;
    if |s| - at < 1 {
      return IncompleteItem, w, at;
    }
    hide Field, DecodeRef, ParseDispatch;
    if s[at] == CMD_DISPATCH {
      st, w, next := PrepareEntry(s, at);
    } else if s[at] == CMD_BARRIER {
      st, w, next := Success, WBarrier, at + BARRIER_SIZE;
    } else if s[at] == CMD_COPY {
      if |s| - at < COPY_SIZE {
        return IncompleteItem, w, at;
      }
      st, w, next := Success, WCopy(DecodeRef(s, at + 1), DecodeRef(s, at + 1 + REF_SIZE)), at + COPY_SIZE;
    } else if s[at] == CMD_FILL {
      if |s| - at < FILL_SIZE {
        return IncompleteItem, w, at;
      }
      st, w, next := Success, WFill(Field(s, at + 1, 1), s[at + 2..at + 6], DecodeRef(s, at + 6)), at + FILL_SIZE;
    } else {
      st := BadItem;
    }
  }

  lemma AllRefsAppend(ws: seq<WireCommand>, w: WireCommand)
    ensures AllRefs(ws + [w]) == AllRefs(ws) + CommandRefs(w)
  {
  }

  /** Walks the command buffer and collects every buffer reference. */
  method CollectWalk(s: seq<Byte>) returns (st: Status, rs: seq<BufRef>)
    ensures st == ParseBuffer(s).0
    ensures st == Success ==> rs == AllRefs(ParseBuffer(s).1)
  {
    rs := [];
    if |s| < HEADER_SIZE {
      return IncompleteItem, [];
    }
    var num, cursor := Field(s, 0, 4), HEADER_SIZE;
    ghost var ws: seq<WireCommand> := [];
    assert AllRefs(ws) == [];
    WalkStarts(s);
    hide ParseEntry, Field, CommandRefs, AllRefs, ParseBuffer, Walked;
    for k := 0 to num
      invariant 0 <= cursor <= |s| && Walked(s, k, ws, cursor) && rs == AllRefs(ws)
    {
      var more, next;
      st, more, next := CollectEntry(s, cursor);
      if st != Success {
        WalkStops(s, k, ws, cursor);
        return;
      }
      WalkGoesOn(s, k, ws, cursor);
      AllRefsAppend(ws, ParseEntry(s, cursor).command);
      ws := ws + [ParseEntry(s, cursor).command];
      rs, cursor := rs + more, next;
    }
    WalkEnds(s, ws, cursor);
    st := Success;
  }

  /** Walks the command buffer for execution. On the first entry that cannot be
      read the commands before it have been processed. */
  method ExecuteWalk(s: seq<Byte>) returns (st: Status, ws: seq<WireCommand>)
    ensures (st, ws) == (ParseBuffer(s).0, ParseBuffer(s).1)
  {
    ws := [];
    if |s| < HEADER_SIZE {
      return IncompleteItem, [];
    }
    var num, cursor := Field(s, 0, 4), HEADER_SIZE;
    WalkStarts(s);
    hide ParseEntry, Field, ParseBuffer, Walked;
    for k := 0 to num
      invariant 0 <= cursor <= |s| && Walked(s, k, ws, cursor)
    {
      var w, next;
      st, w, next := ExecuteEntry(s, cursor);
      if st != Success {
        WalkStops(s, k, ws, cursor);
        return;
      }
      WalkGoesOn(s, k, ws, cursor);
      ws, cursor := ws + [w], next;
    }
    WalkEnds(s, ws, cursor);
    st := Success;
  }

  /** Creating a command buffer on the DSP: on success the stored ranges cover
      exactly the bytes of all direct references, and the same data will parse
      when it is executed. */
  method CreateCommandBuffer(s: seq<Byte>) returns (st: Status, bufs: array<Binding>, num: nat)
    ensures st == ParseBuffer(s).0
    ensures num <= bufs.Length
    ensures st == Success ==> Separated(bufs[..num])
    ensures st == Success ==> forall l :: Bound(bufs[..num], l) <==> Bound(RangesOf(AllRefs(ParseBuffer(s).1)), l)
  {
    hide ParseBuffer, AllRefs, Bound, Separated;
    var rs;
    st, rs := CollectWalk(s);
    if st != Success {
      bufs := new Binding[0];
      num := 0;
      return;
    }
    bufs, num := CollectDirectBufs(RangesOf(rs));
  }

  /** What the host recorded is what both walks of the DSP see. */
  lemma RecordedIsParsed(ws: seq<WireCommand>)
    requires AllFit(ws) && |ws| < U32
    ensures ParseBuffer(EncodeBuffer(EncodeAll(ws))) == (Success, ws, |EncodeBuffer(EncodeAll(ws))|)
  {
    BufferRoundTrip(ws);
  }
}
