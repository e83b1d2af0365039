/** Reading an entry while acting on it: the cursor into the serialized commands
    moves with every reference read, an attempt at mapping may stop anywhere in
    between, and the retry starts over from where the entry began. */
module Cursor {
  import opened Memory
  import opened Status
  import opened ResidencySpec
  import opened ResidencyLaws
  import opened Commands
  import opened ScheduleSteps
  import opened Wire
  import opened Parsing
  import opened Resolution

  /** What the bindings of a dispatch ask the residency cache for. */
  function Asked(w: WireCommand, tab: seq<BindEntry>): seq<Request>
    requires w.WDispatch?
  {
    Requests(ResolveAll(w.bindings, tab))
  }

  /** An attempt asks for what the resolved command asks for, so that it does to
      the cache what the scheduler's attempt at the same command does. */
  lemma AskedByCommand(w: WireCommand, tab: seq<BindEntry>, kernels: Kernels)
    requires w.WDispatch? && kernels(w.function_handle).Some?
    ensures ResolveCommand(w, tab, kernels).Dispatch?
    ensures Asked(w, tab) == Requests(ResolveCommand(w, tab, kernels).bindings)
  {
  }

  /** All attempts began at `start`, and all but the last had to wait. */
  ghost predicate Retried(tries: seq<(nat, Status)>, start: nat) {
    && tries != []
    && (forall i | 0 <= i < |tries| :: tries[i].0 == start)
    && (forall i | 0 <= i < |tries| - 1 :: tries[i].1 == WouldBlock)
  }

  /** What is reported for the last attempt: a request to wait is not passed on. */
  function Reported(last: Status): Status {
    if last == WouldBlock then NoMemory else last
  }

  lemma {:induction false} RefAt(s: seq<Byte>, at: nat, n: nat, b: nat)
    requires b < n && at + REF_SIZE * n <= |s|
    ensures DecodeRefs(s, at, n)[b] == DecodeRef(s, at + REF_SIZE * b)
    decreases n
  {
    hide DecodeRef;
    if b < n - 1 {
      RefAt(s, at, n - 1, b);
    }
  }

  /** The next request is that of the reference at the cursor. */
  lemma NextAsked(s: seq<Byte>, at: nat, n: nat, b: nat, tab: seq<BindEntry>)
    requires b < n && at + REF_SIZE * n <= |s|
    ensures var reqs := Requests(ResolveAll(DecodeRefs(s, at, n), tab));
      |reqs| == n && reqs[b] == Resolve(DecodeRef(s, at + REF_SIZE * b), tab).request
  {
    hide DecodeRefs, DecodeRef, Resolve;
    RefAt(s, at, n, b);
  }

  lemma OnePerReference(s: seq<Byte>, at: nat, n: nat, tab: seq<BindEntry>)
    requires at + REF_SIZE * n <= |s|
    ensures |Requests(ResolveAll(DecodeRefs(s, at, n), tab))| == n
  {
  }

  class EntryReader {
    const data: seq<Byte>
    var at: nat
    var cache: Cache

    constructor (data: seq<Byte>, at: nat, cache: Cache)
      ensures this.data == data && this.at == at && this.cache == cache
    {
      this.data, this.at, this.cache := data, at, cache;
    }

    /** Reads the references one by one and maps what each resolves to. Stops
        behind the first that cannot be mapped; `held` are mapped then. */
    method MapRefs(n: nat, tab: seq<BindEntry>, mmap: nat -> Oracle) returns (st: Status, held: nat)
      requires at + REF_SIZE * n <= |data|
      modifies this
      ensures var reqs := Requests(ResolveAll(DecodeRefs(data, old(at), n), tab));
        |reqs| == n && (cache, st, held) == AcquireFirst(old(cache), reqs, n, mmap)
      ensures at == old(at) + REF_SIZE * (if st == Success then n else held + 1)
      ensures st == Success ==> held == n
      ensures st != Success ==> held < n
    {
      hide AcquireFirst, Acquire, Requests, ResolveAll, Resolve, DecodeRefs, DecodeRef;
      ghost var reqs := Requests(ResolveAll(DecodeRefs(data, at, n), tab));
      OnePerReference(data, at, n, tab);
      AcquireFirstNone(cache, reqs, mmap);
      st, held := Success, 0;
      for b := 0 to n
        invariant st == Success && held == b && at == old(at) + REF_SIZE * b
        invariant (cache, Success, b) == AcquireFirst(old(cache), reqs, b, mmap)
      {
        NextAsked(data, old(at), n, b, tab);
        AcquireFirstNext(old(cache), reqs, b, mmap);
        st := MapHere(tab, mmap(b));
        if st != Success {
          AcquireFirstStuck(old(cache), reqs, b + 1, n, mmap);
          return;
        }
        held := b + 1;
      }
    }

    /** Reads one reference and maps what it resolves to. */
    method MapHere(tab: seq<BindEntry>, mmap: Oracle) returns (st: Status)
      requires at + REF_SIZE <= |data|
      modifies this
      ensures at == old(at) + REF_SIZE
      ensures var q := Resolve(DecodeRef(data, old(at)), tab).request;
        if q.Unresolved? then st == BadItem && cache == old(cache)
        else cache == Acquire(old(cache), q.fd, q.size, mmap).cache && st == Acquire(old(cache), q.fd, q.size, mmap).status
    {
      hide Acquire, Resolve, DecodeRef;
      var b := Resolve(DecodeRef(data, at), tab);
      at := at + REF_SIZE;
      if b.request.Unresolved? {
        return BadItem;
      }
      var a := Acquire(cache, b.request.fd, b.request.size, mmap);
      cache := a.cache;
      return a.status;
    }

    method Unmap(fds: seq<int>, n: nat)
      requires n <= |fds|
      modifies this`cache
      ensures cache == ReleaseFirst(old(cache), fds, n)
    {
      for i := 0 to n
        invariant cache == ReleaseFirst(old(cache), fds, i)
      {
        cache := Release(cache, fds[i]);
      }
    }

    /** Prepares the dispatch at the cursor. Success leaves the cursor behind the
        entry; a mapping that fails leaves it somewhere inside, with everything
        mapped before given back. */
    method Prepare(tab: seq<BindEntry>, kernels: Kernels, mmap: nat -> Oracle) returns (st: Status, w: WireCommand)
      requires at <= |data|
      modifies this
      ensures ParseDispatch(data, old(at)).Rejected? ==> st == IncompleteItem && at == old(at) && cache == old(cache)
      ensures ParseDispatch(data, old(at)).Parsed? ==>
        var p := ParseDispatch(data, old(at));
        && p.command.WDispatch? && w == p.command && old(at) < at <= p.next
        && (kernels(w.function_handle).None? ==> st == BadParm && cache == old(cache))
        && (kernels(w.function_handle).Some? ==> Attempted(old(cache), w, tab, mmap, st, cache))
        && (st == Success ==> at == p.next)
    {
      w := WBarrier;
      if |data| - at < DISPATCH_SIZE || |data| - at < DispatchBytes(data, at) {
        return IncompleteItem, w;
      }
      hide Field, DecodeConstants, DecodeRefs, Attempted;
      w := DecodeDispatch(data, at);
      var constants, refs := NumConstants(data, at), NumBindings(data, at);
      at := at + DISPATCH_SIZE;
      if kernels(w.function_handle).None? {
        return BadParm, w;
      }
      at := at + CONSTANT_SIZE * constants;
      st := MapBindings(w, refs, tab, mmap);
    }

    /** Maps the `n` bindings of `w`, whose references are at the cursor, or none. */
    method MapBindings(w: WireCommand, n: nat, tab: seq<BindEntry>, mmap: nat -> Oracle) returns (st: Status)
      requires at + REF_SIZE * n <= |data| && w.WDispatch? && w.bindings == DecodeRefs(data, at, n)
      modifies this
      ensures Attempted(old(cache), w, tab, mmap, st, cache)
      ensures old(at) <= at <= old(at) + REF_SIZE * n
      ensures st == Success ==> at == old(at) + REF_SIZE * n
    {
      hide DecodeRefs, ResolveAll, Requests, AcquireFirst, ReleaseFirst;
      var held;
      st, held := MapRefs(n, tab, mmap);
      if st != Success {
        Unmap(FdsOf(Asked(w, tab)), held);
      }
    }

    /** The outcome of one attempt at mapping: that of acquiring the bindings in
        order; unless all were acquired, those that were are given back. */
    ghost predicate Attempted(before: Cache, w: WireCommand, tab: seq<BindEntry>, mmap: nat -> Oracle, st: Status, after: Cache)
      requires w.WDispatch?
    {
      var reqs := Asked(w, tab);
      var r := AcquireFirst(before, reqs, |reqs|, mmap);
      st == r.1 && after == if st == Success then r.0 else ReleaseFirst(r.0, FdsOf(reqs), r.2)
    }

    /** Prepares the dispatch at the cursor, and again from its beginning while
        its buffers do not fit next to those of `inFlight` dispatches, one of
        which finishes each time; `meanwhile` is what that does to the cache.

        However often it fails, every attempt begins where the entry begins, and
        success ends where the entry ends, with the command of that entry. */
    method PrepareRetrying(tab: seq<BindEntry>, kernels: Kernels, mmap: nat -> nat -> Oracle, inFlight: nat,
                           meanwhile: nat -> Cache -> Cache)
      returns (st: Status, w: WireCommand, ghost tries: seq<(nat, Status)>)
      requires at <= |data|
      modifies this
      ensures Retried(tries, old(at)) && |tries| <= inFlight + 1 && st == Reported(tries[|tries| - 1].1)
      ensures st == Success ==> ParseDispatch(data, old(at)) == Parsed(w, at)
      ensures ParseDispatch(data, old(at)).Rejected? ==> st == IncompleteItem && |tries| == 1
    {
      hide ParseDispatch, AcquireFirst, ReleaseFirst;
      var entry, left := at, inFlight;
      st, w := Prepare(tab, kernels, mmap(0));
      tries := [(entry, st)];
      while st == WouldBlock && left > 0
        invariant |tries| + left == inFlight + 1 && Retried(tries, entry) && tries[|tries| - 1].1 == st
        invariant st == Success ==> ParseDispatch(data, entry) == Parsed(w, at)
        invariant ParseDispatch(data, entry).Rejected? ==> st == IncompleteItem && |tries| == 1
      {
        left := left - 1;
        cache := meanwhile(inFlight - left)(cache);
        at := entry;
        st, w := Prepare(tab, kernels, mmap(inFlight - left));
        tries := tries + [(entry, st)];
      }
      if st == WouldBlock {
        st := NoMemory;
      }
    }

    /** Works through the commands as the walk does, each entry executed as it is
        read. `rest(k)` is what executing command `k` reports once it has been
        read, and `meanwhile` whatever happens to the cache.

        However dispatches are retried, each entry is read from where the parser
        says it begins, and the commands are those of the parser. */
    method WalkEntries(tab: seq<BindEntry>, kernels: Kernels, mmap: nat -> nat -> nat -> Oracle, inFlight: nat -> nat,
                       meanwhile: nat -> nat -> Cache -> Cache, rest: nat -> Status)
      returns (st: Status, ws: seq<WireCommand>, ghost begins: seq<nat>)
      modifies this
      ensures |data| >= HEADER_SIZE ==> Boundaries(ws, begins)
      ensures st == Success ==> ParseBuffer(data) == (Success, ws, at)
    {
      ws, begins := [], [HEADER_SIZE];
      if |data| < HEADER_SIZE {
        return IncompleteItem, [], begins;
      }
      var num := Field(data, 0, 4);
      at := HEADER_SIZE;
      WalkStarts(data);
      assert ws[..0] == [];
      hide Field, ParseBuffer, Walked, ParseEntry, Boundaries;
      for k := 0 to num
        invariant at <= |data| && |ws| == k && Walked(data, k, ws, at) && Boundaries(ws, begins)
      {
        var w;
        ghost var entry := at;
        st, w := ExecuteNext(tab, kernels, mmap(k), inFlight(k), meanwhile(k), rest(k));
        if st != Success {
          return;
        }
        WalkGoesOn(data, k, ws, entry);
        BoundariesGrow(ws, begins, w, at);
        ws, begins := ws + [w], begins + [at];
      }
      WalkEnds(data, ws, at);
      st := Success;
    }

    /** Entry `k` was read from `begins[k]`, which is where parsing the entries
        before it ends. */
    ghost predicate Boundaries(ws: seq<WireCommand>, begins: seq<nat>) {
      |begins| == |ws| + 1 && forall k | 0 <= k <= |ws| :: Walked(data, k, ws[..k], begins[k])
    }

    lemma BoundariesGrow(ws: seq<WireCommand>, begins: seq<nat>, w: WireCommand, next: nat)
      requires Boundaries(ws, begins) && Walked(data, |ws| + 1, ws + [w], next)
      ensures Boundaries(ws + [w], begins + [next])
    {
      hide Walked;
      forall k | 0 <= k <= |ws| + 1 ensures Walked(data, k, (ws + [w])[..k], (begins + [next])[k]) {
        assert (ws + [w])[..k] == if k <= |ws| then ws[..k] else ws + [w];
      }
    }

    method ExecuteNext(tab: seq<BindEntry>, kernels: Kernels, mmap: nat -> nat -> Oracle, inFlight: nat,
                       meanwhile: nat -> Cache -> Cache, rest: Status)
      returns (st: Status, w: WireCommand)
      requires at <= |data|
      modifies this
      ensures st == Success ==> ParseEntry(data, old(at)) == Parsed(w, at) && at <= |data|
    {
      if |data| - at < 1 {
        return IncompleteItem, WBarrier;
      }
      if data[at] == CMD_DISPATCH {
        ghost var tries;
        st, w, tries := PrepareRetrying(tab, kernels, mmap, inFlight, meanwhile);
      } else {
        st, w, at := ExecuteEntry(data, at);
      }
      if st == Success {
        st := rest;
      }
    }
  }
}
