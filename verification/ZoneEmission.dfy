/** Turning profiler records into nested zones of a trace, lane by lane. */
module ZoneEmission {
  import opened Status

  const MAX_ZONES: nat := 0x7FFF
  const MAX_LANES: nat := 16
  const NO_LANE: nat := 0xFF
  const QUERIES: nat := 0x1_0000

  datatype Record = Record(thread: nat, completed: bool, start: int, end: int)

  datatype View = View(index: nat, lane: nat, start: int, end: int)

  /** Opening and closing the zone of view `k`, with its time stamp. */
  datatype Event = Begins(k: nat) | Ends(k: nat)

  // ----- lanes of threads -----

  datatype Lane = Lane(thread: nat, context: nat)

  function LaneOf(table: seq<Lane>, thread: nat): nat {
    if table == [] then NO_LANE
    else if table[0].thread == thread then table[0].context
    else LaneOf(table[1..], thread)
  }

  predicate HasLane(table: seq<Lane>, thread: nat) {
    exists i :: 0 <= i < |table| && table[i].thread == thread
  }

  /** The table after asking for the lane of a thread; `next` answers how the
      next context is numbered. */
  function AskLane(table: seq<Lane>, thread: nat, next: nat -> nat): seq<Lane> {
    if HasLane(table, thread) || |table| >= MAX_LANES then table else table + [Lane(thread, next(|table|))]
  }

  /** Threads appear once. */
  ghost predicate Distinct(table: seq<Lane>) {
    |table| <= MAX_LANES && forall i, j | 0 <= i < j < |table| :: table[i].thread != table[j].thread
  }

  lemma {:induction false} LaneAt(table: seq<Lane>, i: nat)
    requires i < |table| && forall k | 0 <= k < i :: table[k].thread != table[i].thread
    ensures LaneOf(table, table[i].thread) == table[i].context
    decreases |table|
  {
    if i > 0 {
      LaneAt(table[1..], i - 1);
    }
  }

  lemma {:induction false} NoLaneFor(table: seq<Lane>, thread: nat)
    requires !HasLane(table, thread)
    ensures LaneOf(table, thread) == NO_LANE
    decreases |table|
  {
    if table != [] {
      assert table[0].thread != thread;
      forall i | 0 <= i < |table[1..]| ensures table[1..][i].thread != thread {
        assert table[1..][i] == table[i + 1];
      }
      NoLaneFor(table[1..], thread);
    }
  }

  /** A thread keeps its lane: later requests never change it. */
  lemma LanesAreStable(table: seq<Lane>, thread: nat, other: nat, next: nat -> nat)
    requires Distinct(table) && HasLane(table, thread)
    ensures Distinct(AskLane(table, other, next)) && HasLane(AskLane(table, other, next), thread)
    ensures LaneOf(AskLane(table, other, next), thread) == LaneOf(table, thread)
  {
    var i :| 0 <= i < |table| && table[i].thread == thread;
    var later := AskLane(table, other, next);
    assert later[i] == table[i];
    LaneAt(table, i);
    LaneAt(later, i);
  }

  function Paired(threads: seq<nat>, contexts: seq<nat>): seq<Lane>
    requires |threads| == |contexts|
  {
    seq(|threads|, i requires 0 <= i < |threads| => Lane(threads[i], contexts[i]))
  }

  class Lanes {
    const threads: array<nat>
    const contexts: array<nat>
    var count: nat

    ghost predicate Valid()
      reads this, threads, contexts
    {
      threads.Length == MAX_LANES && contexts.Length == MAX_LANES && threads != contexts && count <= MAX_LANES
      && Distinct(Table())
    }

    ghost function Table(): seq<Lane>
      reads this, threads, contexts
      requires threads.Length == MAX_LANES && contexts.Length == MAX_LANES && count <= MAX_LANES
    {
      Paired(threads[..count], contexts[..count])
    }

    constructor ()
      ensures Valid() && Table() == [] && fresh(threads) && fresh(contexts)
    {
      threads, contexts, count := new nat[MAX_LANES], new nat[MAX_LANES], 0;
    }

    /** The lane of a thread, allocated on first use. */
    method Ask(thread: nat, next: nat -> nat) returns (context: nat)
      requires Valid()
      modifies this, threads, contexts
      ensures Valid() && Table() == AskLane(old(Table()), thread, next)
      ensures context == LaneOf(Table(), thread)
    {
      ghost var table := Table();
      for i := 0 to count
        invariant forall k | 0 <= k < i :: threads[k] != thread
        invariant Table() == table && count == |table|
      {
        if threads[i] == thread {
          assert table[i] == Lane(thread, contexts[i]);
          LaneAt(table, i);
          return contexts[i];
        }
      }
      assert !HasLane(table, thread);
      NoLaneFor(table, thread);
      if count >= MAX_LANES {
        return NO_LANE;
      }
      threads[count] := thread;
      contexts[count] := next(count);
      count := count + 1;
      assert Table() == table + [Lane(thread, next(|table|))];
      LaneAt(Table(), count - 1);
      return contexts[count - 1];
    }
  }

  // ----- which records become zones -----

  predicate Usable(r: Record) {
    r.completed && r.end > r.start
  }

  /** The views made of the first `n` records, and the lane table after them. */
  function Collected(rs: seq<Record>, n: nat, limit: nat, table: seq<Lane>, next: nat -> nat): (seq<View>, seq<Lane>)
    requires n <= |rs|
  {
    if n == 0 then ([], table)
    else
      var (vs, t) := Collected(rs, n - 1, limit, table, next);
      var r := rs[n - 1];
      if |vs| >= limit || !Usable(r) then (vs, t)
      else
        var t' := AskLane(t, r.thread, next);
        if LaneOf(t', r.thread) == NO_LANE then (vs, t')
        else (vs + [View(n - 1, LaneOf(t', r.thread), r.start, r.end)], t')
  }

  function Limit(rs: seq<Record>): nat {
    if |rs| > MAX_ZONES then MAX_ZONES else |rs|
  }

  /** Views come from usable records, each at most once and in order. */
  ghost predicate FromRecords(rs: seq<Record>, vs: seq<View>) {
    && (forall i | 0 <= i < |vs| :: vs[i].index < |rs| && Usable(rs[vs[i].index])
                                    && vs[i].start == rs[vs[i].index].start && vs[i].end == rs[vs[i].index].end)
    && (forall i, j | 0 <= i < j < |vs| :: vs[i].index < vs[j].index)
  }

  lemma {:induction false} CollectedFromRecords(rs: seq<Record>, n: nat, limit: nat, table: seq<Lane>, next: nat -> nat)
    requires n <= |rs|
    ensures FromRecords(rs, Collected(rs, n, limit, table, next).0)
    ensures |Collected(rs, n, limit, table, next).0| <= limit
    ensures forall v | v in Collected(rs, n, limit, table, next).0 :: v.index < n
    decreases n
  {
    if n > 0 {
      CollectedFromRecords(rs, n - 1, limit, table, next);
    }
  }

  lemma {:induction false} CollectedStops(rs: seq<Record>, n: nat, m: nat, limit: nat, table: seq<Lane>, next: nat -> nat)
    requires n <= m <= |rs| && |Collected(rs, n, limit, table, next).0| >= limit
    ensures Collected(rs, m, limit, table, next) == Collected(rs, n, limit, table, next)
    decreases m
  {
    if n < m {
      CollectedStops(rs, n, m - 1, limit, table, next);
    }
  }

  method CollectViews(rs: seq<Record>, lanes: Lanes, next: nat -> nat) returns (vs: seq<View>)
    requires lanes.Valid()
    modifies lanes, lanes.threads, lanes.contexts
    ensures lanes.Valid()
    ensures (vs, lanes.Table()) == Collected(rs, |rs|, Limit(rs), old(lanes.Table()), next)
    ensures FromRecords(rs, vs) && |vs| <= MAX_ZONES
  {
    ghost var table := lanes.Table();
    vs := [];
    var i := 0;
    while i < |rs| && |vs| < Limit(rs)
      invariant i <= |rs| && lanes.Valid()
      invariant (vs, lanes.Table()) == Collected(rs, i, Limit(rs), table, next)
    {
      if Usable(rs[i]) {
        var lane := lanes.Ask(rs[i].thread, next);
        if lane != NO_LANE {
          vs := vs + [View(i, lane, rs[i].start, rs[i].end)];
        }
      }
      i := i + 1;
    }
    if i < |rs| {
      CollectedStops(rs, i, |rs|, Limit(rs), table, next);
    }
    CollectedFromRecords(rs, |rs|, Limit(rs), table, next);
  }

  // ----- emitting the zones -----

  /** Order of the comparison function: lane, start, end. */
  predicate InOrder(a: View, b: View) {
    a.lane < b.lane || (a.lane == b.lane && (a.start < b.start || (a.start == b.start && a.end <= b.end)))
  }

  ghost predicate Sorted(vs: seq<View>) {
    forall i, j | 0 <= i < j < |vs| :: InOrder(vs[i], vs[j])
  }

  ghost predicate Positive(vs: seq<View>) {
    forall i | 0 <= i < |vs| :: vs[i].start < vs[i].end
  }

  /** Open zones, innermost last, and what has been emitted. */
  datatype Emission = Emission(open: seq<nat>, log: seq<Event>)

  function Close(e: Emission): Emission
    requires e.open != []
  {
    Emission(e.open[..|e.open| - 1], e.log + [Ends(e.open[|e.open| - 1])])
  }

  predicate StillRunning(vs: seq<View>, k: nat, i: nat) {
    k < |vs| && i < |vs| && vs[k].lane == vs[i].lane && vs[k].end > vs[i].start
  }

  /** Closes zones from the innermost until one still runs when view `i` starts. */
  function CloseFor(vs: seq<View>, e: Emission, i: nat): Emission
    decreases |e.open|
  {
    if e.open == [] || StillRunning(vs, e.open[|e.open| - 1], i) then e else CloseFor(vs, Close(e), i)
  }

  function Open(e: Emission, i: nat): Emission {
    Emission(e.open + [i], e.log + [Begins(i)])
  }

  function CloseAll(e: Emission): Emission
    decreases |e.open|
  {
    if e.open == [] then e else CloseAll(Close(e))
  }

  /** After the first `n` views. */
  function Emitted(vs: seq<View>, n: nat): Emission {
    if n == 0 then Emission([], []) else Open(CloseFor(vs, Emitted(vs, n - 1), n - 1), n - 1)
  }

  lemma EmittedStep(vs: seq<View>, n: nat)
    ensures Emitted(vs, 0) == Emission([], [])
    ensures Emitted(vs, n + 1) == Open(CloseFor(vs, Emitted(vs, n), n), n)
  {
  }

  function Trace(vs: seq<View>): seq<Event> {
    CloseAll(Emitted(vs, |vs|)).log
  }

  /** The loop that closes zones until one still runs when view `i` starts. */
  method CloseEnded(vs: seq<View>, stack: array<nat>, size: nat, log: seq<Event>, i: nat)
    returns (left: nat, more: seq<Event>)
    requires size <= stack.Length
    ensures left <= size
    ensures Emission(stack[..left], more) == CloseFor(vs, Emission(stack[..size], log), i)
  {
    left, more := size, log;
    while left > 0 && !StillRunning(vs, stack[left - 1], i)
      invariant left <= size
      invariant CloseFor(vs, Emission(stack[..left], more), i) == CloseFor(vs, Emission(stack[..size], log), i)
    {
      more := more + [Ends(stack[left - 1])];
      assert stack[..left][..left - 1] == stack[..left - 1];
      left := left - 1;
    }
  }

  /** The emitting loop, with its explicit stack. */
  method Emit(vs: seq<View>) returns (log: seq<Event>)
    ensures log == Trace(vs)
  {
    var stack := new nat[|vs|];
    var size := 0;
    log := [];
    hide CloseFor, CloseAll;
    for i := 0 to |vs|
      invariant size <= i && Emission(stack[..size], log) == Emitted(vs, i)
    {
      size, log := CloseEnded(vs, stack, size, log, i);
      stack[size] := i;
      size := size + 1;
      assert stack[..size] == stack[..size - 1] + [i];
      log := log + [Begins(i)];
    }
    log := CloseRest(stack, size, log);
  }

  method CloseRest(stack: array<nat>, size: nat, log: seq<Event>) returns (more: seq<Event>)
    requires size <= stack.Length
    ensures more == CloseAll(Emission(stack[..size], log)).log
  {
    var left := size;
    more := log;
    while left > 0
      invariant 0 <= left <= size
      invariant CloseAll(Emission(stack[..left], more)) == CloseAll(Emission(stack[..size], log))
    {
      more := more + [Ends(stack[left - 1])];
      assert stack[..left][..left - 1] == stack[..left - 1];
      left := left - 1;
    }
  }

  /** Exporting the records of one run: collect, sort, emit. `sort` is the
      library's sort. */
  method Export(rs: seq<Record>, lanes: Lanes, next: nat -> nat, sort: seq<View> -> seq<View>)
    returns (vs: seq<View>, log: seq<Event>)
    requires lanes.Valid()
    requires forall v :: Sorted(sort(v)) && multiset(sort(v)) == multiset(v)
    modifies lanes, lanes.threads, lanes.contexts
    ensures lanes.Valid() && multiset(vs) == multiset(Collected(rs, |rs|, Limit(rs), old(lanes.Table()), next).0)
    ensures Sorted(vs) && Positive(vs) && |vs| <= MAX_ZONES && log == Trace(vs)
  {
    var views := CollectViews(rs, lanes, next);
    vs := sort(views);
    assert |vs| == |multiset(vs)| == |multiset(views)| == |views|;
    forall i | 0 <= i < |vs| ensures vs[i].start < vs[i].end {
      assert vs[i] in multiset(views);
    }
    log := Emit(vs);
  }

  // ----- every zone once, well bracketed -----

  /** The zones open after a log, if every end closes the innermost open one. */
  function Replay(log: seq<Event>): Option<seq<nat>> {
    if log == [] then Some([])
    else
      var open := Replay(log[..|log| - 1]);
      if open.None? then None
      else match log[|log| - 1]
        case Begins(k) => Some(open.value + [k])
        case Ends(k) =>
          if open.value != [] && open.value[|open.value| - 1] == k then Some(open.value[..|open.value| - 1]) else None
  }

  ghost predicate Rising(open: seq<nat>, n: nat) {
    (forall i | 0 <= i < |open| :: open[i] < n) && forall i, j | 0 <= i < j < |open| :: open[i] < open[j]
  }

  /** No event twice; the first `n` zones have begun, and ended unless open. */
  ghost predicate EachOnce(e: Emission, n: nat) {
    && (forall p, q | 0 <= p < q < |e.log| :: e.log[p] != e.log[q])
    && (forall k: nat :: Begins(k) in e.log <==> k < n)
    && (forall k: nat :: Ends(k) in e.log <==> k < n && k !in e.open)
  }

  ghost predicate Tidy(e: Emission, n: nat) {
    Rising(e.open, n) && EachOnce(e, n) && Replay(e.log) == Some(e.open)
  }

  lemma CloseKeepsTidy(e: Emission, n: nat)
    requires Tidy(e, n) && e.open != []
    ensures Tidy(Close(e), n)
  {
  }

  lemma OpenKeepsTidy(e: Emission, n: nat)
    requires Tidy(e, n)
    ensures Tidy(Open(e, n), n + 1)
  {
  }

  lemma {:induction false} CloseForKeepsTidy(vs: seq<View>, e: Emission, i: nat, n: nat)
    requires Tidy(e, n)
    ensures Tidy(CloseFor(vs, e, i), n)
    decreases |e.open|
  {
    hide Tidy;
    if CloseFor(vs, e, i) != e {
      CloseKeepsTidy(e, n);
      CloseForKeepsTidy(vs, Close(e), i, n);
    }
  }

  lemma NothingIsTidy()
    ensures Tidy(Emission([], []), 0)
  {
  }

  lemma {:induction false} EmittedIsTidy(vs: seq<View>, n: nat)
    ensures Tidy(Emitted(vs, n), n)
    decreases n
  {
    hide Tidy, CloseFor, Open, Emitted;
    EmittedStep(vs, 0);
    if n == 0 {
      NothingIsTidy();
    } else {
      EmittedStep(vs, n - 1);
      EmittedIsTidy(vs, n - 1);
      CloseForKeepsTidy(vs, Emitted(vs, n - 1), n - 1, n - 1);
      OpenKeepsTidy(CloseFor(vs, Emitted(vs, n - 1), n - 1), n - 1);
    }
  }

  lemma {:induction false} CloseAllKeepsTidy(e: Emission, n: nat)
    requires Tidy(e, n)
    ensures Tidy(CloseAll(e), n) && CloseAll(e).open == []
    decreases |e.open|
  {
    if e.open != [] {
      CloseKeepsTidy(e, n);
      hide Tidy;
      CloseAllKeepsTidy(Close(e), n);
    }
  }

  /** The trace is well bracketed, and every zone begins once and ends once. */
  lemma TraceIsWellBracketed(vs: seq<View>)
    ensures Replay(Trace(vs)) == Some([])
    ensures forall p, q | 0 <= p < q < |Trace(vs)| :: Trace(vs)[p] != Trace(vs)[q]
    ensures forall k: nat :: (Begins(k) in Trace(vs) <==> k < |vs|)
    ensures forall k: nat :: (Ends(k) in Trace(vs) <==> k < |vs|)
  {
    EmittedIsTidy(vs, |vs|);
    CloseAllKeepsTidy(Emitted(vs, |vs|), |vs|);
    hide Emitted, CloseAll, Replay;
  }

  // ----- query numbers -----

  /** The query number of an event, stored in 16 bits. */
  function Query(e: Event): nat {
    match e
    case Begins(k) => (2 * k) % QUERIES
    case Ends(k) => (2 * k + 1) % QUERIES
  }

  /** As many zones as are kept never share a query number. */
  lemma QueriesAreDistinct(vs: seq<View>, p: nat, q: nat)
    requires |vs| <= MAX_ZONES && p < q < |Trace(vs)|
    ensures Query(Trace(vs)[p]) != Query(Trace(vs)[q])
  {
    hide Replay, Trace;
    TraceIsWellBracketed(vs);
    assert Trace(vs)[p] != Trace(vs)[q];
    forall e | e in Trace(vs) ensures e.k < |vs| {
      assert e == Begins(e.k) || e == Ends(e.k);
    }
    assert Trace(vs)[p] in Trace(vs) && Trace(vs)[q] in Trace(vs);
  }

  // ----- one lane after the other -----

  ghost predicate Known(vs: seq<View>, log: seq<Event>) {
    forall p | 0 <= p < |log| :: log[p].k < |vs|
  }

  ghost predicate LanesRise(vs: seq<View>, log: seq<Event>)
    requires Known(vs, log)
  {
    forall p, q | 0 <= p < q < |log| :: vs[log[p].k].lane <= vs[log[q].k].lane
  }

  /** All open zones are of lane `lane`, and nothing of a later lane is logged. */
  ghost predicate InLane(vs: seq<View>, e: Emission, lane: nat) {
    && Known(vs, e.log) && LanesRise(vs, e.log)
    && (forall i | 0 <= i < |e.open| :: e.open[i] < |vs| && vs[e.open[i]].lane == lane)
    && (forall p | 0 <= p < |e.log| :: vs[e.log[p].k].lane <= lane)
  }

  lemma {:induction false} CloseForInLane(vs: seq<View>, e: Emission, i: nat, lane: nat)
    requires InLane(vs, e, lane)
    ensures InLane(vs, CloseFor(vs, e, i), lane)
    ensures var o := CloseFor(vs, e, i).open; o == [] || StillRunning(vs, o[|o| - 1], i)
    decreases |e.open|
  {
    if e.open != [] && !StillRunning(vs, e.open[|e.open| - 1], i) {
      CloseForInLane(vs, Close(e), i, lane);
    }
  }

  lemma {:induction false} CloseAllInLane(vs: seq<View>, e: Emission, lane: nat)
    requires InLane(vs, e, lane)
    ensures InLane(vs, CloseAll(e), lane)
    decreases |e.open|
  {
    if e.open != [] {
      CloseAllInLane(vs, Close(e), lane);
    }
  }

  lemma {:induction false} EmittedInLane(vs: seq<View>, n: nat)
    requires Sorted(vs) && n <= |vs|
    ensures n > 0 ==> InLane(vs, Emitted(vs, n), vs[n - 1].lane)
    decreases n
  {
    if n > 0 {
      EmittedInLane(vs, n - 1);
      var e := Emitted(vs, n - 1);
      var c := CloseFor(vs, e, n - 1);
      if n > 1 {
        CloseForInLane(vs, e, n - 1, vs[n - 2].lane);
        assert InOrder(vs[n - 2], vs[n - 1]);
      }
    }
  }

  lemma TraceRises(vs: seq<View>)
    requires Sorted(vs)
    ensures Known(vs, Trace(vs)) && LanesRise(vs, Trace(vs))
  {
    if vs != [] {
      EmittedInLane(vs, |vs|);
      CloseAllInLane(vs, Emitted(vs, |vs|), vs[|vs| - 1].lane);
    }
    hide Emitted, CloseAll, Sorted;
  }

  /** Lanes come one after the other: once an event of a later lane is emitted,
      every zone of the earlier lane has ended. */
  lemma LaneIsClosedFirst(vs: seq<View>, k: nat, q: nat) returns (p: nat)
    requires Sorted(vs) && k < |vs| && q < |Trace(vs)|
    requires Trace(vs)[q].k < |vs| && vs[k].lane < vs[Trace(vs)[q].k].lane
    ensures p < q && Trace(vs)[p] == Ends(k)
  {
    hide Replay, Trace, Sorted;
    TraceIsWellBracketed(vs);
    TraceRises(vs);
    assert Ends(k) in Trace(vs);
    p :| 0 <= p < |Trace(vs)| && Trace(vs)[p] == Ends(k);
  }

  // ----- time stamps -----

  function TimeOf(vs: seq<View>, e: Event): int
    requires e.k < |vs|
  {
    if e.Begins? then vs[e.k].start else vs[e.k].end
  }

  /** Within a lane the emitted time stamps do not go back. */
  ghost predicate TimesRise(vs: seq<View>, log: seq<Event>)
    requires Known(vs, log)
  {
    forall p, q | 0 <= p < q < |log| && vs[log[p].k].lane == vs[log[q].k].lane :: TimeOf(vs, log[p]) <= TimeOf(vs, log[q])
  }

  /** Of two zones of a lane, the later one in the order starts after the
      earlier one or ends no later. */
  ghost predicate Laminar(vs: seq<View>) {
    forall i, j | 0 <= i < j < |vs| && vs[i].lane == vs[j].lane :: vs[i].end <= vs[j].start || vs[j].end <= vs[i].end
  }

  /** Zones of view `i`'s lane that have ended did so before `i` starts. */
  ghost predicate PastEnds(vs: seq<View>, e: Emission, i: nat)
    requires i < |vs| && Known(vs, e.log)
  {
    forall p | 0 <= p < |e.log| && e.log[p].Ends? && vs[e.log[p].k].lane == vs[i].lane :: vs[e.log[p].k].end <= vs[i].start
  }

  ghost predicate OpenKnown(vs: seq<View>, e: Emission) {
    Known(vs, e.log) && forall a | 0 <= a < |e.open| :: e.open[a] < |vs|
  }

  lemma {:induction false} CloseForPastEnds(vs: seq<View>, e: Emission, i: nat)
    requires OpenKnown(vs, e) && i < |vs| && PastEnds(vs, e, i)
    ensures OpenKnown(vs, CloseFor(vs, e, i)) && PastEnds(vs, CloseFor(vs, e, i), i)
    decreases |e.open|
  {
    if e.open != [] && !StillRunning(vs, e.open[|e.open| - 1], i) {
      CloseForPastEnds(vs, Close(e), i);
    }
  }

  lemma TidyIsKnown(vs: seq<View>, e: Emission, n: nat)
    requires Tidy(e, n) && n <= |vs|
    ensures OpenKnown(vs, e)
    ensures forall p | 0 <= p < |e.log| :: e.log[p].k < n
  {
  }

  /** Moving on to the next view keeps the ended zones in the past. */
  lemma {:induction false} EmittedPastEnds(vs: seq<View>, i: nat)
    requires Sorted(vs) && i < |vs|
    ensures OpenKnown(vs, Emitted(vs, i)) && PastEnds(vs, Emitted(vs, i), i)
    decreases i
  {
    hide CloseFor, Tidy, Emitted;
    EmittedStep(vs, 0);
    if i > 0 {
      var c := CloseFor(vs, Emitted(vs, i - 1), i - 1);
      EmittedStep(vs, i - 1);
      EmittedPastEnds(vs, i - 1);
      CloseForPastEnds(vs, Emitted(vs, i - 1), i - 1);
      EmittedIsTidy(vs, i);
      TidyIsKnown(vs, Emitted(vs, i), i);
      forall p | 0 <= p < |c.log| && c.log[p].Ends? && vs[c.log[p].k].lane == vs[i].lane
        ensures vs[c.log[p].k].end <= vs[i].start
      {
        assert Emitted(vs, i).log[p] == c.log[p];
        assert InOrder(vs[c.log[p].k], vs[i - 1]);
        assert InOrder(vs[i - 1], vs[i]);
      }
    }
  }

  // nested or disjoint zones give rising times

  /** Logged times are in order, open zones end from the innermost outwards, and
      none before what its lane has logged. */
  ghost predicate Timely(vs: seq<View>, e: Emission) {
    && OpenKnown(vs, e) && TimesRise(vs, e.log)
    && (forall a, b | 0 <= a < b < |e.open| :: vs[e.open[b]].end <= vs[e.open[a]].end)
    && (forall p, a | 0 <= p < |e.log| && 0 <= a < |e.open| && vs[e.log[p].k].lane == vs[e.open[a]].lane ::
          TimeOf(vs, e.log[p]) <= vs[e.open[a]].end)
  }

  lemma CloseIsTimely(vs: seq<View>, e: Emission)
    requires Timely(vs, e) && e.open != []
    ensures Timely(vs, Close(e))
  {
  }

  lemma {:induction false} CloseForIsTimely(vs: seq<View>, e: Emission, i: nat)
    requires Timely(vs, e)
    ensures Timely(vs, CloseFor(vs, e, i))
    decreases |e.open|
  {
    if CloseFor(vs, e, i) != e {
      CloseIsTimely(vs, e);
      hide Timely;
      CloseForIsTimely(vs, Close(e), i);
    }
  }

  lemma {:induction false} CloseAllIsTimely(vs: seq<View>, e: Emission)
    requires Timely(vs, e)
    ensures Timely(vs, CloseAll(e))
    decreases |e.open|
  {
    if e.open != [] {
      CloseIsTimely(vs, e);
      CloseAllIsTimely(vs, Close(e));
    }
  }

  /** Zones still open when view `n` starts run on, in its lane. */
  ghost predicate Ready(vs: seq<View>, e: Emission, n: nat) {
    && n < |vs| && OpenKnown(vs, e) && PastEnds(vs, e, n)
    && (forall p | 0 <= p < |e.log| :: e.log[p].k < n)
    && (forall a | 0 <= a < |e.open| :: e.open[a] < n && vs[e.open[a]].lane == vs[n].lane)
    && (e.open == [] || vs[e.open[|e.open| - 1]].end > vs[n].start)
  }

  lemma ClosedIsReady(vs: seq<View>, n: nat)
    requires n < |vs| && Sorted(vs)
    ensures Ready(vs, CloseFor(vs, Emitted(vs, n), n), n)
  {
    var e := Emitted(vs, n);
    var c := CloseFor(vs, e, n);
    hide EachOnce, Replay, Sorted, CloseFor, Emitted, LanesRise;
    EmittedStep(vs, n);
    EmittedIsTidy(vs, n);
    EmittedPastEnds(vs, n);
    EmittedInLane(vs, n);
    CloseForKeepsTidy(vs, e, n, n);
    CloseForPastEnds(vs, e, n);
    TidyIsKnown(vs, c, n);
    if n > 0 {
      CloseForInLane(vs, e, n, vs[n - 1].lane);
    }
  }

  lemma OpenSees(vs: seq<View>, e: Emission, n: nat)
    requires Timely(vs, e) && Ready(vs, e, n) && Sorted(vs) && Laminar(vs)
    ensures forall p | 0 <= p < |e.log| && vs[e.log[p].k].lane == vs[n].lane :: TimeOf(vs, e.log[p]) <= vs[n].start
    ensures forall a | 0 <= a < |e.open| :: vs[e.open[a]].end > vs[n].start && vs[n].end <= vs[e.open[a]].end
  {
  }

  lemma OpenIsTimely(vs: seq<View>, e: Emission, n: nat)
    requires Timely(vs, e) && Ready(vs, e, n) && Sorted(vs) && Positive(vs) && Laminar(vs)
    ensures Timely(vs, Open(e, n))
  {
    hide Sorted, Laminar, PastEnds, InOrder;
    OpenSees(vs, e, n);
  }

  lemma NothingIsTimely(vs: seq<View>)
    ensures Timely(vs, Emission([], []))
  {
  }

  lemma {:induction false} EmittedIsTimely(vs: seq<View>, n: nat)
    requires n <= |vs| && Sorted(vs) && Positive(vs) && Laminar(vs)
    ensures Timely(vs, Emitted(vs, n))
    decreases n
  {
    hide Timely, Ready, Sorted, Positive, Laminar, CloseFor, Open, Emitted;
    EmittedStep(vs, 0);
    if n == 0 {
      NothingIsTimely(vs);
    } else {
      EmittedStep(vs, n - 1);
      EmittedIsTimely(vs, n - 1);
      ClosedIsReady(vs, n - 1);
      CloseForIsTimely(vs, Emitted(vs, n - 1), n - 1);
      OpenIsTimely(vs, CloseFor(vs, Emitted(vs, n - 1), n - 1), n - 1);
    }
  }

  // crossing zones end in the wrong order

  predicate Crosses(vs: seq<View>, i: nat, j: nat) {
    i < j < |vs| && vs[i].lane == vs[j].lane && vs[i].end > vs[j].start
  }

  ghost predicate EndsBefore(log: seq<Event>, j: nat, i: nat) {
    exists p, q :: 0 <= p < q < |log| && log[p] == Ends(j) && log[q] == Ends(i)
  }

  /** A zone that starts while another runs ends before it. */
  ghost predicate LastOutFirst(vs: seq<View>, e: Emission, n: nat) {
    forall i, j: nat | Crosses(vs, i, j) && j < n && Ends(i) in e.log :: EndsBefore(e.log, j, i)
  }

  lemma EndsBeforeAppend(log: seq<Event>, e: Event, j: nat, i: nat)
    requires EndsBefore(log, j, i)
    ensures EndsBefore(log + [e], j, i)
  {
    var p, q :| 0 <= p < q < |log| && log[p] == Ends(j) && log[q] == Ends(i);
    assert (log + [e])[p] == Ends(j) && (log + [e])[q] == Ends(i);
  }

  lemma CloseKeepsLastOut(vs: seq<View>, e: Emission, n: nat)
    requires LastOutFirst(vs, e, n) && Tidy(e, n) && e.open != []
    ensures LastOutFirst(vs, Close(e), n)
  {
    var top := e.open[|e.open| - 1];
    var log := Close(e).log;
    hide Replay;
    forall i, j: nat | Crosses(vs, i, j) && j < n && Ends(i) in log ensures EndsBefore(log, j, i) {
      if Ends(i) in e.log {
        EndsBeforeAppend(e.log, Ends(top), j, i);
      } else {
        assert i == top;
        assert Ends(j) in e.log;
        var p :| 0 <= p < |e.log| && e.log[p] == Ends(j);
        assert log[p] == Ends(j) && log[|e.log|] == Ends(i);
      }
    }
  }

  lemma {:induction false} CloseForKeepsLastOut(vs: seq<View>, e: Emission, i: nat, n: nat)
    requires LastOutFirst(vs, e, n) && Tidy(e, n)
    ensures LastOutFirst(vs, CloseFor(vs, e, i), n)
    decreases |e.open|
  {
    if CloseFor(vs, e, i) != e {
      hide LastOutFirst, Tidy;
      CloseKeepsLastOut(vs, e, n);
      CloseKeepsTidy(e, n);
      CloseForKeepsLastOut(vs, Close(e), i, n);
    }
  }

  lemma {:induction false} CloseAllKeepsLastOut(vs: seq<View>, e: Emission, n: nat)
    requires LastOutFirst(vs, e, n) && Tidy(e, n)
    ensures LastOutFirst(vs, CloseAll(e), n)
    decreases |e.open|
  {
    if e.open != [] {
      hide LastOutFirst, Tidy;
      CloseKeepsLastOut(vs, e, n);
      CloseKeepsTidy(e, n);
      CloseAllKeepsLastOut(vs, Close(e), n);
    }
  }

  lemma OpenKeepsLastOut(vs: seq<View>, e: Emission, n: nat)
    requires LastOutFirst(vs, e, n) && n < |vs| && Known(vs, e.log) && PastEnds(vs, e, n)
    ensures LastOutFirst(vs, Open(e, n), n + 1)
  {
    forall i: nat | Ends(i) in e.log ensures !Crosses(vs, i, n) {
      var p :| 0 <= p < |e.log| && e.log[p] == Ends(i);
    }
    forall i, j: nat | Crosses(vs, i, j) && j < n + 1 && Ends(i) in Open(e, n).log ensures EndsBefore(Open(e, n).log, j, i) {
      assert Ends(i) in e.log;
      EndsBeforeAppend(e.log, Begins(n), j, i);
    }
  }

  lemma NothingLastOut(vs: seq<View>)
    ensures LastOutFirst(vs, Emission([], []), 0)
  {
  }

  lemma {:induction false} EmittedLastOut(vs: seq<View>, n: nat)
    requires n <= |vs| && Sorted(vs)
    ensures LastOutFirst(vs, Emitted(vs, n), n)
    decreases n
  {
    hide LastOutFirst, Tidy, Sorted, CloseFor, Open, PastEnds, Known, OpenKnown, Emitted;
    EmittedStep(vs, 0);
    if n == 0 {
      NothingLastOut(vs);
    } else {
      EmittedStep(vs, n - 1);
      EmittedLastOut(vs, n - 1);
      EmittedIsTidy(vs, n - 1);
      ClosedIsReady(vs, n - 1);
      CloseForKeepsLastOut(vs, Emitted(vs, n - 1), n - 1, n - 1);
      OpenKeepsLastOut(vs, CloseFor(vs, Emitted(vs, n - 1), n - 1), n - 1);
    }
  }

  /** The emitted time stamps rise within every lane if and only if the zones
      of each lane are laminar. */
  lemma TimesRiseIffLaminar(vs: seq<View>)
    requires Sorted(vs) && Positive(vs)
    ensures Known(vs, Trace(vs))
    ensures TimesRise(vs, Trace(vs)) <==> Laminar(vs)
  {
    TraceIsWellBracketed(vs);
    TraceRises(vs);
    if Laminar(vs) {
      EmittedIsTimely(vs, |vs|);
      CloseAllIsTimely(vs, Emitted(vs, |vs|));
    }
    if TimesRise(vs, Trace(vs)) {
      RisingIsLaminar(vs);
    }
  }

  lemma RisingIsLaminar(vs: seq<View>)
    requires Sorted(vs) && Known(vs, Trace(vs)) && TimesRise(vs, Trace(vs))
    ensures Laminar(vs)
  {
    EmittedLastOut(vs, |vs|);
    EmittedIsTidy(vs, |vs|);
    CloseAllKeepsLastOut(vs, Emitted(vs, |vs|), |vs|);
    TraceIsWellBracketed(vs);
    var log := Trace(vs);
    assert LastOutFirst(vs, CloseAll(Emitted(vs, |vs|)), |vs|);
    hide Tidy, Replay, Emitted, CloseAll, Sorted;
    forall i, j | 0 <= i < j < |vs| && vs[i].lane == vs[j].lane
      ensures vs[i].end <= vs[j].start || vs[j].end <= vs[i].end
    {
      if vs[i].end > vs[j].start {
        assert Crosses(vs, i, j) && Ends(i) in log;
        var p, q :| 0 <= p < q < |log| && log[p] == Ends(j) && log[q] == Ends(i);
      }
    }
  }

  /** Zones of a lane that are nested or disjoint and start at different times
      are laminar in the order in which they are emitted. */
  lemma NestedIsLaminar(vs: seq<View>)
    requires Sorted(vs) && Positive(vs)
    requires forall i, j | 0 <= i < j < |vs| && vs[i].lane == vs[j].lane :: vs[i].start != vs[j].start
    requires forall i, j | 0 <= i < j < |vs| && vs[i].lane == vs[j].lane ::
      || vs[i].end <= vs[j].start || vs[j].end <= vs[i].start
      || (vs[i].start <= vs[j].start && vs[j].end <= vs[i].end) || (vs[j].start <= vs[i].start && vs[i].end <= vs[j].end)
    ensures Known(vs, Trace(vs)) && TimesRise(vs, Trace(vs))
  {
    forall i, j | 0 <= i < j < |vs| && vs[i].lane == vs[j].lane
      ensures vs[i].end <= vs[j].start || vs[j].end <= vs[i].end
    {
      assert InOrder(vs[i], vs[j]);
      assert vs[i].start < vs[i].end && vs[j].start < vs[j].end;
    }
    hide Sorted, Positive, Trace, TimesRise;
    TimesRiseIffLaminar(vs);
  }

  /** Nested zones that start together come in the wrong order: the shorter one
      is opened first, around the longer one. */
  lemma EqualStartsGoBack(lane: nat, start: int, short: nat, long: nat)
    requires 0 < short < long
    ensures var vs := [View(0, lane, start, start + short), View(1, lane, start, start + long)];
      Sorted(vs) && Known(vs, Trace(vs)) && !TimesRise(vs, Trace(vs))
  {
    var vs := [View(0, lane, start, start + short), View(1, lane, start, start + long)];
    TimesRiseIffLaminar(vs);
    assert vs[0].end > vs[1].start;
  }
}
