/** The DSP data cache between the commands and memory.

    A byte has its value in DDR and possibly a cached copy, clean or dirty. The
    hardware may write back, drop or fetch lines whenever it likes, and the
    residency cache may map and unmap allocations in between; commands see only
    what the cache shows. The runtime maintains the cache once per command
    buffer, and the theorems say that this is enough. */
module Coherence {
  import opened Memory
  import opened ScheduleState

  datatype Line = Line(value: Byte, dirty: bool)

  datatype Machine = Machine(ddr: Mem, lines: map<Loc, Line>, mapped: set<int>)

  /** A range of an allocation bound to the command buffer (`fd` -1 if unused). */
  datatype Binding = Binding(fd: int, offset: nat, length: nat)

  function LineValues(lines: map<Loc, Line>): Mem {
    map l | l in lines :: lines[l].value
  }

  function DirtyValues(lines: map<Loc, Line>): Mem {
    map l | l in lines && lines[l].dirty :: lines[l].value
  }

  /** What the DSP reads. */
  function Visible(s: Machine): Mem {
    s.ddr + LineValues(s.lines)
  }

  // ----- cache maintenance -----

  function WithoutRange(lines: map<Loc, Line>, b: Binding): map<Loc, Line> {
    map l | l in lines && !Covers(b, l) :: lines[l]
  }

  function OnlyRange(lines: map<Loc, Line>, b: Binding): map<Loc, Line> {
    map l | l in lines && Covers(b, l) :: lines[l]
  }

  predicate Covers(b: Binding, l: Loc) {
    b.fd != -1 && l.fd == b.fd && b.offset <= l.at < b.offset + b.length
  }

  /** Drops the lines of a range, written back first if `flush`. Allocations not
      mapped and empty ranges are skipped. */
  function Maintain(s: Machine, b: Binding, flush: bool): Machine {
    if b.fd == -1 || b.fd !in s.mapped || b.length == 0 then
      s
    else
      s.(ddr := if flush then s.ddr + DirtyValues(OnlyRange(s.lines, b)) else s.ddr,
         lines := WithoutRange(s.lines, b))
  }

  function MaintainAll(s: Machine, bufs: seq<Binding>, flush: bool): Machine
    decreases |bufs|
  {
    if bufs == [] then s else MaintainAll(Maintain(s, bufs[0], flush), bufs[1..], flush)
  }

  // ----- what happens in between -----

  datatype Event =
    | Executes(ran: Ran)     // loads and stores of one work, through the cache
    | WritesBack(at: Loc)    // the hardware writes a dirty line back
    | Drops(at: Loc)         // the hardware drops a clean line
    | Fetches(at: Loc)       // the hardware loads a line
    | Maps(fd: int)          // the residency cache maps an allocation
    | Unmaps(fd: int)        // ... or flushes, invalidates and unmaps one

  predicate Possible(s: Machine, e: Event) {
    match e
    case Executes(ran) => ran.mapped == s.mapped
    case WritesBack(l) => l in s.lines && s.lines[l].dirty
    case Drops(l) => l in s.lines && !s.lines[l].dirty
    case Fetches(l) => l !in s.lines && l in s.ddr && l.fd in s.mapped
    case Maps(_) => true
    case Unmaps(_) => true
  }

  function LinesOf(lines: map<Loc, Line>, fd: int): map<Loc, Line> {
    map l | l in lines && l.fd == fd :: lines[l]
  }

  function Stores(values: Mem): map<Loc, Line> {
    map l | l in values :: Line(values[l], true)
  }

  function Step(s: Machine, e: Event): Machine
    requires Possible(s, e)
  {
    match e
    case Executes(ran) => s.(lines := s.lines + Stores(Effect(ran.work, Visible(s))))
    case WritesBack(l) =>
      s.(ddr := s.ddr[l := s.lines[l].value], lines := s.lines[l := Line(s.lines[l].value, false)])
    case Drops(l) => s.(lines := s.lines - {l})
    case Fetches(l) => s.(lines := s.lines[l := Line(s.ddr[l], false)])
    case Maps(fd) => s.(mapped := s.mapped + {fd})
    case Unmaps(fd) =>
      s.(ddr := s.ddr + DirtyValues(LinesOf(s.lines, fd)),
         lines := s.lines - LinesOf(s.lines, fd).Keys,
         mapped := s.mapped - {fd})
  }

  predicate Runs(s: Machine, evs: seq<Event>)
    decreases |evs|
  {
    evs == [] || (Possible(s, evs[0]) && Runs(Step(s, evs[0]), evs[1..]))
  }

  function Run(s: Machine, evs: seq<Event>): Machine
    requires Runs(s, evs)
    decreases |evs|
  {
    if evs == [] then s else Run(Step(s, evs[0]), evs[1..])
  }

  /** The works executed, in order. */
  function LogOf(evs: seq<Event>): seq<Ran> {
    if evs == [] then []
    else if evs[0].Executes? then [evs[0].ran] + LogOf(evs[1..])
    else LogOf(evs[1..])
  }

  // ----- invariants -----

  predicate Bound(bufs: seq<Binding>, l: Loc) {
    exists i :: 0 <= i < |bufs| && Covers(bufs[i], l)
  }

  /** No line belongs to an allocation that is not mapped. */
  ghost predicate LinesMapped(s: Machine) {
    forall l | l in s.lines :: l.fd in s.mapped
  }

  /** Between command buffers nothing dirty is left in the cache. Clean lines may
      be, and the host may write DDR behind them. */
  ghost predicate Settled(s: Machine) {
    && LinesMapped(s)
    && forall l | l in s.lines :: !s.lines[l].dirty
  }

  /** During execution: lines outside the bound ranges are clean, clean lines
      inside agree with DDR, and what the DSP sees of the bound ranges is
      `expected`. DDR outside is untouched. */
  ghost predicate InStep(s: Machine, bufs: seq<Binding>, expected: Mem) {
    Tracked(s, bufs) && Shows(s, bufs, expected)
  }

  ghost predicate Tracked(s: Machine, bufs: seq<Binding>) {
    && LinesMapped(s)
    && (forall l | l in s.lines && s.lines[l].dirty :: Bound(bufs, l))
    && (forall l | l in s.lines && !s.lines[l].dirty && Bound(bufs, l) :: l in s.ddr && s.ddr[l] == s.lines[l].value)
  }

  ghost predicate Shows(s: Machine, bufs: seq<Binding>, expected: Mem) {
    && (forall l | Bound(bufs, l) :: SameByte(Visible(s), expected, l))
    && (forall l | !Bound(bufs, l) :: SameByte(s.ddr, expected, l))
  }

  ghost predicate SameByte(a: Mem, b: Mem, l: Loc) {
    (l in a <==> l in b) && (l in a ==> a[l] == b[l])
  }

  ghost predicate StaysBound(bufs: seq<Binding>, w: Work) {
    forall l | l in w.loads + w.stores :: Bound(bufs, l)
  }

  ghost predicate TouchesMapped(r: Ran) {
    forall l | l in r.work.loads + r.work.stores :: l.fd in r.mapped
  }

  lemma EffectAgrees(s: Machine, w: Work, bufs: seq<Binding>, expected: Mem)
    requires InStep(s, bufs, expected) && StaysBound(bufs, w)
    ensures Effect(w, Visible(s)) == Effect(w, expected)
  {
    forall l | l in w.loads ensures SameByte(Visible(s), expected, l) {
      assert l in w.loads + w.stores;
    }
    assert View(Visible(s), w.loads) == View(expected, w.loads);
  }

  /** Storing through the cache changes what is visible by just the stores. */
  lemma StoresVisible(s: Machine, d: Mem)
    ensures Visible(s.(lines := s.lines + Stores(d))) == Visible(s) + d
  {
  }

  lemma StoresTracked(s: Machine, bufs: seq<Binding>, d: Mem)
    requires Tracked(s, bufs)
    requires forall l | l in d :: Bound(bufs, l) && l.fd in s.mapped
    ensures Tracked(s.(lines := s.lines + Stores(d)), bufs)
  {
  }

  lemma EffectStaysBound(ran: Ran, bufs: seq<Binding>, m: Mem)
    requires StaysBound(bufs, ran.work) && TouchesMapped(ran)
    ensures forall l | l in Effect(ran.work, m) :: Bound(bufs, l) && l.fd in ran.mapped
  {
    hide Bound;
    forall l | l in Effect(ran.work, m) ensures Bound(bufs, l) && l.fd in ran.mapped {
      assert l in ran.work.loads + ran.work.stores;
    }
  }

  lemma ExecuteKeepsInStep(s: Machine, ran: Ran, bufs: seq<Binding>, expected: Mem)
    requires InStep(s, bufs, expected) && ran.mapped == s.mapped
    requires StaysBound(bufs, ran.work) && TouchesMapped(ran)
    ensures InStep(Step(s, Executes(ran)), bufs, Apply(ran.work, expected))
  {
    hide Bound, StaysBound, TouchesMapped, Effect, Visible, Tracked;
    EffectAgrees(s, ran.work, bufs, expected);
    var d := Effect(ran.work, expected);
    EffectStaysBound(ran, bufs, expected);
    StoresVisible(s, d);
    StoresTracked(s, bufs, d);
    var s' := Step(s, Executes(ran));
    assert s' == s.(lines := s.lines + Stores(d));
    forall l | Bound(bufs, l) ensures SameByte(Visible(s'), Apply(ran.work, expected), l) {
      assert SameByte(Visible(s), expected, l);
    }
    forall l | !Bound(bufs, l) ensures SameByte(s'.ddr, Apply(ran.work, expected), l) {
      assert SameByte(s.ddr, expected, l);
    }
  }

  lemma UnmapKeepsInStep(s: Machine, fd: int, bufs: seq<Binding>, expected: Mem)
    requires InStep(s, bufs, expected)
    ensures InStep(Step(s, Unmaps(fd)), bufs, expected)
  {
    var s' := Step(s, Unmaps(fd));
    forall l | Bound(bufs, l) ensures SameByte(Visible(s'), expected, l) {
      assert SameByte(Visible(s), expected, l);
    }
    forall l | !Bound(bufs, l) ensures SameByte(s'.ddr, expected, l) {
      assert SameByte(s.ddr, expected, l);
      assert l !in DirtyValues(LinesOf(s.lines, fd));
    }
  }

  lemma HardwareKeepsInStep(s: Machine, e: Event, bufs: seq<Binding>, expected: Mem)
    requires InStep(s, bufs, expected) && Possible(s, e) && (e.WritesBack? || e.Drops? || e.Fetches?)
    ensures InStep(Step(s, e), bufs, expected)
  {
    var s' := Step(s, e);
    forall l | Bound(bufs, l) ensures SameByte(Visible(s'), expected, l) {
      assert SameByte(Visible(s), expected, l);
    }
    forall l | !Bound(bufs, l) ensures SameByte(s'.ddr, expected, l) {
      assert SameByte(s.ddr, expected, l);
    }
  }

  /** Each event keeps the commands' view of memory; only a work changes what is
      expected. */
  lemma StepKeepsInStep(s: Machine, e: Event, bufs: seq<Binding>, expected: Mem)
    requires InStep(s, bufs, expected) && Possible(s, e)
    requires e.Executes? ==> StaysBound(bufs, e.ran.work) && TouchesMapped(e.ran)
    ensures InStep(Step(s, e), bufs, if e.Executes? then Apply(e.ran.work, expected) else expected)
  {
    match e
    case Executes(ran) => ExecuteKeepsInStep(s, ran, bufs, expected);
    case Unmaps(fd) => UnmapKeepsInStep(s, fd, bufs, expected);
    case Maps(_) => assert Visible(Step(s, e)) == Visible(s);
    case _ => HardwareKeepsInStep(s, e, bufs, expected);
  }

  /** Memory after applying logged works from the front. */
  function Execute(log: seq<Ran>, m: Mem): Mem {
    if log == [] then m else Execute(log[1..], Apply(log[0].work, m))
  }

  lemma {:induction false} ExecuteIsReplay(log: seq<Ran>, m: Mem)
    ensures Execute(log, m) == ReplayLog(log, m)
    decreases |log|
  {
    if |log| == 1 {
      assert log[..0] == [] && log[1..] == [];
    } else if |log| > 1 {
      var last := |log| - 1;
      ExecuteIsReplay(log[..last], m);
      ExecuteAppends(log[..last], log[last], m);
      assert log == log[..last] + [log[last]];
    }
  }

  lemma {:induction false} ExecuteAppends(log: seq<Ran>, r: Ran, m: Mem)
    ensures Execute(log + [r], m) == Apply(r.work, Execute(log, m))
    decreases |log|
  {
    if log == [] {
      assert ([] + [r])[1..] == [];
      assert (log + [r])[0] == r;
    } else {
      ExecuteAppends(log[1..], r, Apply(log[0].work, m));
      assert (log + [r])[1..] == log[1..] + [r];
    }
  }

  /** Under any hardware activity and any mapping and unmapping, the commands see
      what they would see on plain memory. */
  lemma {:induction false} RunKeepsInStep(s: Machine, evs: seq<Event>, bufs: seq<Binding>, expected: Mem)
    requires InStep(s, bufs, expected) && Runs(s, evs)
    requires forall r | r in LogOf(evs) :: StaysBound(bufs, r.work) && TouchesMapped(r)
    ensures InStep(Run(s, evs), bufs, Execute(LogOf(evs), expected))
    decreases |evs|
  {
    if evs != [] {
      StepKeepsInStep(s, evs[0], bufs, expected);
      var expected' := if evs[0].Executes? then Apply(evs[0].ran.work, expected) else expected;
      RunKeepsInStep(Step(s, evs[0]), evs[1..], bufs, expected');
    }
  }

  // ----- maintenance before and after -----

  lemma {:induction false} InvalidateAllEffect(s: Machine, bufs: seq<Binding>, l: Loc)
    requires LinesMapped(s)
    ensures var t := MaintainAll(s, bufs, false);
      && t.ddr == s.ddr && t.mapped == s.mapped && LinesMapped(t)
      && (l in t.lines <==> l in s.lines && !Bound(bufs, l))
      && (l in t.lines ==> t.lines[l] == s.lines[l])
    decreases |bufs|
  {
    if bufs != [] {
      InvalidateAllEffect(Maintain(s, bufs[0], false), bufs[1..], l);
      BoundCons(bufs, l);
    }
  }

  lemma BoundCons(bufs: seq<Binding>, l: Loc)
    requires bufs != []
    ensures Bound(bufs, l) <==> Covers(bufs[0], l) || Bound(bufs[1..], l)
  {
  }

  /** Flushing writes dirty bytes of the ranges to DDR and leaves no line there. */
  lemma {:induction false} FlushAllEffect(s: Machine, bufs: seq<Binding>, l: Loc)
    requires LinesMapped(s)
    ensures var t := MaintainAll(s, bufs, true);
      && t.mapped == s.mapped && LinesMapped(t)
      && (l in t.lines <==> l in s.lines && !Bound(bufs, l))
      && (l in t.lines ==> t.lines[l] == s.lines[l])
      && (if l in s.lines && s.lines[l].dirty && Bound(bufs, l) then l in t.ddr && t.ddr[l] == s.lines[l].value
          else SameByte(t.ddr, s.ddr, l))
    decreases |bufs|
  {
    if bufs != [] {
      FlushAllEffect(Maintain(s, bufs[0], true), bufs[1..], l);
      BoundCons(bufs, l);
    }
  }

  /** Invalidating the bound ranges first makes the commands see what the host
      last wrote there, however stale the cache was. */
  lemma InvalidatedIsInStep(s: Machine, bufs: seq<Binding>)
    requires Settled(s)
    ensures InStep(MaintainAll(s, bufs, false), bufs, s.ddr)
  {
    var t := MaintainAll(s, bufs, false);
    forall l ensures
      && t.ddr == s.ddr && LinesMapped(t)
      && (l in t.lines ==> !t.lines[l].dirty && !Bound(bufs, l))
      && (Bound(bufs, l) ==> SameByte(Visible(t), s.ddr, l))
    {
      InvalidateAllEffect(s, bufs, l);
    }
    InvalidateAllEffect(s, bufs, Loc(0, 0));
  }

  /** Flushing the bound ranges last publishes everything and settles the cache. */
  lemma FlushedIsPublished(s: Machine, bufs: seq<Binding>, expected: Mem)
    requires InStep(s, bufs, expected)
    ensures var t := MaintainAll(s, bufs, true);
      Settled(t) && t.ddr == expected
  {
    var t := MaintainAll(s, bufs, true);
    forall l ensures SameByte(t.ddr, expected, l) && (l in t.lines ==> !t.lines[l].dirty) {
      FlushAllEffect(s, bufs, l);
      if Bound(bufs, l) {
        assert SameByte(Visible(s), expected, l);
      } else {
        assert SameByte(s.ddr, expected, l);
      }
    }
    FlushAllEffect(s, bufs, Loc(0, 0));
    assert forall l | l in t.ddr :: SameByte(t.ddr, expected, l);
    assert forall l | l in expected :: SameByte(t.ddr, expected, l);
  }

  /** Maintenance around a run is transparent: for any events in between, what is
      in DDR afterwards is what the executed works make of the DDR contents
      before on plain memory, and the cache is settled again. */
  lemma MaintenanceIsTransparent(s: Machine, bufs: seq<Binding>, evs: seq<Event>)
    requires Settled(s) && Runs(MaintainAll(s, bufs, false), evs)
    requires forall r | r in LogOf(evs) :: StaysBound(bufs, r.work) && TouchesMapped(r)
    ensures var t := MaintainAll(Run(MaintainAll(s, bufs, false), evs), bufs, true);
      Settled(t) && t.ddr == ReplayLog(LogOf(evs), s.ddr)
  {
    InvalidatedIsInStep(s, bufs);
    RunKeepsInStep(MaintainAll(s, bufs, false), evs, bufs, s.ddr);
    ExecuteIsReplay(LogOf(evs), s.ddr);
    FlushedIsPublished(Run(MaintainAll(s, bufs, false), evs), bufs, ReplayLog(LogOf(evs), s.ddr));
  }
}
