/** Executing a command buffer end to end: parse, invalidate, run concurrently
    under evictions and hardware cache activity, flush. */
module Execution {
  import opened Memory
  import opened Status
  import opened ResidencySpec
  import ResidencyLaws
  import opened Commands
  import opened ScheduleState
  import opened Scheduler
  import opened Coherence
  import opened Ranges
  import opened Wire
  import opened Parsing
  import opened Resolution

  ghost predicate EntriesBound(tab: seq<BindEntry>) {
    forall i | 0 <= i < |tab| :: tab[i].fd != -1
  }

  /** The direct ranges collected at creation are those of the same data. */
  ghost predicate Collected(direct: seq<Binding>, ws: seq<WireCommand>) {
    forall l :: Bound(direct, l) <==> Bound(RangesOf(AllRefs(ws)), l)
  }

  lemma BoundConcat(a: seq<Binding>, b: seq<Binding>, l: Loc)
    ensures Bound(a + b, l) <==> Bound(a, l) || Bound(b, l)
  {
    if Bound(a, l) {
      var i :| 0 <= i < |a| && Covers(a[i], l);
      assert (a + b)[i] == a[i];
    }
    if Bound(b, l) {
      var i :| 0 <= i < |b| && Covers(b[i], l);
      assert (a + b)[|a| + i] == b[i];
    }
    if Bound(a + b, l) {
      var i :| 0 <= i < |a + b| && Covers((a + b)[i], l);
      assert (a + b)[i] == if i < |a| then a[i] else b[i - |a|];
    }
  }

  /** Whatever a command executes stays inside the ranges that are maintained. */
  lemma WorkStaysBound(ws: seq<WireCommand>, tab: seq<BindEntry>, kernels: Kernels, direct: seq<Binding>, r: Ran)
    requires EntriesBound(tab) && KernelsBehave(kernels) && FillsInBounds(ws, tab) && Collected(direct, ws)
    requires Belongs(ResolveCommands(ws, tab, kernels), r)
    ensures StaysBound(TableRanges(tab) + direct, r.work)
  {
    hide KernelsBehave;
    var cs := ResolveCommands(ws, tab, kernels);
    assert cs[r.cmd] == ResolveCommand(ws[r.cmd], tab, kernels);
    CommandStaysWithin(ws[r.cmd], tab, kernels);
    forall l | l in r.work.loads + r.work.stores ensures Bound(TableRanges(tab) + direct, l) {
      assert InSome(BuffersOf(cs[r.cmd]), l);
      CommandBuffersBound(ws[r.cmd], tab, kernels, l);
      if Bound(RangesOf(CommandRefs(ws[r.cmd])), l) {
        AllRefsContain(ws, r.cmd, l);
      }
      BoundConcat(TableRanges(tab), direct, l);
    }
  }

  /** Keeping within buffers implies touching only their allocations. */
  lemma WithinIsConfined(cs: seq<Command>)
    requires forall i | 0 <= i < |cs| :: WithinBuffers(cs[i])
    ensures Confined(cs)
  {
    forall i, w | 0 <= i < |cs| && w in WorksOf(cs[i]) ensures TouchesOnly(w, FdSet(BuffersOf(cs[i]))) {
      forall l | l in w.loads + w.stores ensures l.fd in FdSet(BuffersOf(cs[i])) {
        assert InSome(BuffersOf(cs[i]), l);
        var j :| 0 <= j < |BuffersOf(cs[i])| && InBuffer(BuffersOf(cs[i])[j], l);
        assert BuffersOf(cs[i])[j] in BuffersOf(cs[i]);
      }
    }
  }

  lemma CommandsConfined(ws: seq<WireCommand>, tab: seq<BindEntry>, kernels: Kernels)
    requires KernelsBehave(kernels) && FillsInBounds(ws, tab)
    ensures Confined(ResolveCommands(ws, tab, kernels))
  {
    var cs := ResolveCommands(ws, tab, kernels);
    forall i | 0 <= i < |cs| ensures WithinBuffers(cs[i]) {
      CommandStaysWithin(ws[i], tab, kernels);
    }
    WithinIsConfined(cs);
  }

  /** What DDR holds after maintenance around a run with these events. */
  function FinalMachine(s: Machine, bufs: seq<Binding>, evs: seq<Event>): Machine
    requires Runs(MaintainAll(s, bufs, false), evs)
  {
    MaintainAll(Run(MaintainAll(s, bufs, false), evs), bufs, true)
  }

  /** The entries of a serialized binding table, if it is complete. */
  function TableOf(data: seq<Byte>): Option<seq<BindEntry>> {
    if |data| < HEADER_SIZE || |data| - HEADER_SIZE < BINDING_SIZE * Field(data, 0, 4) then None
    else Some(DecodeTable(data, Field(data, 0, 4)))
  }

  /** The table the host serialized is the one that is executed with. */
  lemma SerializedTableIsRead(es: seq<BindEntry>)
    requires |es| < U32 && forall i | 0 <= i < |es| :: EntryFits(es[i])
    ensures TableOf(EncodeTable(es)) == Some(es)
  {
    hide EncodeTable, DecodeTable, Field, EntryFits;
    TableRoundTrip(es);
  }

  /** What is given when commands are executed: the direct ranges are those
      collected at creation, the table has descriptors, kernels keep to their
      bindings, no fill is of "the rest", VTCM declarations fit the pool. */
  ghost predicate Executable(ws: seq<WireCommand>, tab: seq<BindEntry>, direct: seq<Binding>, kernels: Kernels, pool: nat) {
    && Collected(direct, ws) && EntriesBound(tab) && KernelsBehave(kernels) && FillsInBounds(ws, tab)
    && WellDeclared(ResolveCommands(ws, tab, kernels), pool)
  }

  /** Nothing else holds buffers, mapping succeeds, and every command fits. */
  ghost predicate Roomy(cmds: seq<Command>, os: MapAnswers, cache: Cache, sizeOf: int -> nat) {
    MappingSucceeds(os) && ResidencyLaws.Sized(cache.lru, sizeOf) && ResidencyLaws.NoneHeld(cache.lru)
    && Fitting(cmds, cache.budget, sizeOf)
  }

  /** Whatever the hardware and the residency cache do meanwhile, maintenance
      around the executed works settles the cache again and leaves in DDR what
      the works make of what the host had written. */
  ghost predicate Transparent(machine: Machine, bufs: seq<Binding>, log: seq<Ran>) {
    forall evs | Runs(MaintainAll(machine, bufs, false), evs) && LogOf(evs) == log ::
      && Settled(FinalMachine(machine, bufs, evs))
      && FinalMachine(machine, bufs, evs).ddr == ReplayLog(log, machine.ddr)
  }

  /** Executes a command buffer with a serialized binding table.

      An incomplete table is refused before anything happens. Otherwise the
      cache is settled again and DDR holds what the works made of the host's
      data, for every way hardware and residency events interleave with the
      works; on success this is what in-order execution on plain memory would
      have left there. Works of commands before a barrier come first. */
  method ExecuteBuffer(data: seq<Byte>, tabData: seq<Byte>, direct: seq<Binding>, kernels: Kernels,
                       maxConcurrent: nat, poolSize: nat, os: MapAnswers, cache: Cache, ddr: Mem,
                       ghost machine: Machine, ghost fits: bool, ghost sizeOf: int -> nat)
    returns (st: Status, finalCache: Cache, ghost log: seq<Ran>)
    requires ParseBuffer(data).0 == Success && poolSize % VTCM_GRANULE == 0
    requires TableOf(tabData).Some? ==> Executable(ParseBuffer(data).1, TableOf(tabData).value, direct, kernels, poolSize)
    requires WellFormed(cache) && machine.ddr == ddr && Settled(machine)
    requires fits && TableOf(tabData).Some? ==>
      Roomy(ResolveCommands(ParseBuffer(data).1, TableOf(tabData).value, kernels), os, cache, sizeOf)
    ensures st != WouldBlock
    ensures forall f :: ResidencyLaws.RefCount(finalCache.lru, f) == ResidencyLaws.RefCount(cache.lru, f)
    ensures TableOf(tabData).None? ==> st == IncompleteItem && finalCache == cache && log == []
    ensures TableOf(tabData).Some? ==>
      var cmds := ResolveCommands(ParseBuffer(data).1, TableOf(tabData).value, kernels);
      && (fits ==> st in {Success, Failed})
      && Transparent(machine, TableRanges(TableOf(tabData).value) + direct, log)
      && BarriersKept(cmds, log)
      && (IndependentBetweenBarriers(cmds) && st == Success ==>
            Interpret(cmds, |cmds|, ddr).ok && ReplayLog(log, ddr) == Interpret(cmds, |cmds|, ddr).mem)
  {
    hide ParseBuffer, Fitting, WellDeclared, Confined, IndependentBetweenBarriers, Interpret, ReplayLog, BarriersKept,
      ResidencyLaws.Sized, ResidencyLaws.NoneHeld, KernelsBehave, Collected, EntriesBound, FillsInBounds, Settled, Runs,
      ResolveCommands, TableRanges, WellFormed, AllBelong, AllMapped, Works, CmdsOf, Transparent, DecodeTable, Field,
      NoneBegunAfterFailure, BegunFirst, SawFailure, MappingSucceeds;
    if |tabData| < HEADER_SIZE || |tabData| - HEADER_SIZE < BINDING_SIZE * Field(tabData, 0, 4) {
      return IncompleteItem, cache, [];
    }
    var tab := DecodeTable(tabData, Field(tabData, 0, 4));
    var parsed, ws := ExecuteWalk(data);
    CommandsConfined(ws, tab, kernels);
    var finalMem;
    ghost var history;
    st, finalMem, finalCache, log, history :=
      ExecCmds(ResolveCommands(ws, tab, kernels), maxConcurrent, poolSize, os, cache, ddr, fits, sizeOf);
    LogStaysBound(ws, tab, kernels, direct, log);
    LogIsTransparent(machine, TableRanges(tab) + direct, log);
  }

  ghost predicate Kept(bufs: seq<Binding>, log: seq<Ran>) {
    forall r | r in log :: StaysBound(bufs, r.work) && TouchesMapped(r)
  }

  lemma LogStaysBound(ws: seq<WireCommand>, tab: seq<BindEntry>, kernels: Kernels, direct: seq<Binding>, log: seq<Ran>)
    requires EntriesBound(tab) && KernelsBehave(kernels) && FillsInBounds(ws, tab) && Collected(direct, ws)
    requires AllBelong(ResolveCommands(ws, tab, kernels), log) && AllMapped(log)
    ensures Kept(TableRanges(tab) + direct, log)
  {
    hide EntriesBound, KernelsBehave, FillsInBounds, Collected, StaysBound, Belongs;
    forall r | r in log ensures StaysBound(TableRanges(tab) + direct, r.work) && TouchesMapped(r) {
      WorkStaysBound(ws, tab, kernels, direct, r);
    }
  }

  lemma LogIsTransparent(machine: Machine, bufs: seq<Binding>, log: seq<Ran>)
    requires Settled(machine) && Kept(bufs, log)
    ensures Transparent(machine, bufs, log)
  {
    hide Settled, Runs, MaintainAll, StaysBound, TouchesMapped, ReplayLog;
    forall evs | Runs(MaintainAll(machine, bufs, false), evs) && LogOf(evs) == log
      ensures Settled(FinalMachine(machine, bufs, evs)) && FinalMachine(machine, bufs, evs).ddr == ReplayLog(log, machine.ddr)
    {
      MaintenanceIsTransparent(machine, bufs, evs);
    }
  }

  // ----- such interleavings exist -----

  /** Events that bring the set of mapped allocations to `target`. */
  lemma RemapExists(s: Machine, target: set<int>) returns (evs: seq<Event>)
    ensures Runs(s, evs) && LogOf(evs) == [] && Run(s, evs).mapped == target
    decreases |s.mapped - target| + |target - s.mapped|
  {
    if fd :| fd in s.mapped - target {
      var rest := RemapExists(Step(s, Unmaps(fd)), target) by {
        assert Step(s, Unmaps(fd)).mapped - target == s.mapped - target - {fd};
        assert target - Step(s, Unmaps(fd)).mapped == target - s.mapped;
      }
      evs := [Unmaps(fd)] + rest;
      assert evs[1..] == rest;
    } else if fd :| fd in target - s.mapped {
      var rest := RemapExists(Step(s, Maps(fd)), target) by {
        assert target - Step(s, Maps(fd)).mapped == target - s.mapped - {fd};
        assert Step(s, Maps(fd)).mapped - target == s.mapped - target;
      }
      evs := [Maps(fd)] + rest;
      assert evs[1..] == rest;
    } else {
      evs := [];
      forall fd ensures fd in s.mapped <==> fd in target {
        assert fd in s.mapped - target || fd in target - s.mapped || (fd in s.mapped <==> fd in target);
      }
    }
  }

  lemma {:induction false} RunsConcat(s: Machine, a: seq<Event>, b: seq<Event>)
    requires Runs(s, a) && Runs(Run(s, a), b)
    ensures Runs(s, a + b) && LogOf(a + b) == LogOf(a) + LogOf(b)
    decreases |a|
  {
    if a == [] {
      assert a + b == b;
    } else {
      RunsConcat(Step(s, a[0]), a[1..], b);
      assert (a + b)[1..] == a[1..] + b;
    }
  }

  /** Every log is the log of some run, so the guarantees are not vacuous. */
  lemma {:induction false} SomeRunExists(s: Machine, log: seq<Ran>) returns (evs: seq<Event>)
    ensures Runs(s, evs) && LogOf(evs) == log
    decreases |log|
  {
    if log == [] {
      evs := [];
    } else {
      var prep := RemapExists(s, log[0].mapped);
      var s1 := Run(s, prep);
      var rest := SomeRunExists(Step(s1, Executes(log[0])), log[1..]);
      var tail := [Executes(log[0])] + rest;
      assert tail[1..] == rest;
      RunsConcat(s, prep, tail);
      evs := prep + tail;
      assert [log[0]] + log[1..] == log;
    }
  }
}
