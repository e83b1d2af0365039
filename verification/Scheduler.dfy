/** The master's side of a command buffer execution. Workers run whenever the
    master lets them: `Interfere` takes any number of worker steps, so every
    property proved here holds for every interleaving. */
module Scheduler {
  import opened Memory
  import opened Status
  import opened ResidencySpec
  import opened ResidencyLaws
  import opened Commands
  import opened ScheduleState
  import opened ScheduleSteps

  /** Partitions are handed out in multiples of 2 KiB. */
  const VTCM_GRANULE: nat := 2048

  function RoundUp(n: nat): nat {
    (n + VTCM_GRANULE - 1) / VTCM_GRANULE * VTCM_GRANULE
  }

  function PartitionBytes(v: Vtcm, pool: nat): nat {
    match v
    case Everything => pool
    case Bytes(n) => RoundUp(n)
  }

  /** A declaration within the pool still fits after rounding, because the pool
      itself is a multiple of the granule. */
  lemma RoundedFitsPool(v: Vtcm, pool: nat)
    requires pool % VTCM_GRANULE == 0 && (v.Bytes? ==> v.n <= pool)
    ensures PartitionBytes(v, pool) <= pool
  {
  }

  /** What the compiler and the parser guarantee: no dispatch declares more VTCM
      than there is (the runtime aborts otherwise), a rejected entry carries a
      parse error, and a fill pattern has four bytes of which it uses a prefix. */
  ghost predicate WellDeclared(cmds: seq<Command>, pool: nat) {
    forall i | 0 <= i < |cmds| ::
      && (cmds[i].Dispatch? && cmds[i].vtcm.Bytes? ==> cmds[i].vtcm.n <= pool)
      && (cmds[i].Malformed? ==> cmds[i].status in {BadItem, IncompleteItem, BadParm})
      && (cmds[i].Fill? ==> |cmds[i].pattern| == 4 && cmds[i].patternLength <= 4)
  }

  /** The residency assumptions of a run: nothing else holds buffers, mapping
      succeeds, every command's distinct allocations together fit. */
  ghost predicate Fitting(cmds: seq<Command>, budget: nat, sizeOf: int -> nat) {
    forall i | 0 <= i < |cmds| ::
      && !cmds[i].Malformed?
      && AskedBySize(Requests(BuffersOf(cmds[i])), sizeOf)
      && DistinctSize(Requests(BuffersOf(cmds[i])), |BuffersOf(cmds[i])|) <= budget
  }

  type MapAnswers = nat -> nat -> Oracle

  ghost predicate MappingSucceeds(os: MapAnswers) {
    forall a, k :: os(a)(k)(0).Some?
  }

  const FREE_TASK := Task(false, Running, [], true, [], 0, 0)

  lemma StartKeepsInv(su: Setup, s: State)
    requires 1 <= su.slots == |s.tasks| && forall i | 0 <= i < |s.tasks| :: s.tasks[i] == FREE_TASK
    requires WellFormed(s.cache) && forall f :: su.base(f) == RefCount(s.cache.lru, f)
    requires s == State(s.tasks, 0, 0, false, 0, Success, s.cache, su.mem0, [], [], [], true, false, 0, multiset{}, 0, 0)
    ensures Inv(su, s)
  {
    SumOfSame(s.tasks, FREE_TASK, InFlightUnit);
    SumOfSame(s.tasks, FREE_TASK, CompletedUnit);
    SumOfSame(s.tasks, FREE_TASK, VtcmUnit);
    forall f ensures Sum(s.tasks, HeldUnit(f)) == 0 {
      SumOfSame(s.tasks, FREE_TASK, HeldUnit(f));
    }
    FlushOfNothing(Queues(s), s.mem);
  }

  class CommandExecution {
    const commands: seq<Command>
    const slots: nat
    const poolSize: nat
    const os: MapAnswers
    ghost const su: Setup
    ghost const fits: bool
    ghost const sizeOf: int -> nat
    ghost const budget: nat

    var tasks: array<Task>
    var numInFlight: nat
    var numCompleted: nat
    var asleep: bool
    var vtcmInUse: nat
    var status: Status
    var cache: Cache
    var attempts: nat
    var mem: Mem
    ghost var log: seq<Ran>
    ghost var history: seq<Moment>
    ghost var master: seq<Work>
    ghost var masterGood: bool
    ghost var masterBusy: bool
    ghost var masterVtcm: nat
    ghost var extra: multiset<int>
    ghost var done: nat
    ghost var begun: nat

    ghost function Now(): State
      reads this, tasks
    {
      State(tasks[..], numInFlight, numCompleted, asleep, vtcmInUse, status, cache, mem, log, history,
            master, masterGood, masterBusy, masterVtcm, extra, done, begun)
    }

    ghost predicate Fixed() {
      && su.cmds == commands && su.slots == slots && su.pool == poolSize
      && poolSize % VTCM_GRANULE == 0
      && WellDeclared(commands, poolSize)
      && (fits ==> Fitting(commands, budget, sizeOf) && MappingSucceeds(os) && forall f :: su.base(f) == 0)
    }

    ghost predicate Valid()
      reads this, tasks
    {
      && Fixed()
      && tasks.Length == slots
      && Inv(su, Now())
      && cache.budget == budget
      && (fits ==> Sized(cache.lru, sizeOf))
    }

    /** The master is awake and holds nothing of its own. */
    ghost predicate Idle()
      reads this, tasks
    {
      Valid() && !asleep && master == [] && masterGood && !masterBusy && masterVtcm == 0 && extra == multiset{}
    }

    /** An execution about to start, with every slot free. */
    constructor (commands: seq<Command>, slots: nat, poolSize: nat, os: MapAnswers, cache: Cache, mem: Mem,
                 ghost fits: bool, ghost sizeOf: int -> nat)
      requires slots >= 1 && poolSize % VTCM_GRANULE == 0 && WellDeclared(commands, poolSize) && WellFormed(cache)
      requires fits ==> Fitting(commands, cache.budget, sizeOf) && MappingSucceeds(os) && Sized(cache.lru, sizeOf)
      requires fits ==> NoneHeld(cache.lru)
      ensures Idle() && fresh(tasks) && done == begun == 0 && status == Success && log == [] && history == []
      ensures su == Setup(commands, mem, f => RefCount(cache.lru, f), slots, poolSize)
      ensures this.commands == commands && this.fits == fits && budget == cache.budget
    {
      this.commands, this.slots, this.poolSize, this.os := commands, slots, poolSize, os;
      this.cache, this.mem := cache, mem;
      this.fits, this.sizeOf, this.budget := fits, sizeOf, cache.budget;
      su := Setup(commands, mem, f => RefCount(cache.lru, f), slots, poolSize);
      tasks := new Task[slots](_ => FREE_TASK);
      numInFlight, numCompleted, asleep, vtcmInUse, status, attempts := 0, 0, false, 0, Success, 0;
      log, history, master, masterGood, masterBusy, masterVtcm, extra := [], [], [], true, false, 0, multiset{};
      done, begun := 0, 0;
      new;
      StartKeepsInv(su, Now());
      if fits {
        forall f ensures su.base(f) == 0 {
          RefCountOfIdle(cache.lru, f);
        }
      }
    }

    lemma Facts()
      requires Valid()
      ensures Counts(su, Now()) && WellFormed(cache) && 1 <= slots
    {
    }

    // ----- workers -----

    /** One step of the worker of slot `i`: a workgroup, or marking completion
        and signalling under the lock. */
    method RunWorker(i: nat)
      requires Valid() && i < tasks.Length && tasks[i].inFlight && tasks[i].state.Running?
      modifies this`mem, this`numCompleted, this`asleep, this`log, this`history, tasks
      ensures Valid()
      ensures Now() == WorkerStep(old(Now()), i)
      ensures OnlyRunningChanged() && numCompleted >= old(numCompleted) && (asleep ==> old(asleep))
      ensures asleep ==> numCompleted == old(numCompleted)
      ensures !asleep ==> !old(asleep) || numCompleted > 0
      ensures Sum(tasks[..], WorkUnit) < Sum(old(tasks[..]), WorkUnit)
    {
      hide Inv, Sum, Sized, Fixed, WorkerStep, WorkUnit;
      WorkerStepKeepsInv(su, Now(), i);
      StepKeepsSlots(Now(), i);
      if tasks[i].left == [] {
        MarkCompleted(i);
      } else {
        RunWorkgroup(i);
      }
    }

    lemma StepKeepsSlots(s: State, i: nat)
      requires CanStep(s, i)
      ensures var s' := WorkerStep(s, i);
        && |s'.tasks| == |s.tasks|
        && (forall k | 0 <= k < |s.tasks| && k != i :: s'.tasks[k] == s.tasks[k])
        && s'.tasks[i].inFlight
        && (s' == s.(tasks := s'.tasks, numCompleted := s.numCompleted + 1, asleep := false)
            || s' == s.(tasks := s'.tasks, mem := s'.mem, log := s'.log, history := s'.history))
    {
    }

    method RunWorkgroup(i: nat)
      requires i < tasks.Length && tasks[i].inFlight && tasks[i].state.Running? && tasks[i].left != []
      modifies this`mem, this`log, this`history, tasks
      ensures Now() == WorkerStep(old(Now()), i)
    {
      hide Succeeds, Apply, MappedFds;
      var t := tasks[i];
      var ok := Succeeds(t.left[0], mem);
      mem := Apply(t.left[0], mem);
      log, history := log + [Ran(t.left[0], MappedFds(cache.lru), t.cmd)], history + [Worked(t.cmd)];
      SetTask(i, t.(left := if ok then t.left[1..] else [], good := ok));
    }

    method MarkCompleted(i: nat)
      requires i < tasks.Length && tasks[i].inFlight && tasks[i].state.Running? && tasks[i].left == []
      modifies this`numCompleted, this`asleep, tasks
      ensures Now() == WorkerStep(old(Now()), i)
    {
      SetTask(i, tasks[i].(state := if tasks[i].good then Succeeded else TaskFailed));
      numCompleted := numCompleted + 1;
      asleep := false;
    }

    method SetTask(i: nat, t: Task)
      requires i < tasks.Length
      modifies tasks
      ensures tasks[..] == old(tasks[..])[i := t]
    {
      tasks[i] := t;
    }

    twostate predicate OnlyRunningChanged()
      reads this`tasks, tasks
    {
      && tasks == old(tasks)
      && forall k | 0 <= k < tasks.Length ::
        && tasks[k].inFlight == old(tasks[k].inFlight)
        && (!tasks[k].inFlight ==> tasks[k] == old(tasks[k]))
    }

    /** Any workers take any number of steps. */
    method Interfere()
      requires Valid() && !asleep
      modifies this`mem, this`numCompleted, this`asleep, this`log, this`history, tasks
      ensures Valid() && !asleep && OnlyRunningChanged()
      ensures numCompleted >= old(numCompleted)
    {
      hide Inv, Sum, Sized, Fixed, WorkerStep, Now;
      var i: nat := *;
      while i < tasks.Length && tasks[i].inFlight && tasks[i].state.Running?
        invariant Valid() && !asleep && OnlyRunningChanged()
        invariant numCompleted >= old(numCompleted)
        decreases Sum(tasks[..], WorkUnit)
      {
        RunWorker(i);
        i := *;
      }
    }

    // ----- waiting for completions -----

    /** Sleeps until a worker signals; there is always one that will. */
    method Sleep()
      requires Valid() && master == [] && !asleep && numCompleted == 0 && numInFlight > 0
      modifies this`mem, this`numCompleted, this`asleep, this`log, this`history, tasks
      ensures Valid() && !asleep && numCompleted > 0 && OnlyRunningChanged()
    {
      hide Inv, Sum, Sized, Fixed;
      SleepKeepsInv(su, Now());
      asleep := true;
      while asleep
        invariant Valid() && OnlyRunningChanged()
        invariant asleep ==> numCompleted == 0
        invariant !asleep ==> numCompleted > 0
        decreases Sum(tasks[..], WorkUnit)
      {
        StepSomeWorker();
      }
    }

    method StepSomeWorker()
      requires Valid() && numCompleted == 0 && numInFlight > 0
      modifies this`mem, this`numCompleted, this`asleep, this`log, this`history, tasks
      ensures Valid() && OnlyRunningChanged()
      ensures !asleep ==> !old(asleep) || numCompleted > 0
      ensures asleep ==> numCompleted == 0
      ensures Sum(tasks[..], WorkUnit) < Sum(old(tasks[..]), WorkUnit)
    {
      hide Inv, Sum, Sized, Fixed, WorkerStep;
      Facts();
      ghost var w := WaitingMeansRunning(su, Now());
      assert tasks[w].inFlight && tasks[w].state.Running?;
      var i: nat :| i < tasks.Length && tasks[i].inFlight && tasks[i].state.Running?;
      RunWorker(i);
    }

    /** Releases the first `n` of the given descriptors. */
    method Unmap(fds: seq<int>, n: nat)
      requires n <= |fds|
      modifies this`cache
      ensures cache == ReleaseFirst(old(cache), fds, n)
    {
      for idx := 0 to n
        invariant cache == ReleaseFirst(old(cache), fds, idx)
      {
        cache := Release(cache, fds[idx]);
      }
    }

    /** Releases what the task in slot `i` holds and frees the slot. */
    method FinishDispatch(i: nat)
      requires i < tasks.Length && tasks[i].vtcm <= vtcmInUse
      modifies this`status, this`history, this`vtcmInUse, this`cache, tasks
      ensures Now() == FinishSlot(old(Now()), i)
    {
      hide ReleaseFirst, FinishSlot, Now;
      var t := tasks[i];
      if t.state.TaskFailed? {
        status, history := Failed, history + [FailureSeen(t.cmd)];
      }
      vtcmInUse := vtcmInUse - t.vtcm;
      Unmap(t.held, |t.held|);
      SetTask(i, t.(inFlight := false));
      IsFinished(i);
    }

    twostate lemma IsFinished(i: nat)
      requires tasks == old(tasks) && i < tasks.Length && old(tasks[i]).vtcm <= old(vtcmInUse)
      requires var t := old(tasks[i]);
        && tasks[..] == old(tasks[..])[i := t.(inFlight := false)]
        && status == (if t.state.TaskFailed? then Failed else old(status))
        && history == (if t.state.TaskFailed? then old(history) + [FailureSeen(t.cmd)] else old(history))
        && vtcmInUse == old(vtcmInUse) - t.vtcm && cache == ReleaseFirst(old(cache), t.held, |t.held|)
      requires numInFlight == old(numInFlight) && numCompleted == old(numCompleted) && asleep == old(asleep)
      requires mem == old(mem) && log == old(log) && master == old(master) && masterGood == old(masterGood)
      requires masterBusy == old(masterBusy) && masterVtcm == old(masterVtcm) && extra == old(extra)
      requires done == old(done) && begun == old(begun)
      ensures Now() == FinishSlot(old(Now()), i)
    {
    }

    lemma ClaimKeepsSizes(s: State, i: nat)
      requires i < |s.tasks| && s.tasks[i].vtcm <= s.vtcmInUse
      ensures FinishSlot(s, i).cache.budget == s.cache.budget
      ensures Sized(s.cache.lru, sizeOf) ==> Sized(FinishSlot(s, i).cache.lru, sizeOf)
    {
      ReleaseKeepsSizes(s.cache, s.tasks[i].held, |s.tasks[i].held|, sizeOf);
    }

    /** Blocks until some dispatch has completed. */
    method AwaitCompletion()
      requires Valid() && master == [] && !asleep && numInFlight > 0
      modifies this`mem, this`numCompleted, this`asleep, this`log, this`history, tasks
      ensures Valid() && !asleep && numCompleted > 0 && OnlyRunningChanged()
    {
      hide Inv, Sized, Fixed;
      Interfere();
      if numCompleted == 0 {
        Sleep();
      }
    }

    lemma SomeCompleted() returns (c: nat)
      requires Valid() && numCompleted > 0
      ensures c < tasks.Length && tasks[c].inFlight && !tasks[c].state.Running?
    {
      c := CompletedMeansClaimable(su, Now());
      assert Now().tasks[c] == tasks[c];
    }

    /** Searches which task completed. */
    method FindCompleted() returns (taskIdx: nat)
      requires Valid() && numCompleted > 0
      ensures taskIdx < tasks.Length && Claimable(Now(), taskIdx)
    {
      hide Inv, Sized, Fixed;
      ghost var c := SomeCompleted();
      taskIdx := slots;
      var idx := 0;
      while idx < slots
        invariant idx <= slots && taskIdx == slots
        invariant idx <= c
      {
        if tasks[idx].inFlight && !tasks[idx].state.Running? {
          taskIdx := idx;
          break;
        }
        idx := idx + 1;
      }
    }

    /** Waits for one completion and finishes it. */
    method WaitOne()
      requires Valid() && master == [] && !asleep && numInFlight > 0
      modifies this`mem, this`numCompleted, this`asleep, this`log, this`history, this`numInFlight, this`status,
        this`vtcmInUse, this`cache, tasks
      ensures Valid() && !asleep
      ensures numInFlight == old(numInFlight) - 1
      ensures old(status) == Failed ==> status == Failed
      ensures tasks == old(tasks)
      ensures forall k | 0 <= k < tasks.Length && !old(tasks[k].inFlight) :: tasks[k] == old(tasks[k])
    {
      hide Inv, Sized, Fixed, Valid;
      AwaitCompletion();
      Interfere();
      var taskIdx := FindCompleted();
      ClaimCompletion(taskIdx);
    }

    /** Claims the completion of slot `i` and finishes it. */
    method ClaimCompletion(i: nat)
      requires Valid() && !asleep && Claimable(Now(), i)
      modifies this`numCompleted, this`numInFlight, this`status, this`history, this`vtcmInUse, this`cache, tasks
      ensures Valid() && !asleep && numInFlight == old(numInFlight) - 1
      ensures old(status) == Failed ==> status == Failed
      ensures tasks == old(tasks)
      ensures forall k | 0 <= k < tasks.Length && k != i :: tasks[k] == old(tasks[k])
    {
      hide Inv, Sum, Sized, Fixed, ReleaseFirst;
      ghost var s := Now();
      ClaimKeepsInv(su, s, i);
      numCompleted := numCompleted - 1;
      numInFlight := numInFlight - 1;
      ClaimKeepsSizes(Now(), i);
      FinishDispatch(i);
      assert Now() == Claim(s, i);
    }

    method Drain()
      requires Valid() && master == [] && !asleep
      modifies this`mem, this`numCompleted, this`asleep, this`log, this`history, this`numInFlight, this`status,
        this`vtcmInUse, this`cache, tasks
      ensures Valid() && !asleep && numInFlight == 0 && tasks == old(tasks)
      ensures old(status) == Failed ==> status == Failed
    {
      hide Fixed, Inv, Sized, Valid;
      while numInFlight > 0
        invariant Valid() && !asleep && tasks == old(tasks)
        invariant old(status) == Failed ==> status == Failed
        decreases numInFlight
      {
        WaitOne();
      }
    }

    // ----- preparing a dispatch -----

    lemma AcquireKeepsValid(c: Cache, extra': multiset<int>)
      requires Valid() && master == []
      requires WellFormed(c) && c.budget == cache.budget && (fits ==> Sized(c.lru, sizeOf))
      requires forall f :: RefCount(c.lru, f) + extra[f] == RefCount(cache.lru, f) + extra'[f]
      ensures Inv(su, Now().(cache := c, extra := extra'))
    {
      CacheStepKeepsInv(su, Now(), c, extra');
    }

    /** The answers of the operating system to the next attempt at mapping. */
    method NextAnswers() returns (answers: nat -> Oracle)
      requires Valid()
      modifies this`attempts
      ensures Valid() && attempts == old(attempts) + 1 && answers == os(old(attempts))
    {
      hide Inv, Sized, Fixed;
      answers := os(attempts);
      attempts := attempts + 1;
    }

    /** Maps the bindings of a dispatch in order, stopping at the first that
        cannot be mapped; returns how many are held. */
    method MapBindings(bindings: seq<Buffer>) returns (st: Status, held: nat)
      requires Idle()
      requires fits ==> AskedBySize(Requests(bindings), sizeOf)
      modifies this`mem, this`numCompleted, this`asleep, this`log, this`history, this`cache, this`extra, this`attempts,
        tasks
      ensures Valid() && !asleep && attempts == old(attempts) + 1 && OnlyRunningChanged()
      ensures (cache, st, held) == AcquireFirst(old(cache), Requests(bindings), |bindings|, os(old(attempts)))
      ensures extra == multiset(FdsOf(Requests(bindings)[..held]))
    {
      hide Inv, Fixed, AcquireFirst, Sized, WellFormed, Acquire, Valid, FdOf;
      var answers := NextAnswers();
      ghost var reqs := Requests(bindings);
      AcquireFirstNone(cache, reqs, answers);
      st, held := Success, 0;
      for k := 0 to |bindings|
        invariant Valid() && !asleep && OnlyRunningChanged()
        invariant st == Success && held == k && attempts == old(attempts) + 1
        invariant (cache, Success, k) == AcquireFirst(old(cache), reqs, k, answers)
        invariant extra == multiset(FdsOf(reqs[..k]))
      {
        AcquireFirstNext(old(cache), reqs, k, answers);
        st := MapNext(bindings[k].request, answers(k));
        if st != Success {
          AcquireFirstStuck(old(cache), reqs, k + 1, |reqs|, answers);
          return;
        }
        FdsOfPrefix(reqs, k + 1);
        held := k + 1;
      }
      assert reqs[..|bindings|] == reqs;
    }

    /** Maps one buffer at some later moment, workers having gone on until then. */
    method MapNext(request: Request, mmap: Oracle) returns (st: Status)
      requires Valid() && !asleep && master == []
      requires fits && request.Request? ==> request.size == sizeOf(request.fd) > 0
      modifies this`mem, this`numCompleted, this`asleep, this`log, this`history, this`cache, this`extra, tasks
      ensures Valid() && !asleep && OnlyRunningChanged()
      ensures request.Unresolved? ==> st == BadItem && cache == old(cache)
      ensures request.Request? ==>
        cache == Acquire(old(cache), request.fd, request.size, mmap).cache &&
        st == Acquire(old(cache), request.fd, request.size, mmap).status
      ensures extra == old(extra) + (if st == Success then multiset{FdOf(request)} else multiset{})
    {
      hide Valid, Acquire, FdOf;
      Interfere();
      st := MapOne(request, mmap);
    }

    /** Maps one resolved buffer, taking a reference the master holds. */
    method MapOne(request: Request, mmap: Oracle) returns (st: Status)
      requires Valid() && master == []
      requires fits && request.Request? ==> request.size == sizeOf(request.fd) > 0
      modifies this`cache, this`extra
      ensures Valid()
      ensures request.Unresolved? ==> st == BadItem && cache == old(cache)
      ensures request.Request? ==>
        cache == Acquire(old(cache), request.fd, request.size, mmap).cache &&
        st == Acquire(old(cache), request.fd, request.size, mmap).status
      ensures extra == old(extra) + (if st == Success then multiset{FdOf(request)} else multiset{})
    {
      hide Inv, Acquire, Sized, Fixed;
      if request.Unresolved? {
        return BadItem;
      }
      ghost var extra' := AfterAcquire(request, mmap);
      var a := Acquire(cache, request.fd, request.size, mmap);
      cache := a.cache;
      extra := extra';
      st := a.status;
    }

    lemma AfterAcquire(request: Request, mmap: Oracle) returns (extra': multiset<int>)
      requires Valid() && master == [] && request.Request?
      requires fits ==> request.size == sizeOf(request.fd) > 0
      ensures var a := Acquire(cache, request.fd, request.size, mmap);
        && extra' == extra + (if a.status == Success then multiset{request.fd} else multiset{})
        && Inv(su, Now().(cache := a.cache, extra := extra'))
        && a.cache.budget == cache.budget
        && (fits ==> Sized(a.cache.lru, sizeOf))
    {
      var a := Acquire(cache, request.fd, request.size, mmap);
      extra' := extra + (if a.status == Success then multiset{request.fd} else multiset{});
      Facts();
      hide Inv, WellFormed, Acquire, RefCount, Fixed;
      forall f ensures RefCount(a.cache.lru, f) + extra[f] == RefCount(cache.lru, f) + extra'[f] {
        AcquireConserves(cache, request.fd, request.size, mmap, f);
      }
      AcquireConserves(cache, request.fd, request.size, mmap, 0);
      if fits {
        AcquireInUse(cache, request.fd, request.size, mmap, sizeOf);
      }
      AcquireKeepsValid(a.cache, extra');
    }

    lemma AfterUnmap(fds: seq<int>, n: nat)
      requires Valid() && master == [] && n <= |fds| && extra == multiset(fds[..n])
      ensures var c := ReleaseFirst(cache, fds, n);
        && Inv(su, Now().(cache := c, extra := multiset{}))
        && c.budget == cache.budget
        && (fits ==> Sized(c.lru, sizeOf))
    {
      var c := ReleaseFirst(cache, fds, n);
      Facts();
      hide WellFormed, RefCount, Fixed, ReleaseFirst;
      ReleaseFirstWellFormed(cache, fds, n);
      ReleaseKeepsSizes(cache, fds, n, sizeOf);
      forall f ensures RefCount(c.lru, f) + extra[f] == RefCount(cache.lru, f) {
        ReleaseFirstConserves(cache, fds, n, f);
      }
      AcquireKeepsValid(c, multiset{});
    }

    /** The residency assumptions make a command's buffers fit. */
    lemma BuffersFit(k: nat, answers: nat -> Oracle, a: nat)
      requires Valid() && extra == multiset{} && fits && k < |commands| && answers == os(a)
      ensures var reqs := Requests(BuffersOf(commands[k]));
        var r := AcquireFirst(cache, reqs, |reqs|, answers);
        && r.1 in {Success, WouldBlock}
        && (numInFlight == 0 ==> r.1 == Success)
        && AskedBySize(reqs, sizeOf)
    {
      var reqs := Requests(BuffersOf(commands[k]));
      Facts();
      FittingNeverRefused(cache, reqs, |reqs|, answers, sizeOf);
      if numInFlight == 0 {
        NothingInFlightNothingHeld();
        InUseIsDistinctSize(cache, reqs, |reqs|, answers, sizeOf);
      }
    }

    lemma NothingInFlightNothingHeld()
      requires Valid() && extra == multiset{} && fits && numInFlight == 0
      ensures NoneHeld(cache.lru)
    {
      hide Valid;
      HeldByMaster();
    }

    /** Releases the first `held` bindings of dispatch `k`. */
    method UnmapBindings(k: nat, held: nat)
      requires Valid() && master == [] && k < |commands| && commands[k].Dispatch? && held <= |commands[k].bindings|
      requires extra == multiset(FdsOf(Requests(commands[k].bindings)[..held]))
      modifies this`cache, this`extra
      ensures Valid() && extra == multiset{}
    {
      hide Inv, Sized, FdsOf, ReleaseFirst;
      var fds := FdsOf(Requests(commands[k].bindings));
      FdsOfTake(Requests(commands[k].bindings), held);
      AfterUnmap(fds, held);
      Unmap(fds, held);
      extra := multiset{};
    }

    /** Maps the bindings of dispatch `k`. On failure nothing stays held. */
    method MapOrUnmap(k: nat) returns (st: Status)
      requires Idle() && k == done < |commands| && commands[k].Dispatch?
      modifies this`mem, this`numCompleted, this`asleep, this`log, this`history, this`cache, this`extra, this`attempts,
        tasks
      ensures Valid() && !asleep && OnlyRunningChanged()
      ensures extra == if st == Success then multiset(FdsOf(Requests(commands[k].bindings))) else multiset{}
      ensures st != Failed
      ensures fits ==> st in {Success, WouldBlock} && (numInFlight == 0 ==> st == Success)
    {
      hide Inv, AcquireFirst, Sized, Fixed, FdsOf, Valid, AskedBySize, OnlyRunningChanged, BuffersOf, Requests;
      if fits {
        BindingsFit(k);
      }
      var held;
      st, held := MapBindings(commands[k].bindings);
      if st != Success {
        UnmapBindings(k, held);
      } else {
        AllRequests(commands[k].bindings);
      }
    }

    /** Attempting to map the bindings of dispatch `k` from here on never fails
        otherwise than for lack of room, and not with nothing in flight. */
    lemma BindingsFit(k: nat)
      requires Idle() && fits && k < |commands| && commands[k].Dispatch?
      ensures var reqs := Requests(commands[k].bindings);
        var r := AcquireFirst(cache, reqs, |commands[k].bindings|, os(attempts));
        && r.1 in {Success, WouldBlock}
        && (numInFlight == 0 ==> r.1 == Success)
        && AskedBySize(reqs, sizeOf)
    {
      hide Inv, AcquireFirst, Sized, Fixed, FdsOf, Valid, AskedBySize;
      BuffersFit(k, os(attempts), attempts);
    }

    /** Maps the buffers of dispatch `k` and builds its task in the free slot
        `i`. On failure nothing stays held. */
    method PrepareDispatch(k: nat, i: nat) returns (st: Status)
      requires Idle() && k == done < |commands| && commands[k].Dispatch? && begun == k + 1
      requires i < tasks.Length && !tasks[i].inFlight
      modifies this`mem, this`numCompleted, this`asleep, this`log, this`history, this`cache, this`extra, this`attempts,
        tasks
      ensures Valid() && !asleep && !tasks[i].inFlight
      ensures if st == Success then Ready(k, i) else extra == multiset{}
      ensures st != Failed
      ensures fits ==> st in {Success, WouldBlock} && (numInFlight == 0 ==> st == Success)
    {
      hide FdsOf, Fixed, Inv, Requests, Sized, Valid;
      st := MapOrUnmap(k);
      if st == Success {
        FillSlot(i, Task(false, Running, commands[k].workgroups, true, FdsOf(Requests(commands[k].bindings)), 0, k));
      }
    }

    method FillSlot(i: nat, t: Task)
      requires Valid() && master == [] && i < tasks.Length && !tasks[i].inFlight && !t.inFlight
      modifies tasks
      ensures Valid() && tasks[i] == t && tasks[..] == old(tasks[..])[i := t]
    {
      hide Inv, Sized, Fixed;
      ScratchSlotKeepsInv(su, Now(), i, t);
      ghost var before := tasks[..];
      tasks[i] := t;
      assert tasks[..] == before[i := t];
    }

    // ----- executing commands -----

    /** Whether a contiguous partition of `n` bytes is free: certainly if nothing
        holds VTCM, certainly not if too little is free, otherwise it depends on
        fragmentation. */
    method PartitionAvailable(n: nat) returns (got: bool)
      requires Valid()
      ensures n == 0 ==> got
      ensures got && n > 0 ==> vtcmInUse + n <= poolSize
      ensures vtcmInUse == 0 && n <= poolSize ==> got
    {
      if n == 0 {
        return true;
      }
      if vtcmInUse + n > poolSize {
        return false;
      }
      if vtcmInUse == 0 {
        return true;
      }
      got := *;
    }

    lemma IdleHoldsNoVtcm()
      requires Valid() && masterVtcm == 0 && numInFlight == 0
      ensures vtcmInUse == 0
    {
      var s := Now();
      forall k | 0 <= k < |s.tasks| ensures !s.tasks[k].inFlight {
        NoneInFlight(su, s, k);
      }
      NoVtcmHeld(s.tasks);
    }

    /** Waits until a partition of `n` bytes can be carved out. A free pool
        always has room, so this ends. */
    method AwaitPartition(n: nat)
      requires Valid() && master == [] && !asleep && masterVtcm == 0 && n <= poolSize
      modifies this`mem, this`numCompleted, this`asleep, this`log, this`history, this`numInFlight, this`status,
        this`vtcmInUse, this`cache, tasks
      ensures Valid() && !asleep && numInFlight <= old(numInFlight)
      ensures vtcmInUse + n <= poolSize
      ensures forall j | 0 <= j < tasks.Length && !old(tasks[j].inFlight) :: tasks[j] == old(tasks[j])
    {
      hide Inv, Sized, Fixed;
      var got := PartitionAvailable(n);
      while !got
        invariant Valid() && !asleep && numInFlight <= old(numInFlight)
        invariant forall j | 0 <= j < tasks.Length && !old(tasks[j].inFlight) :: tasks[j] == old(tasks[j])
        invariant vtcmInUse == 0 ==> got
        invariant got && n > 0 ==> vtcmInUse + n <= poolSize
        decreases numInFlight
      {
        if numInFlight == 0 {
          IdleHoldsNoVtcm();
        }
        WaitOne();
        got := PartitionAvailable(n);
      }
      PoolNotExceeded();
    }

    lemma PoolNotExceeded()
      requires Valid()
      ensures vtcmInUse <= poolSize && Fixed()
    {
    }

    /** Waits for the partition of the dispatch in slot `i` and takes it. */
    method AcquirePartition(k: nat, i: nat)
      requires Valid() && !asleep && Ready(k, i) && masterVtcm == 0
      modifies this`mem, this`numCompleted, this`asleep, this`log, this`history, this`numInFlight, this`status,
        this`vtcmInUse, this`cache, this`masterVtcm, tasks
      ensures Valid() && !asleep && Ready(k, i) && numInFlight <= old(numInFlight)
    {
      hide Inv, Sized, Valid, FdsOf, Requests, Now, Fixed, PartitionOf;
      PoolNotExceeded();
      var n := PartitionOf(k);
      AwaitPartition(n);
      TakePartition(n);
      FillSlot(i, tasks[i].(vtcm := n));
    }

    function PartitionOf(k: nat): (n: nat)
      requires Fixed() && k < |commands| && commands[k].Dispatch?
      ensures n <= poolSize
    {
      RoundedFitsPool(commands[k].vtcm, poolSize);
      PartitionBytes(commands[k].vtcm, poolSize)
    }

    method TakePartition(n: nat)
      requires Valid() && master == [] && masterVtcm == 0 && vtcmInUse + n <= poolSize
      modifies this`vtcmInUse, this`masterVtcm
      ensures Valid() && masterVtcm == n
    {
      hide Inv, Sized;
      VtcmStepKeepsInv(su, Now(), n);
      vtcmInUse := vtcmInUse + n;
      masterVtcm := n;
    }

    /** Slot `i` holds dispatch `k`, prepared. */
    ghost predicate Ready(k: nat, i: nat)
      reads this, tasks
    {
      && k == done < |commands| && commands[k].Dispatch? && begun == k + 1
      && master == [] && masterGood && !masterBusy
      && i < tasks.Length
      && tasks[i] == Task(false, Running, commands[k].workgroups, true, FdsOf(Requests(commands[k].bindings)), masterVtcm, k)
      && extra == multiset(tasks[i].held)
    }

    /** The master executes one work of its own. */
    method RunMasterWork(w: Work) returns (ok: bool)
      requires Valid() && !asleep && master != [] && master[0] == w
      modifies this`mem, this`log, this`history, this`master, this`masterGood
      ensures Valid()
      ensures Now() == MasterStep(old(Now()))
      ensures ok == Succeeds(w, old(mem)) && !asleep
      ensures master == (if ok then old(master)[1..] else []) && masterGood == ok
    {
      hide Inv, Sized, Fixed, Succeeds, Apply, MappedFds;
      MasterStepKeepsInv(su, Now());
      ok := Succeeds(w, mem);
      log, history := log + [Ran(w, MappedFds(cache.lru), done - 1)], history + [Worked(done - 1)];
      mem := Apply(w, mem);
      master := if ok then master[1..] else [];
      masterGood := ok;
      assert Now() == MasterStep(old(Now()));
    }

    /** Executes all workgroups of a dispatch on the master, workers running in
        between. Stops at the first that fails. */
    method RunDispatch(ws: seq<Work>) returns (ok: bool)
      requires Valid() && !asleep && master == ws && masterGood
      modifies this`mem, this`numCompleted, this`asleep, this`log, this`history, this`master, this`masterGood, tasks
      ensures Valid() && !asleep && master == [] && masterGood == ok && OnlyRunningChanged()
      ensures (forall w, m | w in ws :: Succeeds(w, m)) ==> ok
    {
      hide Inv, Sized, Fixed, Now, MasterStep, Valid;
      for j := 0 to |ws|
        invariant Valid() && !asleep && master == ws[j..] && masterGood && OnlyRunningChanged()
      {
        Interfere();
        assert ws[j] in ws;
        ok := RunMasterWork(ws[j]);
        if !ok {
          return;
        }
      }
      ok := true;
    }

    /** Runs the prepared dispatch in slot `i` on the master. */
    method RunHere(k: nat, i: nat)
      requires Valid() && !asleep && Ready(k, i) && numInFlight < slots
      modifies this`mem, this`numCompleted, this`asleep, this`log, this`history, this`status, this`vtcmInUse,
        this`cache, this`master, this`masterGood, this`masterBusy, this`masterVtcm, this`extra, this`done, tasks
      ensures Idle() && done == k + 1
    {
      hide FdsOf, Inv, Requests, Sized, Valid;
      StartHere(k, i);
      var ok := RunDispatch(commands[k].workgroups);
      Interfere();
      FillSlot(i, tasks[i].(state := if ok then Succeeded else TaskFailed));
      FinishHere(i);
    }

    ghost method StartHere(k: nat, i: nat)
      requires Valid() && !asleep && Ready(k, i) && numInFlight < slots
      modifies this`master, this`masterBusy, this`done
      ensures Valid() && master == commands[k].workgroups && done == k + 1
    {
      hide Inv, Sized, Ready, HoldsBuffers, WellDeclared, Fitting;
      ReadyHolds(k, i);
      StartInlineKeepsInv(su, Now());
      master, masterBusy, done := commands[k].workgroups, true, done + 1;
      assert Now() == StartInline(su, old(Now()));
    }

    lemma ReadyHolds(k: nat, i: nat)
      requires Valid() && Ready(k, i)
      ensures HoldsBuffers(su, Now()) && k == done < |commands|
      ensures commands[k].Dispatch? && WorksOf(commands[k]) == commands[k].workgroups
    {
      hide Inv, Sized, BuffersOf, RequestFd, FdsOf, Requests, WellDeclared, Fitting;
      BindingsHeld(commands[k]);
    }

    method FinishHere(i: nat)
      requires Valid() && !asleep && Executed(Now(), i)
      modifies this`status, this`history, this`vtcmInUse, this`cache, this`masterGood, this`masterBusy,
        this`masterVtcm, this`extra, tasks
      ensures Idle()
    {
      hide Inv, Sized, Fixed, FinishSlot;
      ghost var s := Now();
      FinishInlineKeepsInv(su, s, i);
      ClaimKeepsSizes(s, i);
      FinishDispatch(i);
      FinishSlotKeeps(s, i);
      masterGood, masterBusy, masterVtcm, extra := true, false, 0, multiset{};
      assert Now() == FinishInline(s, i);
    }

    lemma FinishSlotKeeps(s: State, i: nat)
      requires i < |s.tasks| && s.tasks[i].vtcm <= s.vtcmInUse
      ensures var t := FinishSlot(s, i);
        t.asleep == s.asleep && t.master == s.master && |t.tasks| == |s.tasks|
    {
    }

    /** Submits the prepared dispatch in slot `i` to a worker. */
    method SubmitToWorker(k: nat, i: nat)
      requires Valid() && !asleep && Ready(k, i) && numInFlight < slots
      modifies this`numInFlight, this`masterVtcm, this`extra, this`done, tasks
      ensures Idle() && done == k + 1
    {
      hide Inv, Sized, FdsOf, Requests;
      SubmitKeepsInv(su, Now(), i);
      ghost var before := tasks[..];
      tasks[i] := tasks[i].(state := Running, inFlight := true);
      assert tasks[..] == before[i := tasks[i]];
      numInFlight := numInFlight + 1;
      masterVtcm, extra, done := 0, multiset{}, done + 1;
      assert Now() == Submit(old(Now()), i);
    }

    lemma SomeFreeSlot() returns (c: nat)
      requires Valid() && numInFlight < slots
      ensures c < tasks.Length && !tasks[c].inFlight
    {
      c := FreeSlotExists(su, Now());
      assert Now().tasks[c] == tasks[c];
    }

    method FindFreeSlot() returns (i: nat)
      requires Valid() && numInFlight < slots
      ensures i < tasks.Length && !tasks[i].inFlight
    {
      hide Inv, Sized, Fixed;
      ghost var c := SomeFreeSlot();
      i := 0;
      while tasks[i].inFlight
        invariant i <= c < tasks.Length && !tasks[c].inFlight
        decreases c - i
      {
        i := i + 1;
      }
    }

    /** Waits for a free execution slot, which comes with a free task slot. */
    method AwaitSlot() returns (i: nat)
      requires Idle()
      modifies this`mem, this`numCompleted, this`asleep, this`log, this`history, this`numInFlight, this`status,
        this`vtcmInUse, this`cache, tasks
      ensures Idle() && numInFlight < slots && i < tasks.Length && !tasks[i].inFlight
    {
      hide Fixed, Inv, Sized, Valid;
      while numInFlight >= slots
        invariant Idle()
        decreases numInFlight
      {
        AtLeastOneSlot();
        WaitOne();
      }
      i := FindFreeSlot();
    }

    lemma AtLeastOneSlot()
      requires Valid()
      ensures slots >= 1
    {
    }

    /** Prepares dispatch `k` in slot `i`; while its buffers do not fit next to
        those in flight, waits for one dispatch to finish and tries again. */
    method PrepareWaiting(k: nat, i: nat) returns (st: Status)
      requires Idle() && k == done < |commands| && begun == k + 1 && commands[k].Dispatch?
      requires numInFlight < slots && i < tasks.Length && !tasks[i].inFlight
      modifies this`mem, this`numCompleted, this`asleep, this`log, this`history, this`numInFlight, this`status,
        this`vtcmInUse, this`cache, this`extra, this`attempts, tasks
      ensures Valid() && !asleep && numInFlight < slots
      ensures if st == Success then Ready(k, i) else extra == multiset{}
      ensures st != WouldBlock && st != Failed
      ensures fits ==> st == Success
    {
      hide FdsOf, Fixed, Inv, Requests, Sized, Valid, Ready;
      st := PrepareDispatch(k, i);
      while st == WouldBlock && numInFlight > 0
        invariant Valid() && !asleep && numInFlight < slots && !tasks[i].inFlight
        invariant if st == Success then Ready(k, i) else extra == multiset{}
        invariant st != Failed
        invariant fits ==> st in {Success, WouldBlock} && (numInFlight == 0 ==> st == Success)
        decreases numInFlight
      {
        WaitOne();
        st := PrepareDispatch(k, i);
      }
      if st == WouldBlock {
        st := NoMemory;
      }
    }

    /** Executes dispatch `k`: waits for a slot, maps its buffers, takes its
        VTCM, then runs it here or hands it to a worker. */
    method ExecDispatch(k: nat) returns (st: Status)
      requires Idle() && k == done < |commands| && begun == k + 1 && commands[k].Dispatch?
      modifies this, tasks
      ensures Idle() && tasks == old(tasks) && begun == old(begun)
      ensures st == Success ==> done == k + 1
      ensures st != Success ==> k <= done <= k + 1
      ensures st != WouldBlock
      ensures st == Failed ==> status == Failed
      ensures fits ==> st in {Success, Failed}
    {
      hide FdsOf, Fixed, Inv, Requests, Sized, Valid;
      var i := AwaitSlot();
      st := PrepareWaiting(k, i);
      if st != Success {
        return;
      }
      AcquirePartition(k, i);
      if commands[k].usesHmx || slots == 1 {
        RunHere(k, i);
        st := status;
        StatusIsKnown();
      } else {
        SubmitToWorker(k, i);
      }
    }

    lemma StatusIsKnown()
      requires Valid()
      ensures status in {Success, Failed}
      ensures done <= begun <= done + 1 && done <= |commands|
    {
    }

    /** Executes barrier `k`: waits until nothing is in flight. */
    method ExecBarrier(k: nat)
      requires Idle() && k == done < |commands| && begun == k + 1 && commands[k].Barrier?
      modifies this`mem, this`numCompleted, this`asleep, this`log, this`history, this`numInFlight, this`status,
        this`vtcmInUse, this`cache, this`done, tasks
      ensures Idle() && done == k + 1 && numInFlight == 0
    {
      hide Inv, Sized;
      Drain();
      PassBarrierKeepsInv(su, Now());
      done := done + 1;
    }

    /** Under the residency assumptions `request` fits next to the at most one
        buffer the master holds. */
    ghost predicate Roomy(request: Request)
      reads this
    {
      && request.Request? && request.size == sizeOf(request.fd) > 0 && request.size <= budget
      && (extra == multiset{}
          || exists f :: extra == multiset{f} && (f == request.fd || sizeOf(f) + request.size <= budget))
    }

    lemma RoomyIsMapped(request: Request)
      requires Valid() && fits && Roomy(request)
      ensures var st := Acquire(cache, request.fd, request.size, os(attempts)(0)).status;
        st in {Success, WouldBlock} && (numInFlight == 0 ==> st == Success)
    {
      Facts();
      var mmap := os(attempts)(0);
      if !Mapped(cache.lru, request.fd) {
        hide Acquire, InUseSum, Inv;
        MissOutcome(cache, request.fd, request.size, mmap);
        if numInFlight == 0 {
          InUseIsExtra(request.fd);
        }
      }
    }

    lemma InUseIsExtra(fd: int)
      requires Valid() && fits && numInFlight == 0 && !Mapped(cache.lru, fd)
      ensures extra == multiset{} ==> InUseSum(cache.lru) == 0
      ensures forall f | extra == multiset{f} :: f != fd && InUseSum(cache.lru) <= sizeOf(f)
    {
      hide Inv, InUseSum, IndexOf;
      HeldByMaster();
      Facts();
      if extra == multiset{} {
        NothingInUse(cache.lru);
      }
      forall f | extra == multiset{f} ensures f != fd && InUseSum(cache.lru) <= sizeOf(f) {
        assert RefCount(cache.lru, f) == 1;
        InUseOfOne(cache.lru, f, sizeOf);
      }
    }

    /** With nothing in flight only the master holds references. */
    lemma HeldByMaster()
      requires Valid() && fits && numInFlight == 0
      ensures forall f :: RefCount(cache.lru, f) == extra[f]
      ensures forall e | e in cache.lru :: e.refCount == extra[e.fd]
    {
      hide RefCount, WellFormed, Issued, Failure, Logged, Refines, Sized, WellDeclared, Fitting, MappingSucceeds;
      var s := Now();
      forall k | 0 <= k < |s.tasks| ensures !s.tasks[k].inFlight {
        NoneInFlight(su, s, k);
      }
      forall f ensures RefCount(cache.lru, f) == extra[f] {
        NothingHeld(s.tasks, f);
      }
      forall e | e in cache.lru ensures e.refCount == extra[e.fd] {
        EntryCounts(e);
      }
    }

    lemma EntryCounts(e: Entry)
      requires WellFormed(cache) && e in cache.lru
      ensures RefCount(cache.lru, e.fd) == e.refCount
    {
      var i :| 0 <= i < |cache.lru| && cache.lru[i] == e;
      EntryOf(cache, i);
    }

    /** One attempt at mapping a buffer of a copy or fill. */
    method TryMap(request: Request) returns (st: Status)
      requires Valid() && !asleep && master == [] && (fits ==> Roomy(request))
      modifies this`mem, this`numCompleted, this`asleep, this`log, this`history, this`cache, this`extra, this`attempts,
        tasks
      ensures Valid() && !asleep
      ensures extra == old(extra) + (if st == Success then multiset{FdOf(request)} else multiset{})
      ensures st != Failed
      ensures fits ==> st in {Success, WouldBlock} && (numInFlight == 0 ==> st == Success)
    {
      hide Inv, Sized, Acquire, Fixed;
      Interfere();
      if fits {
        RoomyIsMapped(request);
      }
      st := MapOne(request, os(attempts)(0));
      attempts := attempts + 1;
    }

    /** Maps one buffer of a copy or fill; if it does not fit next to the
        dispatches in flight, drains them and tries once more. */
    method MapAfterDrain(request: Request) returns (st: Status)
      requires Valid() && !asleep && master == [] && (fits ==> Roomy(request))
      modifies this`mem, this`numCompleted, this`asleep, this`log, this`history, this`numInFlight, this`status,
        this`vtcmInUse, this`cache, this`extra, this`attempts, tasks
      ensures Valid() && !asleep
      ensures extra == old(extra) + (if st == Success then multiset{FdOf(request)} else multiset{})
      ensures st != WouldBlock && st != Failed
      ensures fits ==> st == Success
    {
      hide Valid, FdOf;
      st := TryMap(request);
      if st == WouldBlock {
        Drain();
        st := TryMap(request);
      }
      if st == WouldBlock {
        st := NoMemory;
      }
    }

    /** Releases a reference the master holds. */
    method UnmapOne(fd: int)
      requires Valid() && master == [] && fd in extra
      modifies this`cache, this`extra
      ensures Valid() && extra == old(extra) - multiset{fd}
    {
      hide Inv, Fixed, Release, RefCount, WellFormed;
      AfterRelease(fd);
      cache := Release(cache, fd);
      extra := extra - multiset{fd};
    }

    lemma AfterRelease(fd: int)
      requires Valid() && master == [] && fd in extra
      ensures var c := Release(cache, fd);
        && Inv(su, Now().(cache := c, extra := extra - multiset{fd}))
        && c.budget == cache.budget
        && (fits ==> Sized(c.lru, sizeOf))
    {
      var c := Release(cache, fd);
      var extra' := extra - multiset{fd};
      ReleaseKeepsSizes(cache, [fd], 1, sizeOf);
      assert ReleaseFirst(cache, [fd], 1) == c;
      forall f ensures RefCount(c.lru, f) + extra[f] == RefCount(cache.lru, f) + extra'[f] {
        ReleaseConserves(cache, fd, f);
      }
      ReleaseConserves(cache, fd, fd);
      AcquireKeepsValid(c, extra');
    }

    ghost method StartTransfer(k: nat)
      requires Valid() && HoldsBuffers(su, Now()) && k == done && !commands[k].Dispatch?
      modifies this`master, this`masterBusy, this`done
      ensures Valid() && master == WorksOf(commands[k]) && done == k + 1 && !masterBusy
    {
      hide Inv, Sized, WorksOf, BuffersOf;
      StartInlineKeepsInv(su, Now());
      master, masterBusy, done := WorksOf(commands[k]), false, done + 1;
      assert Now() == StartInline(su, old(Now()));
    }

    lemma TransferRoom(k: nat)
      requires Valid() && fits && k < |commands|
      ensures commands[k].Copy? && extra == multiset{} ==> Roomy(commands[k].source.request)
      ensures commands[k].Copy? && extra == multiset{FdOf(commands[k].source.request)} ==> Roomy(commands[k].target.request)
      ensures commands[k].Fill? && extra == multiset{} ==> Roomy(commands[k].destination.request)
    {
      hide Valid, Roomy, Together, FdOf;
      BuffersAsked(k);
      if commands[k].Copy? {
        PairIsRoomy(commands[k].source.request, commands[k].target.request);
      } else if commands[k].Fill? {
        OneIsRoomy(commands[k].destination.request);
      }
    }

    lemma BuffersAsked(k: nat)
      requires Valid() && fits && k < |commands|
      ensures commands[k].Copy? ==> Together([commands[k].source.request, commands[k].target.request])
      ensures commands[k].Fill? ==> Together([commands[k].destination.request])
    {
      hide Inv, Sized, WellDeclared, DistinctSize, AskedBySize;
      assert commands[k].Copy? ==>
        Requests(BuffersOf(commands[k])) == [commands[k].source.request, commands[k].target.request];
      assert commands[k].Fill? ==> Requests(BuffersOf(commands[k])) == [commands[k].destination.request];
    }

    /** The buffers of the requests fit into the budget together. */
    ghost predicate Together(reqs: seq<Request>) {
      AskedBySize(reqs, sizeOf) && DistinctSize(reqs, |reqs|) <= budget
    }

    lemma OneIsRoomy(r: Request)
      requires Together([r])
      ensures extra == multiset{} ==> Roomy(r)
    {
      assert [r][0] == r && DistinctSize([r], 0) == 0;
    }

    lemma PairIsRoomy(r: Request, q: Request)
      requires Together([r, q])
      ensures extra == multiset{} ==> Roomy(r)
      ensures extra == multiset{FdOf(r)} ==> Roomy(q)
    {
      var reqs := [r, q];
      assert reqs[0] == r && reqs[1] == q && reqs[..1] == [r];
      assert DistinctSize(reqs, 0) == 0 && DistinctSize(reqs, 1) == r.size;
      assert FdsOf([r]) == [FdOf(r)];
    }

    /** Maps both buffers of copy `k`, or none. */
    method MapPair(k: nat) returns (st: Status)
      requires Idle() && k < |commands| && commands[k].Copy?
      modifies this`mem, this`numCompleted, this`asleep, this`log, this`history, this`numInFlight, this`status,
        this`vtcmInUse, this`cache, this`extra, this`attempts, tasks
      ensures Valid() && !asleep
      ensures extra ==
        if st == Success then multiset{FdOf(commands[k].source.request)} + multiset{FdOf(commands[k].target.request)}
        else multiset{}
      ensures st != WouldBlock && st != Failed
      ensures fits ==> st == Success
    {
      hide Inv, Sized, Fixed, Roomy, Valid, FdOf;
      if fits {
        TransferRoom(k);
      }
      st := MapAfterDrain(commands[k].source.request);
      if st != Success {
        return;
      }
      if fits {
        TransferRoom(k);
      }
      st := MapAfterDrain(commands[k].target.request);
      if st != Success {
        UnmapOne(FdOf(commands[k].source.request));
      }
    }

    /** Copies byte by byte, workers running in between, and unmaps. */
    method CopyMapped(k: nat)
      requires Valid() && !asleep && k == done < |commands| && begun == k + 1 && commands[k].Copy?
      requires master == [] && masterGood && !masterBusy
      requires extra == multiset{FdOf(commands[k].source.request)} + multiset{FdOf(commands[k].target.request)}
      modifies this`mem, this`numCompleted, this`asleep, this`log, this`history, this`master, this`masterGood,
        this`masterBusy, this`cache, this`extra, this`done, tasks
      ensures Valid() && !asleep && done == k + 1 && extra == multiset{}
      ensures master == [] && masterGood && !masterBusy
    {
      hide Inv, Sized, Fixed, Valid, Now, WorksOf, FdOf, BuffersOf, Requests, FdsOf, RequestFd;
      StartTransferOf(k);
      CopyBytes(k);
      UnmapPair(FdOf(commands[k].source.request), FdOf(commands[k].target.request));
    }

    method UnmapPair(a: int, b: int)
      requires Valid() && master == [] && extra == multiset{a} + multiset{b}
      modifies this`cache, this`extra
      ensures Valid() && extra == multiset{}
    {
      hide Valid;
      UnmapOne(b);
      assert extra == multiset{a};
      UnmapOne(a);
    }

    method CopyBytes(k: nat)
      requires Valid() && !asleep && masterGood
      requires k < |commands| && commands[k].Copy? && master == WorksOf(commands[k])
      modifies this`mem, this`numCompleted, this`asleep, this`log, this`history, this`master, this`masterGood, tasks
      ensures Valid() && !asleep && master == [] && masterGood
    {
      hide Valid, CopyWorks;
      CopyNeverFails(commands[k].source, commands[k].target);
      var ok := RunDispatch(CopyWorks(commands[k].source, commands[k].target));
    }

    /** Executes copy `k` on the master. */
    method ExecCopy(k: nat) returns (st: Status)
      requires Idle() && k == done < |commands| && begun == k + 1 && commands[k].Copy?
      modifies this, tasks
      ensures Idle() && tasks == old(tasks) && begun == old(begun)
      ensures done == if st == Success then k + 1 else k
      ensures st != WouldBlock && st != Failed
      ensures fits ==> st == Success
    {
      hide Inv, Sized, Fixed, Valid, Now, FdOf;
      st := MapPair(k);
      if st == Success {
        CopyMapped(k);
      }
    }

    ghost method StartTransferOf(k: nat)
      requires Valid() && k == done < |commands| && begun == k + 1 && master == [] && masterGood && !masterBusy
      requires commands[k].Copy? || commands[k].Fill?
      requires commands[k].Copy? ==> FdOf(commands[k].source.request) in extra && FdOf(commands[k].target.request) in extra
      requires commands[k].Fill? ==> FdOf(commands[k].destination.request) in extra
      modifies this`master, this`masterBusy, this`done
      ensures Valid() && master == WorksOf(commands[k]) && done == k + 1 && !masterBusy
    {
      assert HoldsBuffers(su, Now());
      StartTransfer(k);
    }

    method MapTarget(k: nat) returns (st: Status)
      requires Idle() && k < |commands| && commands[k].Fill?
      modifies this`mem, this`numCompleted, this`asleep, this`log, this`history, this`numInFlight, this`status,
        this`vtcmInUse, this`cache, this`extra, this`attempts, tasks
      ensures Valid() && !asleep
      ensures extra == if st == Success then multiset{FdOf(commands[k].destination.request)} else multiset{}
      ensures st != WouldBlock && st != Failed
      ensures fits ==> st == Success
    {
      hide Inv, Sized, Fixed, Roomy, Valid, FdOf;
      if fits {
        TransferRoom(k);
      }
      st := MapAfterDrain(commands[k].destination.request);
    }

    method FillMapped(k: nat)
      requires Valid() && !asleep && k == done < |commands| && begun == k + 1 && commands[k].Fill?
      requires master == [] && masterGood && !masterBusy
      requires extra == multiset{FdOf(commands[k].destination.request)}
      modifies this`mem, this`numCompleted, this`asleep, this`log, this`history, this`master, this`masterGood,
        this`masterBusy, this`cache, this`extra, this`done, tasks
      ensures Valid() && !asleep && done == k + 1 && extra == multiset{}
      ensures master == [] && masterGood && !masterBusy
    {
      hide Inv, Sized, Fixed, Valid, Now, WorksOf, FdOf;
      StartTransferOf(k);
      FillBytes(k);
      UnmapOne(FdOf(commands[k].destination.request));
    }

    /** Executes fill `k` on the master. */
    method ExecFill(k: nat) returns (st: Status)
      requires Idle() && k == done < |commands| && begun == k + 1 && commands[k].Fill?
      modifies this, tasks
      ensures Idle() && tasks == old(tasks) && begun == old(begun)
      ensures done == if st == Success then k + 1 else k
      ensures st != WouldBlock && st != Failed
      ensures fits ==> st == Success
    {
      hide Inv, Sized, Fixed, Valid, Now, FdOf;
      st := MapTarget(k);
      if st == Success {
        FillMapped(k);
      }
    }

    /** Stores the bytes of fill `k` one by one, workers running in between. */
    method FillBytes(k: nat)
      requires Valid() && !asleep && masterGood
      requires k < |commands| && commands[k].Fill? && master == WorksOf(commands[k])
      modifies this`mem, this`numCompleted, this`asleep, this`log, this`history, this`master, this`masterGood, tasks
      ensures Valid() && !asleep && master == [] && masterGood
    {
      PatternHasFourBytes(k);
      var count, patternLength := commands[k].count, commands[k].patternLength;
      hide Valid, WorksOf;
      var p := 0;
      for i := 0 to count
        invariant Valid() && !asleep && masterGood
        invariant master == WorksOf(commands[k])[i..]
        invariant p == if patternLength == 0 then 0 else i % patternLength
      {
        StoreNext(k, i, p);
        NextPosition(i, patternLength);
        p := p + 1;
        if p >= patternLength {
          p := 0;
        }
      }
    }

    lemma PatternHasFourBytes(k: nat)
      requires Valid() && k < |commands| && commands[k].Fill?
      ensures |commands[k].pattern| == 4 && commands[k].patternLength <= 4
      ensures |WorksOf(commands[k])| == commands[k].count
    {
    }

    /** Stores byte `i` of fill `k`, taken from position `p` of the pattern. */
    method StoreNext(k: nat, i: nat, p: nat)
      requires Valid() && !asleep && masterGood
      requires k < |commands| && commands[k].Fill? && i < commands[k].count
      requires |commands[k].pattern| == 4 && commands[k].patternLength <= 4
      requires master == WorksOf(commands[k])[i..]
      requires p == if commands[k].patternLength == 0 then 0 else i % commands[k].patternLength
      modifies this`mem, this`numCompleted, this`asleep, this`log, this`history, this`master, this`masterGood, tasks
      ensures Valid() && !asleep && masterGood && master == WorksOf(commands[k])[i + 1..]
    {
      hide Valid, Now, MasterStep, WorksOf;
      Interfere();
      var to := Loc(RequestFd(commands[k].destination), commands[k].destination.offset + i);
      var w := StoreByte(to, commands[k].pattern[p]);
      FillWorkAt(commands[k], i, p);
      StoreByteAt(to, commands[k].pattern[p], mem, to);
      var ok := RunMasterWork(w);
    }

    // ----- the end -----

    /** With everything drained, the state is what the in-order interpreter and
        the starting references say. */
    lemma AtRest()
      requires Idle() && numInFlight == 0
      ensures WellFormed(cache) && cache.budget == budget
      ensures forall f :: RefCount(cache.lru, f) == su.base(f)
      ensures mem == ReplayLog(log, su.mem0) && AllBelong(commands, log) && (Confined(commands) ==> AllMapped(log))
      ensures BarriersKept(commands, log) && Works(history) == CmdsOf(log)
      ensures NoneBegunAfterFailure(history) && BegunFirst(history)
      ensures done <= |commands| && status in {Success, Failed} && (status == Failed <==> SawFailure(history))
      ensures IndependentBetweenBarriers(commands) ==>
        (status == Success <==> Interpret(commands, done, su.mem0).ok) &&
        (status == Success ==> mem == Interpret(commands, done, su.mem0).mem)
    {
      Quiescent(su, Now());
    }

    /** Walks all commands and waits for everything in flight, also on error.
        Once a failure was noticed no further command was begun. */
    method WalkAndDrain() returns (st: Status)
      requires Idle() && done == begun == 0
      modifies this, tasks
      ensures Idle() && numInFlight == 0
      ensures WellFormed(cache) && cache.budget == budget
      ensures forall f :: RefCount(cache.lru, f) == su.base(f)
      ensures mem == ReplayLog(log, su.mem0) && AllBelong(commands, log) && (Confined(commands) ==> AllMapped(log))
      ensures BarriersKept(commands, log) && Works(history) == CmdsOf(log)
      ensures NoneBegunAfterFailure(history) && BegunFirst(history)
      ensures st == Failed ==> SawFailure(history)
      ensures st == Success ==> !SawFailure(history)
      ensures IndependentBetweenBarriers(commands) && st == Success ==>
        Interpret(commands, |commands|, su.mem0).ok && mem == Interpret(commands, |commands|, su.mem0).mem
      ensures IndependentBetweenBarriers(commands) && st == Failed ==> !Interpret(commands, |commands|, su.mem0).ok
      ensures st != WouldBlock
      ensures fits ==> st in {Success, Failed}
    {
      hide Valid, WellFormed, RefCount, AllBelong, AllMapped, ReplayLog, Confined, IndependentBetweenBarriers, Interpret,
        BarriersKept, Works, CmdsOf, NoneBegunAfterFailure, BegunFirst, SawFailure;
      st := WalkCmds();
      Drain();
      AtRest();
      if st == Success {
        st := status;
      }
      if !Interpret(commands, done, su.mem0).ok {
        InterpretStaysFailed(commands, done, |commands|, su.mem0);
      }
    }

    // ----- the walk -----

    ghost method BeginCommand()
      requires Idle() && begun == done < |commands| && status == Success
      modifies this`begun, this`history
      ensures Idle() && begun == done + 1
    {
      hide Inv, Sized;
      BeginKeepsInv(su, Now());
      begun, history := begun + 1, history + [Began(begun)];
    }

    /** Walks the commands in order until one fails or a failed dispatch has been
        noticed. Dispatches may still be in flight afterwards. */
    method WalkCmds() returns (st: Status)
      requires Idle() && done == begun == 0
      modifies this, tasks
      ensures Idle() && tasks == old(tasks)
      ensures st == Success ==> done == |commands|
      ensures st != WouldBlock
      ensures st == Failed ==> status == Failed
      ensures fits ==> st in {Success, Failed}
    {
      hide Fixed, Inv, Sized, Valid;
      for idx := 0 to |commands|
        invariant Idle() && tasks == old(tasks) && done == begun == idx
      {
        StatusIsKnown();
        if status != Success {
          return status;
        }
        Interfere();
        BeginCommand();
        st := ExecCommand(idx);
        if st != Success {
          return;
        }
      }
      st := Success;
    }

    method ExecCommand(k: nat) returns (st: Status)
      requires Idle() && k == done < |commands| && begun == k + 1
      modifies this, tasks
      ensures Idle() && tasks == old(tasks) && begun == old(begun)
      ensures st == Success ==> done == k + 1
      ensures st != WouldBlock
      ensures st == Failed ==> status == Failed
      ensures fits ==> st in {Success, Failed}
    {
      DeclaredOf(k);
      hide Fixed, Inv, Sized, Valid;
      match commands[k]
      case Dispatch(_, _, _, _) => st := ExecDispatch(k);
      case Barrier =>
        ExecBarrier(k);
        st := Success;
      case Copy(_, _) => st := ExecCopy(k);
      case Fill(_, _, _, _) => st := ExecFill(k);
      case Malformed(e) => st := e;
    }

    lemma DeclaredOf(k: nat)
      requires Valid() && k < |commands|
      ensures commands[k].Malformed? ==> !fits && commands[k].status in {BadItem, IncompleteItem, BadParm}
    {
    }
  }

  lemma {:induction false} ReleaseKeepsSizes(c: Cache, fds: seq<int>, n: nat, sizeOf: int -> nat)
    requires n <= |fds|
    ensures ReleaseFirst(c, fds, n).budget == c.budget
    ensures Sized(c.lru, sizeOf) ==> Sized(ReleaseFirst(c, fds, n).lru, sizeOf)
    decreases n
  {
    if n > 0 {
      ReleaseKeepsSizes(c, fds, n - 1, sizeOf);
      var c' := ReleaseFirst(c, fds, n - 1);
      var i := IndexOf(c'.lru, fds[n - 1]);
      assert forall e | e in Release(c', fds[n - 1]).lru ::
        e in c'.lru || (i < |c'.lru| && e == c'.lru[i].(refCount := e.refCount));
    }
  }

  lemma AllRequests(bindings: seq<Buffer>)
    ensures Requests(bindings)[..|bindings|] == Requests(bindings)
  {
  }

  lemma FdsOfTake(reqs: seq<Request>, n: nat)
    requires n <= |reqs|
    ensures n <= |FdsOf(reqs)| && FdsOf(reqs)[..n] == FdsOf(reqs[..n])
  {
  }

  lemma {:induction false} NoVtcmHeld(ts: seq<Task>)
    requires forall k | 0 <= k < |ts| :: !ts[k].inFlight
    ensures Sum(ts, VtcmUnit) == 0
    decreases |ts|
  {
    if ts != [] {
      NoVtcmHeld(ts[1..]);
    }
  }

  lemma CopyNeverFails(source: Buffer, target: Buffer)
    ensures forall w, m | w in CopyWorks(source, target) :: Succeeds(w, m)
  {
    forall w, m | w in CopyWorks(source, target) ensures Succeeds(w, m) {
      var i :| 0 <= i < |CopyWorks(source, target)| && CopyWorks(source, target)[i] == w;
      assert w == CopyByte(Loc(RequestFd(source), source.offset + i), Loc(RequestFd(target), target.offset + i));
    }
  }

  lemma FillWorkAt(c: Command, i: nat, p: nat)
    requires c.Fill? && i < c.count && |c.pattern| == 4 && c.patternLength <= 4
    requires p == if c.patternLength == 0 then 0 else i % c.patternLength
    ensures i < |WorksOf(c)|
    ensures WorksOf(c)[i] == StoreByte(Loc(RequestFd(c.destination), c.destination.offset + i), c.pattern[p])
  {
    hide StoreByte, RequestFd;
  }

  lemma NextPosition(i: nat, n: nat)
    requires n <= 4
    ensures n > 0 ==> (i + 1) % n == if i % n + 1 >= n then 0 else i % n + 1
  {
  }

  // ----- whole executions -----

  /** The in-order interpreter stays failed. */
  lemma {:induction false} InterpretStaysFailed(cmds: seq<Command>, k: nat, n: nat, m: Mem)
    requires k <= n <= |cmds| && !Interpret(cmds, k, m).ok
    ensures !Interpret(cmds, n, m).ok
    decreases n - k
  {
    if k < n {
      InterpretStaysFailed(cmds, k, n - 1, m);
    }
  }

  /** Executes a list of commands with up to `maxConcurrent` dispatches at a
      time, under any interleaving with the workers, any answers of the
      operating system, and any fragmentation of VTCM. */
  method ExecCmds(cmds: seq<Command>, maxConcurrent: nat, poolSize: nat, os: MapAnswers, cache: Cache, mem: Mem,
                  ghost fits: bool, ghost sizeOf: int -> nat)
    returns (st: Status, finalMem: Mem, finalCache: Cache, ghost log: seq<Ran>, ghost history: seq<Moment>)
    requires poolSize % VTCM_GRANULE == 0 && WellDeclared(cmds, poolSize) && WellFormed(cache)
    requires fits ==> Fitting(cmds, cache.budget, sizeOf) && MappingSucceeds(os) && Sized(cache.lru, sizeOf)
    requires fits ==> NoneHeld(cache.lru)
    // a request to wait never reaches the host
    ensures st != WouldBlock
    // every reference taken is given back, on success and on failure
    ensures WellFormed(finalCache) && finalCache.budget == cache.budget
    ensures forall f :: RefCount(finalCache.lru, f) == RefCount(cache.lru, f)
    // memory is what the executed works made of it, each with its buffers mapped
    ensures finalMem == ReplayLog(log, mem) && AllBelong(cmds, log) && (Confined(cmds) ==> AllMapped(log))
    // everything before a barrier is executed before anything behind it
    ensures BarriersKept(cmds, log)
    // once a failure is noticed no command is begun, and only begun ones execute
    ensures Works(history) == CmdsOf(log) && NoneBegunAfterFailure(history) && BegunFirst(history)
    ensures (st == Failed ==> SawFailure(history)) && (st == Success ==> !SawFailure(history))
    // concurrent execution refines in-order execution
    ensures IndependentBetweenBarriers(cmds) && st == Success ==>
      Interpret(cmds, |cmds|, mem).ok && finalMem == Interpret(cmds, |cmds|, mem).mem
    ensures IndependentBetweenBarriers(cmds) && st == Failed ==> !Interpret(cmds, |cmds|, mem).ok
    // buffers that fit are never refused
    ensures fits ==> st in {Success, Failed}
  {
    hide CommandExecution.Valid, Inv, WellDeclared, Fitting, MappingSucceeds, Sized, NoneHeld, Interpret, ReplayLog,
      IndependentBetweenBarriers, Confined, WellFormed, AllBelong, AllMapped, BarriersKept, Works, CmdsOf,
      NoneBegunAfterFailure, BegunFirst, SawFailure;
    var slots := if maxConcurrent < 1 then 1 else maxConcurrent;
    var x := new CommandExecution(cmds, slots, poolSize, os, cache, mem, fits, sizeOf);
    st := x.WalkAndDrain();
    finalMem, finalCache, log, history := x.mem, x.cache, x.log, x.history;
  }
}
