/** The steps of the master, as transitions that keep the invariant. */
module ScheduleSteps {
  import opened Memory
  import opened Status
  import opened ResidencySpec
  import opened ResidencyLaws
  import opened Commands
  import opened ScheduleState

  // ----- releasing several references -----

  function ReleaseFirst(c: Cache, fds: seq<int>, n: nat): Cache
    requires n <= |fds|
  {
    if n == 0 then c else Release(ReleaseFirst(c, fds, n - 1), fds[n - 1])
  }

  lemma {:induction false} ReleaseFirstConserves(c: Cache, fds: seq<int>, n: nat, f: int)
    requires WellFormed(c) && n <= |fds|
    requires RefCount(c.lru, f) >= Multiplicity(fds[..n], f)
    ensures WellFormed(ReleaseFirst(c, fds, n))
    ensures RefCount(ReleaseFirst(c, fds, n).lru, f) == RefCount(c.lru, f) - Multiplicity(fds[..n], f)
    ensures ReleaseFirst(c, fds, n).budget == c.budget
    decreases n
  {
    if n > 0 {
      assert fds[..n] == fds[..n - 1] + [fds[n - 1]];
      ReleaseFirstConserves(c, fds, n - 1, f);
      ReleaseConserves(ReleaseFirst(c, fds, n - 1), fds[n - 1], f);
    }
  }

  lemma {:induction false} ReleaseFirstWellFormed(c: Cache, fds: seq<int>, n: nat)
    requires WellFormed(c) && n <= |fds|
    ensures WellFormed(ReleaseFirst(c, fds, n))
    decreases n
  {
    if n > 0 {
      ReleaseFirstWellFormed(c, fds, n - 1);
      ReleaseConserves(ReleaseFirst(c, fds, n - 1), fds[n - 1], 0);
    }
  }

  // ----- finishing a dispatch -----

  /** Releases what the task in slot `i` holds and frees the slot; a failed task
      is noticed. */
  function FinishSlot(s: State, i: nat): State
    requires i < |s.tasks| && s.tasks[i].vtcm <= s.vtcmInUse
  {
    var t := s.tasks[i];
    s.(status := if t.state.TaskFailed? then Failed else s.status,
       history := if t.state.TaskFailed? then s.history + [FailureSeen(t.cmd)] else s.history,
       vtcmInUse := s.vtcmInUse - t.vtcm,
       cache := ReleaseFirst(s.cache, t.held, |t.held|),
       tasks := s.tasks[i := t.(inFlight := false)])
  }

  /** The master claims one completion. */
  function Claim(s: State, i: nat): State
    requires i < |s.tasks| && s.tasks[i].vtcm <= s.vtcmInUse
    requires s.numCompleted > 0 && s.numInFlight > 0
  {
    FinishSlot(s.(numCompleted := s.numCompleted - 1, numInFlight := s.numInFlight - 1), i)
  }

  predicate Claimable(s: State, i: nat) {
    i < |s.tasks| && s.tasks[i].inFlight && !s.tasks[i].state.Running?
  }

  lemma ClaimFits(su: Setup, s: State, i: nat)
    requires Counts(su, s) && Claimable(s, i)
    ensures s.tasks[i].vtcm <= s.vtcmInUse && s.numCompleted > 0 && s.numInFlight > 0
  {
    SumBounds(s.tasks, VtcmUnit, i);
    SumBounds(s.tasks, InFlightUnit, i);
    SumBounds(s.tasks, CompletedUnit, i);
  }

  lemma ClaimCounts(su: Setup, s: State, i: nat)
    requires Counts(su, s) && Claimable(s, i) && !s.asleep
    ensures s.tasks[i].vtcm <= s.vtcmInUse && s.numCompleted > 0 && s.numInFlight > 0
    ensures Counts(su, Claim(s, i))
  {
    ClaimFits(su, s, i);
    var t := s.tasks[i].(inFlight := false);
    SumUpdate(s.tasks, i, t, InFlightUnit);
    SumUpdate(s.tasks, i, t, CompletedUnit);
    SumUpdate(s.tasks, i, t, VtcmUnit);
  }

  lemma ClaimReferences(su: Setup, s: State, i: nat)
    requires Counts(su, s) && References(su, s) && Claimable(s, i)
    requires s.tasks[i].vtcm <= s.vtcmInUse && s.numCompleted > 0 && s.numInFlight > 0
    ensures References(su, Claim(s, i))
  {
    var s' := Claim(s, i);
    var held := s.tasks[i].held;
    ReleaseFirstWellFormed(s.cache, held, |held|);
    forall f
      ensures RefCount(s'.cache.lru, f) == su.base(f) + Sum(s'.tasks, HeldUnit(f)) + s'.extra[f]
    {
      SumUpdate(s.tasks, i, s'.tasks[i], HeldUnit(f));
      assert held[..|held|] == held;
      ReleaseFirstConserves(s.cache, held, |held|, f);
    }
  }

  lemma ClaimIssued(su: Setup, s: State, i: nat)
    requires Issued(su, s) && Claimable(s, i)
    requires s.tasks[i].vtcm <= s.vtcmInUse && s.numCompleted > 0 && s.numInFlight > 0
    ensures Issued(su, Claim(s, i))
  {
    hide NoBarrierBetween, WorksOf, BuffersOf, RequestFd, ReleaseFirst;
    var s' := Claim(s, i);
    forall k | 0 <= k < |s'.tasks| && s'.tasks[k].inFlight ensures TaskOk(su, s', s'.tasks[k]) {
      assert TaskOk(su, s, s.tasks[k]);
    }
  }

  lemma ClaimRefines(su: Setup, s: State, i: nat)
    requires Issued(su, s) && Failure(s) && Refines(su, s) && Claimable(s, i)
    requires s.tasks[i].vtcm <= s.vtcmInUse && s.numCompleted > 0 && s.numInFlight > 0
    ensures Refines(su, Claim(s, i))
  {
    hide GoodTasks, Flush, ReleaseFirst;
    var s' := Claim(s, i);
    assert TaskOk(su, s, s.tasks[i]);
    GoodTasksUpdate(s.tasks, i, s'.tasks[i]);
    assert Queues(s') == Queues(s);
  }

  /** Noticing the failure of a command taken is one more moment of the history. */
  lemma FinishSlotFailure(s: State, i: nat)
    requires Failure(s) && i < |s.tasks| && s.tasks[i].vtcm <= s.vtcmInUse && s.tasks[i].cmd < s.begun
    ensures Failure(FinishSlot(s, i))
  {
    hide Chronicle, ReleaseFirst;
    var m := FailureSeen(s.tasks[i].cmd);
    ChronicleAppends(s.history, s.begun, s.status == Failed, m);
    WorksAppends(s.history, m);
  }

  lemma ClaimFailure(su: Setup, s: State, i: nat)
    requires Issued(su, s) && Failure(s) && Claimable(s, i)
    requires s.tasks[i].vtcm <= s.vtcmInUse && s.numCompleted > 0 && s.numInFlight > 0
    ensures Failure(Claim(s, i))
  {
    hide Chronicle, FinishSlot, NoBarrierBetween, WorksOf, BuffersOf;
    assert TaskOk(su, s, s.tasks[i]);
    FinishSlotFailure(s.(numCompleted := s.numCompleted - 1, numInFlight := s.numInFlight - 1), i);
  }

  /** Claiming a completion keeps the invariant. */
  lemma ClaimKeepsInv(su: Setup, s: State, i: nat)
    requires Inv(su, s) && Claimable(s, i) && !s.asleep
    ensures s.tasks[i].vtcm <= s.vtcmInUse && s.numCompleted > 0 && s.numInFlight > 0
    ensures Inv(su, Claim(s, i))
  {
    hide Counts, References, Issued, Failure, Refines, Logged, IndependentBetweenBarriers, ReleaseFirst;
    ClaimCounts(su, s, i);
    ClaimReferences(su, s, i);
    ClaimIssued(su, s, i);
    ClaimFailure(su, s, i);
    LoggedAlike(su, Claim(s, i), s);
    if IndependentBetweenBarriers(su.cmds) {
      ClaimRefines(su, s, i);
    }
  }

  // ----- taking a command -----

  /** The walk starts on the next command. */
  function Begin(s: State): State {
    s.(begun := s.begun + 1, history := s.history + [Began(s.begun)])
  }

  lemma BeginIssued(su: Setup, s: State)
    requires Issued(su, s) && s.begun == s.done
    ensures Issued(su, Begin(s))
  {
    hide NoBarrierBetween, WorksOf, BuffersOf, RequestFd;
    var s' := Begin(s);
    forall k | 0 <= k < |s'.tasks| && s'.tasks[k].inFlight ensures TaskOk(su, s', s'.tasks[k]) {
      assert TaskOk(su, s, s.tasks[k]);
    }
  }

  lemma BeginFailure(s: State)
    requires Failure(s) && s.status == Success
    ensures Failure(Begin(s))
  {
    hide Chronicle;
    ChronicleAppends(s.history, s.begun, false, Began(s.begun));
    WorksAppends(s.history, Began(s.begun));
  }

  lemma BeginRefines(su: Setup, s: State)
    requires s.done <= |su.cmds| && Refines(su, s)
    ensures Refines(su, Begin(s))
  {
    hide Flush, GoodTasks, Interpret;
    assert Queues(Begin(s)) == Queues(s);
  }

  /** A command is begun only while no failure was noticed. */
  lemma BeginKeepsInv(su: Setup, s: State)
    requires Inv(su, s) && s.begun == s.done && s.done < |su.cmds| && s.status == Success
    ensures Inv(su, Begin(s))
  {
    hide Issued, Failure, Refines, Logged, IndependentBetweenBarriers, Sum, RefCount, WellFormed;
    BeginIssued(su, s);
    BeginFailure(s);
    LoggedAlike(su, Begin(s), s);
    if IndependentBetweenBarriers(su.cmds) {
      BeginRefines(su, s);
    }
  }

  lemma SameFailure(s: State, s': State)
    requires Failure(s) && s'.status == s.status && s'.history == s.history && s'.log == s.log && s'.begun == s.begun
    ensures Failure(s')
  {
    hide Chronicle;
  }

  /** The master is between commands' works: nothing of its own is pending. */
  ghost predicate MasterIdle(s: State) {
    s.master == [] && s.masterGood
  }

  /** Works of the next command do not conflict with anything pending. */
  lemma NextIsIndependent(su: Setup, s: State)
    requires Issued(su, s) && MasterIdle(s) && s.done < |su.cmds|
    requires IndependentBetweenBarriers(su.cmds)
    ensures forall k | 0 <= k < |Queues(s)| :: IndependentSeqs(WorksOf(su.cmds[s.done]), Queues(s)[k])
  {
  }

  lemma TasksAfterTaking(su: Setup, s: State, done': nat)
    requires Issued(su, s) && s.done < |su.cmds| && !su.cmds[s.done].Barrier?
    requires done' == s.done + 1
    ensures forall k | 0 <= k < |s.tasks| && s.tasks[k].inFlight :: TaskOk(su, s.(done := done'), s.tasks[k])
  {
  }

  /** A dispatch prepared in slot `i` goes to a worker. */
  function Submit(s: State, i: nat): State
    requires i < |s.tasks|
  {
    s.(tasks := s.tasks[i := s.tasks[i].(inFlight := true, state := Running)],
       numInFlight := s.numInFlight + 1, masterVtcm := 0, extra := multiset{}, done := s.done + 1)
  }

  /** Slot `i` holds the next command, prepared: buffers acquired (accounted in
      `extra`), VTCM acquired (in `masterVtcm`), nothing run yet. */
  ghost predicate Prepared(su: Setup, s: State, i: nat) {
    && s.done < |su.cmds| && su.cmds[s.done].Dispatch? && s.begun == s.done + 1
    && i < |s.tasks| && MasterIdle(s) && !s.masterBusy
    && var t := s.tasks[i];
      && !t.inFlight && t.good && t.cmd == s.done
      && t.left == su.cmds[s.done].workgroups
      && t.held == FdsOf(Requests(su.cmds[s.done].bindings))
      && multiset(t.held) == s.extra
      && t.vtcm == s.masterVtcm
  }

  lemma BindingsHeld(c: Command)
    requires c.Dispatch?
    ensures forall b | b in BuffersOf(c) :: RequestFd(b) in FdsOf(Requests(c.bindings))
  {
    forall b | b in BuffersOf(c) ensures RequestFd(b) in FdsOf(Requests(c.bindings)) {
      var k :| 0 <= k < |c.bindings| && c.bindings[k] == b;
      assert FdsOf(Requests(c.bindings))[k] == RequestFd(b);
    }
  }

  lemma SubmitCounts(su: Setup, s: State, i: nat)
    requires Counts(su, s) && Prepared(su, s, i) && s.numInFlight < su.slots
    ensures Counts(su, Submit(s, i))
  {
    var t := Submit(s, i).tasks[i];
    SumUpdate(s.tasks, i, t, InFlightUnit);
    SumUpdate(s.tasks, i, t, CompletedUnit);
    SumUpdate(s.tasks, i, t, VtcmUnit);
  }

  lemma SubmitReferences(su: Setup, s: State, i: nat)
    requires References(su, s) && Prepared(su, s, i)
    ensures References(su, Submit(s, i))
  {
    var s' := Submit(s, i);
    forall f
      ensures RefCount(s'.cache.lru, f) == su.base(f) + Sum(s'.tasks, HeldUnit(f)) + s'.extra[f]
    {
      SumUpdate(s.tasks, i, s'.tasks[i], HeldUnit(f));
    }
  }

  lemma SubmitIssued(su: Setup, s: State, i: nat)
    requires Issued(su, s) && Prepared(su, s, i)
    ensures Issued(su, Submit(s, i))
  {
    var s' := Submit(s, i);
    TasksAfterTaking(su, s, s'.done);
    BindingsHeld(su.cmds[s.done]);
    hide BuffersOf, RequestFd;
    forall k | 0 <= k < |s'.tasks| && s'.tasks[k].inFlight ensures TaskOk(su, s', s'.tasks[k]) {
      if k != i {
        assert TaskOk(su, s.(done := s'.done), s.tasks[k]);
      }
    }
    forall a, b | 0 <= a < b < |s'.tasks| && s'.tasks[a].inFlight && s'.tasks[b].inFlight
      ensures s'.tasks[a].cmd != s'.tasks[b].cmd
    {
      assert a != i ==> TaskOk(su, s, s.tasks[a]);
      assert b != i ==> TaskOk(su, s, s.tasks[b]);
    }
  }

  lemma SubmitRefines(su: Setup, s: State, i: nat)
    requires Issued(su, s) && Prepared(su, s, i)
    requires IndependentBetweenBarriers(su.cmds) && Refines(su, s)
    ensures Refines(su, Submit(s, i))
  {
    hide GoodTasks, Flush, PairwiseIndependent, IndependentBetweenBarriers, IndependentSeqs;
    var s' := Submit(s, i);
    NextIsIndependent(su, s);
    QueuesIndependent(su, s);
    hide Issued;
    var ws := WorksOf(su.cmds[s.done]);
    FlushAbsorbsSubmit(Queues(s), i, ws, s.mem);
    assert Queues(s') == Queues(s)[i := ws];
    GoodTasksUpdate(s.tasks, i, s'.tasks[i]);
  }

  /** Handing a dispatch to a worker keeps the invariant. */
  lemma SubmitKeepsInv(su: Setup, s: State, i: nat)
    requires Inv(su, s) && Prepared(su, s, i) && s.numInFlight < su.slots
    ensures Inv(su, Submit(s, i))
  {
    hide Counts, References, Issued, Failure, Refines, Logged, IndependentBetweenBarriers, Prepared;
    SubmitInRange(su, s, i);
    SubmitCounts(su, s, i);
    SubmitReferences(su, s, i);
    SubmitIssued(su, s, i);
    SameFailure(s, Submit(s, i));
    LoggedAlike(su, Submit(s, i), s);
    if IndependentBetweenBarriers(su.cmds) {
      SubmitRefines(su, s, i);
    }
  }

  lemma SubmitInRange(su: Setup, s: State, i: nat)
    requires Prepared(su, s, i)
    ensures i < |s.tasks| && s.done < |su.cmds|
  {
  }

  // ----- commands the master executes itself -----

  /** The master starts executing the works of the next command. */
  function StartInline(su: Setup, s: State): State
    requires s.done < |su.cmds|
  {
    s.(master := WorksOf(su.cmds[s.done]), masterBusy := su.cmds[s.done].Dispatch?, done := s.done + 1)
  }

  /** The references of the next command are held by the master. */
  ghost predicate HoldsBuffers(su: Setup, s: State) {
    && s.done < |su.cmds| && s.begun == s.done + 1
    && MasterIdle(s) && !s.masterBusy
    && !su.cmds[s.done].Barrier? && !su.cmds[s.done].Malformed?
    && (forall b | b in BuffersOf(su.cmds[s.done]) :: RequestFd(b) in s.extra)
  }

  lemma StartInlineKeepsInv(su: Setup, s: State)
    requires Inv(su, s) && HoldsBuffers(su, s)
    requires su.cmds[s.done].Dispatch? ==> s.numInFlight < su.slots
    ensures Inv(su, StartInline(su, s))
  {
    hide Issued, Failure, Refines, Logged, IndependentBetweenBarriers, Sum, RefCount, WellFormed, WorksOf, BuffersOf;
    StartInlineIssued(su, s);
    SameFailure(s, StartInline(su, s));
    LoggedAlike(su, StartInline(su, s), s);
    if IndependentBetweenBarriers(su.cmds) {
      StartInlineRefines(su, s);
    }
  }

  lemma StartInlineIssued(su: Setup, s: State)
    requires Issued(su, s) && HoldsBuffers(su, s)
    ensures Issued(su, StartInline(su, s))
  {
  }

  lemma StartInlineRefines(su: Setup, s: State)
    requires Issued(su, s) && HoldsBuffers(su, s)
    requires IndependentBetweenBarriers(su.cmds) && Refines(su, s)
    ensures Refines(su, StartInline(su, s))
  {
    var s' := StartInline(su, s);
    NextIsIndependent(su, s);
    QueuesIndependent(su, s);
    hide GoodTasks, Flush, PairwiseIndependent, IndependentBetweenBarriers, Issued, IndependentSeqs;
    var ws := WorksOf(su.cmds[s.done]);
    FlushAbsorbsSubmit(Queues(s), |s.tasks|, ws, s.mem);
    assert Queues(s') == Queues(s)[|s.tasks| := ws];
  }

  /** The master runs its next work. */
  function MasterStep(s: State): State
    requires s.master != [] && s.done > 0
  {
    var ok := Succeeds(s.master[0], s.mem);
    s.(master := if ok then s.master[1..] else [], masterGood := ok,
       mem := Apply(s.master[0], s.mem), log := s.log + [Ran(s.master[0], MappedFds(s.cache.lru), s.done - 1)],
       history := s.history + [Worked(s.done - 1)])
  }

  lemma MasterStepRefines(su: Setup, s: State)
    requires Issued(su, s) && s.master != [] && s.done > 0
    requires IndependentBetweenBarriers(su.cmds) && Refines(su, s)
    ensures Refines(su, MasterStep(s))
  {
    QueuesIndependent(su, s);
    FlushAbsorbsStep(Queues(s), |s.tasks|, s.mem);
    assert Succeeds(s.master[0], s.mem) ==> Queues(MasterStep(s)) == Queues(s)[|s.tasks| := s.master[1..]];
  }

  /** Every work of the master keeps the invariant. */
  lemma MasterStepKeepsInv(su: Setup, s: State)
    requires Inv(su, s) && s.master != []
    ensures s.done > 0 && Inv(su, MasterStep(s))
  {
    hide Counts, References, Issued, Failure, Refines, Logged, IndependentBetweenBarriers, MasterStep;
    MasterWorkIsKnown(su, s);
    MasterStepCounts(su, s);
    MasterStepIssued(su, s);
    MasterStepFailure(su, s);
    MasterStepLogged(su, s);
    if IndependentBetweenBarriers(su.cmds) {
      MasterStepRefines(su, s);
    }
  }

  lemma MasterStepCounts(su: Setup, s: State)
    requires Counts(su, s) && References(su, s) && s.master != [] && s.done > 0
    ensures Counts(su, MasterStep(s)) && References(su, MasterStep(s))
  {
    hide Sum, RefCount, WellFormed, Apply, Succeeds, MappedFds;
  }

  lemma MasterStepFailure(su: Setup, s: State)
    requires Issued(su, s) && Failure(s) && s.master != [] && s.done > 0
    ensures Failure(MasterStep(s))
  {
    hide Chronicle, TaskOk, WorksOf, BuffersOf, Apply, Succeeds, MappedFds;
    ChronicleAppends(s.history, s.begun, s.status == Failed, Worked(s.done - 1));
    WorksAppends(s.history, Worked(s.done - 1));
  }

  lemma MasterStepLogged(su: Setup, s: State)
    requires References(su, s) && Issued(su, s) && Logged(su, s) && s.master != [] && s.done > 0
    ensures Logged(su, MasterStep(s))
  {
    hide References, Issued, Logged, Confined, TouchesOnly, WorksOf, Apply, Succeeds, MappedFds;
    MasterWorkIsKnown(su, s);
    if Confined(su.cmds) {
      MasterFootprintMapped(su, s, s.master[0]);
    }
    LogAppend(su, s, s.master[0], s.done - 1);
    LoggedAlike(su, MasterStep(s),
      s.(mem := Apply(s.master[0], s.mem), log := s.log + [Ran(s.master[0], MappedFds(s.cache.lru), s.done - 1)]));
  }

  lemma MasterWorkIsKnown(su: Setup, s: State)
    requires Issued(su, s) && s.master != []
    ensures 0 < s.done <= |su.cmds| && s.master[0] in WorksOf(su.cmds[s.done - 1])
  {
    assert s.master[0] in s.master;
  }

  lemma MasterStepIssued(su: Setup, s: State)
    requires Issued(su, s) && s.master != [] && s.done > 0
    ensures Issued(su, MasterStep(s))
  {
    hide NoBarrierBetween, WorksOf, BuffersOf, RequestFd;
    var s' := MasterStep(s);
    assert forall w | w in s'.master :: w in s.master;
    forall k | 0 <= k < |s'.tasks| && s'.tasks[k].inFlight ensures TaskOk(su, s', s'.tasks[k]) {
      assert TaskOk(su, s, s.tasks[k]);
    }
  }

  /** Slot `i` holds the dispatch the master has just executed. */
  ghost predicate Executed(s: State, i: nat) {
    && i < |s.tasks| && s.master == []
    && var t := s.tasks[i];
      && !t.inFlight && t.vtcm == s.masterVtcm
      && multiset(t.held) == s.extra && t.cmd < s.done
      && (t.state.TaskFailed? <==> !s.masterGood)
  }

  function FinishInline(s: State, i: nat): State
    requires i < |s.tasks| && s.tasks[i].vtcm <= s.vtcmInUse
  {
    FinishSlot(s, i).(masterGood := true, masterBusy := false, masterVtcm := 0, extra := multiset{})
  }

  lemma FinishInlineCounts(su: Setup, s: State, i: nat)
    requires Counts(su, s) && Executed(s, i)
    ensures s.tasks[i].vtcm <= s.vtcmInUse && Counts(su, FinishInline(s, i))
  {
    hide Sum, ReleaseFirst;
    assert s.tasks[i].vtcm <= s.vtcmInUse;
    assert FinishInline(s, i).tasks == s.tasks;
  }

  lemma FinishInlineFailure(su: Setup, s: State, i: nat)
    requires Issued(su, s) && Failure(s) && Executed(s, i) && s.tasks[i].vtcm <= s.vtcmInUse
    ensures Failure(FinishInline(s, i))
  {
    hide TaskOk, FinishSlot, Failure;
    FinishSlotFailure(s, i);
    SameFailure(FinishSlot(s, i), FinishInline(s, i));
  }

  /** Finishing a dispatch the master executed keeps the invariant. */
  lemma FinishInlineKeepsInv(su: Setup, s: State, i: nat)
    requires Inv(su, s) && Executed(s, i)
    ensures s.tasks[i].vtcm <= s.vtcmInUse
    ensures Inv(su, FinishInline(s, i))
  {
    hide Counts, References, Issued, Failure, Refines, Logged, IndependentBetweenBarriers, ReleaseFirst;
    FinishInlineCounts(su, s, i);
    FinishInlineReferences(su, s, i);
    FinishInlineIssued(su, s, i);
    FinishInlineFailure(su, s, i);
    LoggedAlike(su, FinishInline(s, i), s);
    if IndependentBetweenBarriers(su.cmds) {
      FinishInlineRefines(su, s, i);
    }
  }

  lemma FinishInlineRefines(su: Setup, s: State, i: nat)
    requires s.done <= |su.cmds| && Refines(su, s) && Failure(s)
    requires Executed(s, i) && s.tasks[i].vtcm <= s.vtcmInUse
    ensures Refines(su, FinishInline(s, i))
  {
    hide Flush, GoodTasks, ReleaseFirst;
    assert FinishInline(s, i).tasks == s.tasks;
    assert Queues(FinishInline(s, i)) == Queues(s);
  }

  lemma FinishInlineReferences(su: Setup, s: State, i: nat)
    requires References(su, s) && Executed(s, i) && s.tasks[i].vtcm <= s.vtcmInUse
    ensures References(su, FinishInline(s, i))
  {
    var s' := FinishInline(s, i);
    var held := s.tasks[i].held;
    assert s'.tasks == s.tasks;
    ReleaseFirstWellFormed(s.cache, held, |held|);
    forall f
      ensures RefCount(s'.cache.lru, f) == su.base(f) + Sum(s'.tasks, HeldUnit(f)) + s'.extra[f]
    {
      assert held[..|held|] == held;
      ReleaseFirstConserves(s.cache, held, |held|, f);
    }
  }

  lemma FinishInlineIssued(su: Setup, s: State, i: nat)
    requires Issued(su, s) && Executed(s, i) && s.tasks[i].vtcm <= s.vtcmInUse
    ensures Issued(su, FinishInline(s, i))
  {
  }

  // ----- bookkeeping steps -----

  /** Steps that change neither the command position nor what is pending. */
  ghost predicate SamePosition(s: State, s': State) {
    && s'.done == s.done && s'.begun == s.begun
    && s'.master == s.master == [] && s'.masterGood == s.masterGood
    && s'.mem == s.mem && s'.log == s.log && s'.status == s.status && s'.history == s.history
    && |s'.tasks| == |s.tasks|
    && (forall k | 0 <= k < |s.tasks| :: s'.tasks[k].inFlight == s.tasks[k].inFlight)
    && (forall k | 0 <= k < |s.tasks| && s.tasks[k].inFlight :: s'.tasks[k] == s.tasks[k])
  }

  lemma SamePositionIssued(su: Setup, s: State, s': State)
    requires Issued(su, s) && SamePosition(s, s')
    ensures Issued(su, s')
  {
    hide NoBarrierBetween, WorksOf, BuffersOf, RequestFd;
    forall k | 0 <= k < |s'.tasks| && s'.tasks[k].inFlight ensures TaskOk(su, s', s'.tasks[k]) {
      assert TaskOk(su, s, s.tasks[k]);
    }
  }

  lemma SamePositionRefines(su: Setup, s: State, s': State)
    requires Issued(su, s) && Refines(su, s) && SamePosition(s, s')
    ensures Refines(su, s')
  {
    assert Queues(s') == Queues(s);
    assert GoodTasks(s'.tasks) <==> GoodTasks(s.tasks);
    hide Flush, Queues, GoodTasks, Interpret, TaskOk;
  }

  lemma SamePositionKeeps(su: Setup, s: State, s': State)
    requires Inv(su, s) && SamePosition(s, s')
    ensures Issued(su, s') && Failure(s') && Logged(su, s')
    ensures IndependentBetweenBarriers(su.cmds) ==> Refines(su, s')
  {
    hide Counts, References, Issued, Failure, Refines, Logged, IndependentBetweenBarriers;
    SamePositionIssued(su, s, s');
    SameFailure(s, s');
    LoggedAlike(su, s', s);
    if IndependentBetweenBarriers(su.cmds) {
      SamePositionRefines(su, s, s');
    }
  }

  /** Acquiring or releasing references of the master's own, with every change
      accounted for. */
  lemma CacheStepKeepsInv(su: Setup, s: State, c: Cache, extra: multiset<int>)
    requires Inv(su, s) && s.master == [] && WellFormed(c)
    requires forall f :: RefCount(c.lru, f) + s.extra[f] == RefCount(s.cache.lru, f) + extra[f]
    ensures Inv(su, s.(cache := c, extra := extra))
  {
    SamePositionKeeps(su, s, s.(cache := c, extra := extra));
  }

  lemma VtcmStepKeepsInv(su: Setup, s: State, n: nat)
    requires Inv(su, s) && s.master == [] && s.vtcmInUse + n <= su.pool
    ensures Inv(su, s.(vtcmInUse := s.vtcmInUse + n, masterVtcm := s.masterVtcm + n))
  {
    SamePositionKeeps(su, s, s.(vtcmInUse := s.vtcmInUse + n, masterVtcm := s.masterVtcm + n));
  }

  lemma SleepKeepsInv(su: Setup, s: State)
    requires Inv(su, s) && s.master == [] && s.numCompleted == 0 && s.numInFlight > 0
    ensures Inv(su, s.(asleep := true))
  {
    SamePositionKeeps(su, s, s.(asleep := true));
  }

  /** Slots not in flight are scratch space of the master. */
  lemma ScratchSlotKeepsInv(su: Setup, s: State, i: nat, t: Task)
    requires Inv(su, s) && s.master == [] && i < |s.tasks| && !s.tasks[i].inFlight && !t.inFlight
    ensures Inv(su, s.(tasks := s.tasks[i := t]))
  {
    hide Issued, Failure, Refines, Logged, IndependentBetweenBarriers, WellFormed, RefCount;
    var s' := s.(tasks := s.tasks[i := t]);
    SamePositionKeeps(su, s, s');
    SumUpdate(s.tasks, i, t, InFlightUnit);
    SumUpdate(s.tasks, i, t, CompletedUnit);
    SumUpdate(s.tasks, i, t, VtcmUnit);
    forall f ensures Sum(s'.tasks, HeldUnit(f)) == Sum(s.tasks, HeldUnit(f)) {
      SumUpdate(s.tasks, i, t, HeldUnit(f));
    }
  }

  lemma NoneInFlight(su: Setup, s: State, k: nat)
    requires Counts(su, s) && s.numInFlight == 0 && k < |s.tasks|
    ensures !s.tasks[k].inFlight
  {
    SumBounds(s.tasks, InFlightUnit, k);
  }

  function PassBarrier(s: State): State {
    s.(done := s.done + 1)
  }

  lemma PassBarrierIssued(su: Setup, s: State)
    requires Counts(su, s) && Issued(su, s) && MasterIdle(s) && s.numInFlight == 0
    requires s.done < |su.cmds| && s.begun == s.done + 1
    ensures Issued(su, PassBarrier(s))
  {
    hide TaskOk, WorksOf, BuffersOf, Sum;
    forall k | 0 <= k < |s.tasks| ensures !s.tasks[k].inFlight {
      NoneInFlight(su, s, k);
    }
  }

  /** A barrier is passed only with nothing in flight. */
  lemma PassBarrierKeepsInv(su: Setup, s: State)
    requires Inv(su, s) && MasterIdle(s) && s.numInFlight == 0
    requires s.done < |su.cmds| && su.cmds[s.done].Barrier? && s.begun == s.done + 1
    ensures Inv(su, PassBarrier(s))
  {
    hide Issued, References, Failure, Refines, Logged, IndependentBetweenBarriers, Sum;
    PassBarrierIssued(su, s);
    SameFailure(s, PassBarrier(s));
    LoggedAlike(su, PassBarrier(s), s);
    if IndependentBetweenBarriers(su.cmds) {
      PassBarrierRefines(su, s);
    }
    PassBarrierReferences(su, s);
  }

  lemma PassBarrierReferences(su: Setup, s: State)
    requires References(su, s)
    ensures References(su, PassBarrier(s))
  {
  }

  lemma PassBarrierRefines(su: Setup, s: State)
    requires s.done < |su.cmds| && su.cmds[s.done].Barrier? && Refines(su, s)
    ensures Refines(su, PassBarrier(s))
  {
  }

  /** With nothing pending, memory and status are those of the in-order
      interpreter, and the references are back to where they started. */
  lemma Quiescent(su: Setup, s: State)
    requires Inv(su, s) && MasterIdle(s) && s.numInFlight == 0 && s.extra == multiset{}
    ensures forall f :: RefCount(s.cache.lru, f) == su.base(f)
    ensures IndependentBetweenBarriers(su.cmds) ==>
      var inOrder := Interpret(su.cmds, s.done, su.mem0);
      && (s.status == Success <==> inOrder.ok)
      && (inOrder.ok ==> s.mem == inOrder.mem)
  {
    forall k | 0 <= k < |s.tasks| ensures !s.tasks[k].inFlight {
      NoneInFlight(su, s, k);
    }
    FlushOfNothing(Queues(s), s.mem);
    forall f ensures Sum(s.tasks, HeldUnit(f)) == 0 {
      NothingHeld(s.tasks, f);
    }
  }

  lemma {:induction false} NothingHeld(ts: seq<Task>, f: int)
    requires forall k | 0 <= k < |ts| :: !ts[k].inFlight
    ensures Sum(ts, HeldUnit(f)) == 0
    decreases |ts|
  {
    if ts != [] {
      NothingHeld(ts[1..], f);
    }
  }

  // ----- worker steps commute with the master's bookkeeping -----

  /** What the master may change without executing a work or acquiring a buffer. */
  datatype Part = Part(numInFlight: nat, vtcmInUse: nat, status: Status, cache: Cache, master: seq<Work>,
                       masterGood: bool, masterBusy: bool, masterVtcm: nat, extra: multiset<int>, done: nat, begun: nat)

  function PartOf(s: State): Part {
    Part(s.numInFlight, s.vtcmInUse, s.status, s.cache, s.master, s.masterGood, s.masterBusy, s.masterVtcm, s.extra,
         s.done, s.begun)
  }

  /** Changes that part, takes `claimed` completions and puts `t` in slot `j`, if
      there is such a slot. */
  function Updated(s: State, m: Part, claimed: nat, j: nat, t: Task): State
    requires claimed <= s.numCompleted
  {
    s.(tasks := if j < |s.tasks| then s.tasks[j := t] else s.tasks,
       numCompleted := s.numCompleted - claimed,
       numInFlight := m.numInFlight, vtcmInUse := m.vtcmInUse, status := m.status, cache := m.cache,
       master := m.master, masterGood := m.masterGood, masterBusy := m.masterBusy, masterVtcm := m.masterVtcm,
       extra := m.extra, done := m.done, begun := m.begun)
  }

  lemma UpdatesCommute(ts: seq<Task>, i: nat, w: Task, j: nat, t: Task)
    requires i < |ts| && i != j
    ensures (if j < |ts| then ts[j := t] else ts)[i := w] == if j < |ts| then ts[i := w][j := t] else ts[i := w]
    ensures (if j < |ts| then ts[j := t] else ts)[i] == ts[i]
  {
  }

  /** A worker of another slot may as well go first. */
  lemma WorkerCommutes(s: State, i: nat, m: Part, claimed: nat, j: nat, t: Task)
    requires CanStep(s, i) && i != j && claimed <= s.numCompleted
    requires MappedFds(m.cache.lru) == MappedFds(s.cache.lru)
    ensures CanStep(Updated(s, m, claimed, j, t), i) && claimed <= WorkerStep(s, i).numCompleted
    ensures WorkerStep(Updated(s, m, claimed, j, t), i) == Updated(WorkerStep(s, i), m, claimed, j, t)
  {
    hide MappedFds, Apply, Succeeds, WorkerStep, Updated;
    StaysRunning(s, i, m, claimed, j, t);
    if s.tasks[i].left == [] {
      MarkingCommutes(s, i, m, claimed, j, t);
    } else {
      RunningCommutes(s, i, m, claimed, j, t);
    }
  }

  lemma StaysRunning(s: State, i: nat, m: Part, claimed: nat, j: nat, t: Task)
    requires CanStep(s, i) && i != j && claimed <= s.numCompleted
    ensures CanStep(Updated(s, m, claimed, j, t), i) && claimed <= WorkerStep(s, i).numCompleted
  {
  }

  lemma MarkingCommutes(s: State, i: nat, m: Part, claimed: nat, j: nat, t: Task)
    requires CanStep(s, i) && i != j && claimed <= s.numCompleted && s.tasks[i].left == []
    requires CanStep(Updated(s, m, claimed, j, t), i) && claimed <= WorkerStep(s, i).numCompleted
    ensures WorkerStep(Updated(s, m, claimed, j, t), i) == Updated(WorkerStep(s, i), m, claimed, j, t)
  {
    UpdatesCommute(s.tasks, i, WorkerStep(s, i).tasks[i], j, t);
  }

  lemma RunningCommutes(s: State, i: nat, m: Part, claimed: nat, j: nat, t: Task)
    requires CanStep(s, i) && i != j && claimed <= s.numCompleted && s.tasks[i].left != []
    requires MappedFds(m.cache.lru) == MappedFds(s.cache.lru)
    requires CanStep(Updated(s, m, claimed, j, t), i) && claimed <= WorkerStep(s, i).numCompleted
    ensures WorkerStep(Updated(s, m, claimed, j, t), i) == Updated(WorkerStep(s, i), m, claimed, j, t)
  {
    hide MappedFds, Apply, Succeeds;
    UpdatesCommute(s.tasks, i, WorkerStep(s, i).tasks[i], j, t);
  }

  lemma ReleaseKeepsMapped(c: Cache, fd: int)
    ensures MappedFds(Release(c, fd).lru) == MappedFds(c.lru)
  {
    var l, r := c.lru, Release(c, fd).lru;
    forall f ensures f in MappedFds(r) <==> f in MappedFds(l) {
      if f in MappedFds(r) {
        var k :| 0 <= k < |r| && r[k].fd == f;
        assert l[k] in l && l[k].fd == f;
      }
      if f in MappedFds(l) {
        var k :| 0 <= k < |l| && l[k].fd == f;
        assert r[k] in r && r[k].fd == f;
      }
    }
  }

  lemma {:induction false} ReleaseFirstKeepsMapped(c: Cache, fds: seq<int>, n: nat)
    requires n <= |fds|
    ensures MappedFds(ReleaseFirst(c, fds, n).lru) == MappedFds(c.lru)
    decreases n
  {
    if n > 0 {
      hide MappedFds, Release;
      ReleaseFirstKeepsMapped(c, fds, n - 1);
      ReleaseKeepsMapped(ReleaseFirst(c, fds, n - 1), fds[n - 1]);
    }
  }

  /** Giving back one reference. */
  lemma ReleaseCommutes(s: State, i: nat, fd: int, extra: multiset<int>)
    requires CanStep(s, i)
    ensures WorkerStep(s.(cache := Release(s.cache, fd), extra := extra), i)
      == WorkerStep(s, i).(cache := Release(s.cache, fd), extra := extra)
  {
    hide MappedFds, Release, WorkerStep;
    ReleaseKeepsMapped(s.cache, fd);
    WorkerCommutes(s, i, PartOf(s).(cache := Release(s.cache, fd), extra := extra), 0, |s.tasks|, s.tasks[i]);
    StepKeepsPart(s, i);
  }

  lemma StepKeepsPart(s: State, i: nat)
    requires CanStep(s, i)
    ensures PartOf(WorkerStep(s, i)) == PartOf(s) && |WorkerStep(s, i).tasks| == |s.tasks|
    ensures forall j | 0 <= j < |s.tasks| && j != i :: WorkerStep(s, i).tasks[j] == s.tasks[j]
  {
  }

  /** Taking VTCM. */
  lemma VtcmCommutes(s: State, i: nat, n: nat)
    requires CanStep(s, i)
    ensures WorkerStep(s.(vtcmInUse := s.vtcmInUse + n, masterVtcm := n), i)
      == WorkerStep(s, i).(vtcmInUse := s.vtcmInUse + n, masterVtcm := n)
  {
    hide MappedFds, WorkerStep;
    WorkerCommutes(s, i, PartOf(s).(vtcmInUse := s.vtcmInUse + n, masterVtcm := n), 0, |s.tasks|, s.tasks[i]);
    StepKeepsPart(s, i);
  }

  /** Filling a free slot. */
  lemma FillSlotCommutes(s: State, i: nat, j: nat, t: Task)
    requires CanStep(s, i) && j < |s.tasks| && i != j
    ensures |WorkerStep(s, i).tasks| == |s.tasks|
    ensures WorkerStep(s.(tasks := s.tasks[j := t]), i)
      == WorkerStep(s, i).(tasks := WorkerStep(s, i).tasks[j := t])
  {
    hide MappedFds, WorkerStep;
    WorkerCommutes(s, i, PartOf(s), 0, j, t);
    StepKeepsPart(s, i);
  }

  /** Handing a dispatch over. */
  lemma SubmitCommutes(s: State, i: nat, j: nat)
    requires CanStep(s, i) && j < |s.tasks| && i != j
    ensures |WorkerStep(s, i).tasks| == |s.tasks|
    ensures WorkerStep(Submit(s, j), i) == Submit(WorkerStep(s, i), j)
  {
    hide MappedFds, WorkerStep;
    var m := PartOf(s).(numInFlight := s.numInFlight + 1, masterVtcm := 0, extra := multiset{}, done := s.done + 1);
    WorkerCommutes(s, i, m, 0, j, s.tasks[j].(inFlight := true, state := Running));
    StepKeepsPart(s, i);
  }

  /** Starting a command on the master. */
  lemma StartInlineCommutes(su: Setup, s: State, i: nat)
    requires CanStep(s, i) && s.done < |su.cmds|
    ensures WorkerStep(s, i).done == s.done
    ensures WorkerStep(StartInline(su, s), i) == StartInline(su, WorkerStep(s, i))
  {
    hide MappedFds, WorkerStep, WorksOf;
    var m := PartOf(s).(master := WorksOf(su.cmds[s.done]), masterBusy := su.cmds[s.done].Dispatch?, done := s.done + 1);
    WorkerCommutes(s, i, m, 0, |s.tasks|, s.tasks[i]);
    StepKeepsPart(s, i);
  }

  function Untold(s: State): State {
    s.(history := [])
  }

  lemma StepsUntold(s: State, i: nat, h: seq<Moment>)
    requires CanStep(s, i)
    ensures CanStep(s.(history := h), i) && Untold(WorkerStep(s.(history := h), i)) == Untold(WorkerStep(s, i))
  {
  }

  function ClaimedPart(s: State, j: nat): Part
    requires j < |s.tasks| && s.tasks[j].vtcm <= s.vtcmInUse && s.numInFlight > 0
  {
    var t := s.tasks[j];
    PartOf(s).(numInFlight := s.numInFlight - 1, vtcmInUse := s.vtcmInUse - t.vtcm,
               status := if t.state.TaskFailed? then Failed else s.status,
               cache := ReleaseFirst(s.cache, t.held, |t.held|))
  }

  /** Claiming a completion and giving back what it holds. The history may tell
      the two in the other order; claims are preceded by worker steps. */
  lemma ClaimCommutes(s: State, i: nat, j: nat)
    requires CanStep(s, i) && Claimable(s, j)
    requires s.tasks[j].vtcm <= s.vtcmInUse && s.numCompleted > 0 && s.numInFlight > 0
    ensures CanStep(Claim(s, j), i) && Claimable(WorkerStep(s, i), j) && WorkerStep(s, i).numCompleted > 0
    ensures PartOf(WorkerStep(s, i)) == PartOf(s) && WorkerStep(s, i).tasks[j] == s.tasks[j]
    ensures Untold(WorkerStep(Claim(s, j), i)) == Untold(Claim(WorkerStep(s, i), j))
  {
    hide MappedFds, ReleaseFirst, WorkerStep;
    var t := s.tasks[j];
    ReleaseFirstKeepsMapped(s.cache, t.held, |t.held|);
    StepKeepsPart(s, i);
    var m := ClaimedPart(s, j);
    var u := Updated(s, m, 1, j, t.(inFlight := false));
    WorkerCommutes(s, i, m, 1, j, t.(inFlight := false));
    assert Claim(s, j) == u.(history := Claim(s, j).history);
    StepsUntold(u, i, Claim(s, j).history);
    assert Untold(Claim(WorkerStep(s, i), j)) == Untold(Updated(WorkerStep(s, i), m, 1, j, t.(inFlight := false)));
  }

  function FinishedPart(s: State, j: nat): Part
    requires j < |s.tasks| && s.tasks[j].vtcm <= s.vtcmInUse
  {
    var t := s.tasks[j];
    PartOf(s).(vtcmInUse := s.vtcmInUse - t.vtcm, status := if t.state.TaskFailed? then Failed else s.status,
               cache := ReleaseFirst(s.cache, t.held, |t.held|),
               masterGood := true, masterBusy := false, masterVtcm := 0, extra := multiset{})
  }

  /** Finishing a dispatch the master executed, likewise. */
  lemma FinishInlineCommutes(s: State, i: nat, j: nat)
    requires CanStep(s, i) && j < |s.tasks| && !s.tasks[j].inFlight && s.tasks[j].vtcm <= s.vtcmInUse
    ensures CanStep(FinishInline(s, j), i)
    ensures PartOf(WorkerStep(s, i)) == PartOf(s) && |WorkerStep(s, i).tasks| == |s.tasks|
    ensures WorkerStep(s, i).tasks[j] == s.tasks[j]
    ensures Untold(WorkerStep(FinishInline(s, j), i)) == Untold(FinishInline(WorkerStep(s, i), j))
  {
    hide MappedFds, ReleaseFirst, WorkerStep;
    var t := s.tasks[j];
    ReleaseFirstKeepsMapped(s.cache, t.held, |t.held|);
    StepKeepsPart(s, i);
    var m := FinishedPart(s, j);
    var u := Updated(s, m, 0, j, t.(inFlight := false));
    WorkerCommutes(s, i, m, 0, j, t.(inFlight := false));
    assert FinishInline(s, j) == u.(history := FinishInline(s, j).history);
    StepsUntold(u, i, FinishInline(s, j).history);
    assert Untold(FinishInline(WorkerStep(s, i), j)) == Untold(Updated(WorkerStep(s, i), m, 0, j, t.(inFlight := false)));
  }
}
