/** The state of one command buffer execution, the steps of the workers, and the
    invariant every step keeps.

    The master walks the commands; each worker executes one dispatch, workgroup
    by workgroup, and marks its completion in one critical section. The central
    idea of `Refines`: completing whatever is still pending leads to the memory
    the in-order interpreter reaches after the commands taken so far. */
module ScheduleState {
  import opened Memory
  import opened Status
  import opened ResidencySpec
  import opened ResidencyLaws
  import opened Commands

  datatype TaskState = Running | Succeeded | TaskFailed

  /** A task slot. `left` and `good` are the worker's own progress: the
      workgroups still to run and whether none has failed. */
  datatype Task = Task(inFlight: bool, state: TaskState, left: seq<Work>, good: bool, held: seq<int>, vtcm: nat, cmd: nat)

  /** An executed work of command `cmd`, with the descriptors mapped then. */
  datatype Ran = Ran(work: Work, mapped: set<int>, cmd: nat)

  /** The walk begins a command, a work of one is executed, the master notices
      that one has failed. */
  datatype Moment = Began(cmd: nat) | Worked(cmd: nat) | FailureSeen(cmd: nat)

  /** `master` is what the master itself is executing; `extra` the references it
      holds outside any task in flight; `done` the commands taken so far,
      `begun` the commands the walk has started on. */
  datatype State = State(
    tasks: seq<Task>, numInFlight: nat, numCompleted: nat, asleep: bool, vtcmInUse: nat,
    status: Status, cache: Cache, mem: Mem, log: seq<Ran>, history: seq<Moment>,
    master: seq<Work>, masterGood: bool, masterBusy: bool, masterVtcm: nat, extra: multiset<int>,
    done: nat, begun: nat)

  datatype Setup = Setup(cmds: seq<Command>, mem0: Mem, base: int -> nat, slots: nat, pool: nat)

  // ----- sums over task slots -----

  function Sum(ts: seq<Task>, f: Task -> nat): nat {
    if ts == [] then 0 else f(ts[0]) + Sum(ts[1..], f)
  }

  lemma {:induction false} SumUpdate(ts: seq<Task>, i: nat, t: Task, f: Task -> nat)
    requires i < |ts|
    ensures Sum(ts[i := t], f) + f(ts[i]) == Sum(ts, f) + f(t)
    decreases |ts|
  {
    if i == 0 {
      assert ts[0 := t][1..] == ts[1..];
    } else {
      SumUpdate(ts[1..], i - 1, t, f);
      assert ts[i := t][1..] == ts[1..][i - 1 := t];
    }
  }

  lemma {:induction false} SumBounds(ts: seq<Task>, f: Task -> nat, i: nat)
    requires i < |ts|
    ensures f(ts[i]) <= Sum(ts, f)
    decreases |ts|
  {
    if i > 0 {
      SumBounds(ts[1..], f, i - 1);
    }
  }

  lemma {:induction false} SumWitness(ts: seq<Task>, f: Task -> nat) returns (i: nat)
    requires Sum(ts, f) > 0
    ensures i < |ts| && f(ts[i]) > 0
    decreases |ts|
  {
    if f(ts[0]) > 0 {
      i := 0;
    } else {
      var j := SumWitness(ts[1..], f);
      i := j + 1;
    }
  }

  lemma {:induction false} SumCompare(ts: seq<Task>, f: Task -> nat, g: Task -> nat)
    requires forall t | t in ts :: g(t) <= f(t)
    ensures Sum(ts, g) <= Sum(ts, f)
    ensures Sum(ts, g) < Sum(ts, f) ==> exists i :: 0 <= i < |ts| && g(ts[i]) < f(ts[i])
    decreases |ts|
  {
    if ts != [] {
      SumCompare(ts[1..], f, g);
      if Sum(ts, g) < Sum(ts, f) && g(ts[0]) == f(ts[0]) {
        var i :| 0 <= i < |ts[1..]| && g(ts[1..][i]) < f(ts[1..][i]);
        assert ts[i + 1] == ts[1..][i];
      }
    }
  }

  lemma {:induction false} SumOfSame(ts: seq<Task>, t: Task, f: Task -> nat)
    requires f(t) == 0 && forall i | 0 <= i < |ts| :: ts[i] == t
    ensures Sum(ts, f) == 0
    decreases |ts|
  {
    if ts != [] {
      SumOfSame(ts[1..], t, f);
    }
  }

  function One(t: Task): nat { 1 }

  function InFlightUnit(t: Task): nat {
    if t.inFlight then 1 else 0
  }

  function CompletedUnit(t: Task): nat {
    if t.inFlight && !t.state.Running? then 1 else 0
  }

  function VtcmUnit(t: Task): nat {
    if t.inFlight then t.vtcm else 0
  }

  function HeldUnit(f: int): Task -> nat {
    (t: Task) => if t.inFlight then Multiplicity(t.held, f) else 0
  }

  /** Steps the workers can still take. */
  function WorkUnit(t: Task): nat {
    if t.inFlight && t.state.Running? then 1 + |t.left| else 0
  }

  // ----- the invariant -----

  /** Counters agree with the slots; the master sleeps only while nothing has
      completed and something is still going to. */
  ghost predicate Counts(su: Setup, s: State) {
    && 1 <= su.slots == |s.tasks|
    && s.numInFlight == Sum(s.tasks, InFlightUnit)
    && s.numCompleted == Sum(s.tasks, CompletedUnit)
    && s.numInFlight + (if s.masterBusy then 1 else 0) <= su.slots
    && s.vtcmInUse == Sum(s.tasks, VtcmUnit) + s.masterVtcm <= su.pool
    && (s.asleep ==> s.numCompleted == 0 && s.numInFlight > 0)
  }

  /** Every reference in the cache is accounted for. */
  ghost predicate References(su: Setup, s: State) {
    && WellFormed(s.cache)
    && forall f :: RefCount(s.cache.lru, f) == su.base(f) + Sum(s.tasks, HeldUnit(f)) + s.extra[f]
  }

  ghost predicate TaskOk(su: Setup, s: State, t: Task) {
    && t.cmd < s.done <= |su.cmds|
    && su.cmds[t.cmd].Dispatch?
    && NoBarrierBetween(su.cmds, t.cmd, s.done)
    && (forall w | w in t.left :: w in WorksOf(su.cmds[t.cmd]))
    && (forall b | b in BuffersOf(su.cmds[t.cmd]) :: RequestFd(b) in t.held)
    && (!t.state.Running? ==> t.left == [] && (t.state == Succeeded <==> t.good))
    && (!t.good ==> t.left == [])
  }

  /** Which command each pending work belongs to. No task in flight has a
      barrier between its command and the present. */
  ghost predicate Issued(su: Setup, s: State) {
    && s.done <= |su.cmds|
    && s.done <= s.begun <= s.done + 1
    && (forall i | 0 <= i < |s.tasks| && s.tasks[i].inFlight :: TaskOk(su, s, s.tasks[i]))
    && (forall i, j | 0 <= i < j < |s.tasks| && s.tasks[i].inFlight && s.tasks[j].inFlight ::
          s.tasks[i].cmd != s.tasks[j].cmd)
    && (s.master != [] ==>
          && s.done > 0
          && (forall w | w in s.master :: w in WorksOf(su.cmds[s.done - 1]))
          && (forall b | b in BuffersOf(su.cmds[s.done - 1]) :: RequestFd(b) in s.extra)
          && (forall i | 0 <= i < |s.tasks| && s.tasks[i].inFlight :: s.tasks[i].cmd != s.done - 1))
    && (!s.masterGood ==> s.master == [])
  }

  /** The commands of the works in a history, in order. */
  function Works(h: seq<Moment>): seq<nat> {
    if h == [] then []
    else Works(h[..|h| - 1]) + (if h[|h| - 1].Worked? then [h[|h| - 1].cmd] else [])
  }

  function CmdsOf(log: seq<Ran>): seq<nat> {
    seq(|log|, i requires 0 <= i < |log| => log[i].cmd)
  }

  /** Once a failure was noticed no command is begun. */
  ghost predicate NoneBegunAfterFailure(h: seq<Moment>) {
    forall p, q | 0 <= p < q < |h| && h[p].FailureSeen? :: !h[q].Began?
  }

  /** Whatever is executed or fails was begun before. */
  ghost predicate BegunFirst(h: seq<Moment>) {
    forall q | 0 <= q < |h| && !h[q].Began? :: Began(h[q].cmd) in h[..q]
  }

  ghost predicate SawFailure(h: seq<Moment>) {
    exists m :: m in h && m.FailureSeen?
  }

  /** The history agrees with what is known now. */
  ghost predicate Chronicle(h: seq<Moment>, begun: nat, failed: bool) {
    && NoneBegunAfterFailure(h) && BegunFirst(h)
    && (failed <==> SawFailure(h))
    && (forall k: nat | k < begun :: Began(k) in h)
  }

  ghost predicate Failure(s: State) {
    && s.status in {Success, Failed}
    && Chronicle(s.history, s.begun, s.status == Failed)
    && Works(s.history) == CmdsOf(s.log)
  }

  lemma ChronicleAppends(h: seq<Moment>, begun: nat, failed: bool, m: Moment)
    requires Chronicle(h, begun, failed)
    requires if m.Began? then !failed && m.cmd == begun else m.cmd < begun
    ensures Chronicle(h + [m], if m.Began? then begun + 1 else begun, failed || m.FailureSeen?)
  {
    var g := h + [m];
    assert m in g && forall x | x in h :: x in g;
    forall q | 0 <= q < |g| && !g[q].Began? ensures Began(g[q].cmd) in g[..q] {
      assert g[..q] == if q < |h| then h[..q] else h;
    }
  }

  lemma WorksAppends(h: seq<Moment>, m: Moment)
    ensures Works(h + [m]) == Works(h) + (if m.Worked? then [m.cmd] else [])
  {
    assert (h + [m])[..|h|] == h;
  }

  function Pending(t: Task): seq<Work> {
    if t.inFlight then t.left else []
  }

  function Queues(s: State): seq<seq<Work>> {
    seq(|s.tasks|, i requires 0 <= i < |s.tasks| => Pending(s.tasks[i])) + [s.master]
  }

  ghost predicate GoodTasks(ts: seq<Task>) {
    forall i | 0 <= i < |ts| && ts[i].inFlight :: ts[i].good
  }

  ghost predicate AllGood(s: State) {
    && s.status == Success
    && s.masterGood
    && GoodTasks(s.tasks)
  }

  lemma GoodTasksUpdate(ts: seq<Task>, i: nat, t: Task)
    requires i < |ts|
    ensures (ts[i].inFlight ==> ts[i].good) ==>
      (GoodTasks(ts[i := t]) <==> GoodTasks(ts) && (t.inFlight ==> t.good))
    ensures ts[i].inFlight && !ts[i].good ==> !GoodTasks(ts)
    ensures t.inFlight && !t.good ==> !GoodTasks(ts[i := t])
  {
    var u := ts[i := t];
    assert u[i] == t;
    assert forall k | 0 <= k < |ts| && k != i :: u[k] == ts[k];
    if GoodTasks(u) && (ts[i].inFlight ==> ts[i].good) {
      forall k | 0 <= k < |ts| && ts[k].inFlight ensures ts[k].good {
        assert k != i ==> u[k] == ts[k];
      }
    }
  }

  /** No failure so far, and none to come from what is pending. */
  ghost predicate Succeeding(s: State) {
    AllGood(s) && Flush(Queues(s), s.mem).ok
  }

  ghost predicate Refines(su: Setup, s: State)
    requires s.done <= |su.cmds|
  {
    var inOrder := Interpret(su.cmds, s.done, su.mem0);
    && (Succeeding(s) <==> inOrder.ok)
    && (inOrder.ok ==> Flush(Queues(s), s.mem).mem == inOrder.mem)
  }

  function ReplayLog(log: seq<Ran>, m: Mem): Mem {
    if log == [] then m else Apply(log[|log| - 1].work, ReplayLog(log[..|log| - 1], m))
  }

  function MappedFds(l: seq<Entry>): set<int> {
    set e | e in l :: e.fd
  }

  ghost predicate Belongs(cmds: seq<Command>, r: Ran) {
    r.cmd < |cmds| && r.work in WorksOf(cmds[r.cmd])
  }

  ghost predicate AllBelong(cmds: seq<Command>, log: seq<Ran>) {
    forall r | r in log :: Belongs(cmds, r)
  }

  ghost predicate AllMapped(log: seq<Ran>) {
    forall r | r in log :: TouchesOnly(r.work, r.mapped)
  }

  /** No work of a command before a barrier is executed after one of a command
      behind it. */
  ghost predicate BarriersKept(cmds: seq<Command>, log: seq<Ran>) {
    forall p, q, b | 0 <= p < q < |log| && 0 <= b < |cmds| && cmds[b].Barrier? ::
      !(log[q].cmd <= b <= log[p].cmd)
  }

  /** Memory is what the executed works made of it; each was a work of some
      command taken, ran while the allocations it touches were mapped, and not
      across a barrier. */
  ghost predicate Logged(su: Setup, s: State) {
    && s.mem == ReplayLog(s.log, su.mem0)
    && AllBelong(su.cmds, s.log)
    && (Confined(su.cmds) ==> AllMapped(s.log))
    && BarriersKept(su.cmds, s.log)
    && (forall r | r in s.log :: r.cmd < s.done)
  }

  ghost predicate Inv(su: Setup, s: State) {
    && Counts(su, s)
    && References(su, s)
    && Issued(su, s)
    && Failure(s)
    && (IndependentBetweenBarriers(su.cmds) ==> Refines(su, s))
    && Logged(su, s)
  }

  // ----- consequences -----

  lemma {:induction false} RefCountMapped(l: seq<Entry>, fd: int)
    requires RefCount(l, fd) > 0
    ensures fd in MappedFds(l)
  {
    assert l[IndexOf(l, fd)] in l;
  }

  /** Everything pending only touches allocations that are mapped right now. */
  lemma TaskFootprintMapped(su: Setup, s: State, i: nat, w: Work)
    requires References(su, s) && Issued(su, s) && Confined(su.cmds)
    requires i < |s.tasks| && s.tasks[i].inFlight && w in s.tasks[i].left
    ensures TouchesOnly(w, MappedFds(s.cache.lru))
  {
    var t := s.tasks[i];
    assert TaskOk(su, s, t);
    assert TouchesOnly(w, FdSet(BuffersOf(su.cmds[t.cmd]))) by {
      var k :| 0 <= k < |WorksOf(su.cmds[t.cmd])| && WorksOf(su.cmds[t.cmd])[k] == w;
    }
    forall l | l in w.loads + w.stores ensures l.fd in MappedFds(s.cache.lru) {
      assert l.fd in FdSet(BuffersOf(su.cmds[t.cmd]));
      assert l.fd in t.held;
      assert HeldUnit(l.fd)(t) > 0;
      SumBounds(s.tasks, HeldUnit(l.fd), i);
      RefCountMapped(s.cache.lru, l.fd);
    }
  }

  lemma MasterFootprintMapped(su: Setup, s: State, w: Work)
    requires References(su, s) && Issued(su, s) && Confined(su.cmds) && w in s.master
    ensures TouchesOnly(w, MappedFds(s.cache.lru))
  {
    var c := su.cmds[s.done - 1];
    assert TouchesOnly(w, FdSet(BuffersOf(c)));
    forall l | l in w.loads + w.stores ensures l.fd in MappedFds(s.cache.lru) {
      assert l.fd in FdSet(BuffersOf(c));
      RefCountMapped(s.cache.lru, l.fd);
    }
  }

  lemma IndependentSubset(a: seq<Work>, b: seq<Work>, a': seq<Work>, b': seq<Work>)
    requires IndependentSeqs(a, b)
    requires forall w | w in a' :: w in a
    requires forall w | w in b' :: w in b
    ensures IndependentSeqs(a', b') && IndependentSeqs(b', a')
  {
    forall x, y | x in a' && y in b' ensures Independent(x, y) && Independent(y, x) {
      assert Independent(x, y);
    }
  }

  /** Pending works of different commands do not conflict. */
  lemma QueuesIndependent(su: Setup, s: State)
    requires Issued(su, s) && IndependentBetweenBarriers(su.cmds)
    ensures PairwiseIndependent(Queues(s))
  {
    var q := Queues(s);
    forall i, j | 0 <= i < j < |q| ensures IndependentSeqs(q[i], q[j]) {
      if q[i] != [] && q[j] != [] {
        var t := s.tasks[i];
        assert TaskOk(su, s, t);
        var a := t.cmd;
        if j < |s.tasks| {
          var u := s.tasks[j];
          assert TaskOk(su, s, u);
          var b := u.cmd;
          if a < b {
            assert NoBarrierBetween(su.cmds, a, b);
            IndependentSubset(WorksOf(su.cmds[a]), WorksOf(su.cmds[b]), t.left, u.left);
          } else {
            assert NoBarrierBetween(su.cmds, b, a);
            IndependentSubset(WorksOf(su.cmds[b]), WorksOf(su.cmds[a]), u.left, t.left);
          }
        } else {
          assert NoBarrierBetween(su.cmds, a, s.done - 1);
          IndependentSubset(WorksOf(su.cmds[a]), WorksOf(su.cmds[s.done - 1]), t.left, s.master);
        }
      }
    }
  }

  // ----- worker steps -----

  predicate CanStep(s: State, i: nat) {
    i < |s.tasks| && s.tasks[i].inFlight && s.tasks[i].state.Running?
  }

  /** A worker runs its next workgroup (skipping the rest after a failure), or
      marks its dispatch completed and wakes the master. */
  function WorkerStep(s: State, i: nat): State
    requires CanStep(s, i)
  {
    var t := s.tasks[i];
    if t.left == [] then
      s.(tasks := s.tasks[i := t.(state := if t.good then Succeeded else TaskFailed)],
         numCompleted := s.numCompleted + 1, asleep := false)
    else
      var w := t.left[0];
      var ok := Succeeds(w, s.mem);
      s.(tasks := s.tasks[i := t.(left := if ok then t.left[1..] else [], good := ok)],
         mem := Apply(w, s.mem), log := s.log + [Ran(w, MappedFds(s.cache.lru), t.cmd)], history := s.history + [Worked(t.cmd)])
  }

  lemma WorkerStepCounts(su: Setup, s: State, i: nat)
    requires Counts(su, s) && CanStep(s, i)
    ensures Counts(su, WorkerStep(s, i))
    ensures Sum(WorkerStep(s, i).tasks, WorkUnit) < Sum(s.tasks, WorkUnit)
  {
    hide Sum, Succeeds, Apply, MappedFds;
    var s' := WorkerStep(s, i);
    SumUpdate(s.tasks, i, s'.tasks[i], InFlightUnit);
    SumUpdate(s.tasks, i, s'.tasks[i], CompletedUnit);
    SumUpdate(s.tasks, i, s'.tasks[i], VtcmUnit);
    SumUpdate(s.tasks, i, s'.tasks[i], WorkUnit);
  }

  lemma WorkerStepReferences(su: Setup, s: State, i: nat)
    requires References(su, s) && CanStep(s, i)
    ensures References(su, WorkerStep(s, i))
  {
    var s' := WorkerStep(s, i);
    forall f ensures Sum(s'.tasks, HeldUnit(f)) == Sum(s.tasks, HeldUnit(f)) {
      SumUpdate(s.tasks, i, s'.tasks[i], HeldUnit(f));
    }
  }

  lemma WorkerStepRefines(su: Setup, s: State, i: nat)
    requires Issued(su, s) && IndependentBetweenBarriers(su.cmds) && Refines(su, s) && CanStep(s, i)
    ensures Refines(su, WorkerStep(s, i))
  {
    hide GoodTasks, IndependentBetweenBarriers, Flush, PairwiseIndependent;
    var s' := WorkerStep(s, i);
    var t := s.tasks[i];
    assert TaskOk(su, s, t);
    GoodTasksUpdate(s.tasks, i, s'.tasks[i]);
    if t.left == [] {
      assert Queues(s') == Queues(s);
    } else {
      hide TaskOk;
      QueuesIndependent(su, s);
      FlushAbsorbsStep(Queues(s), i, s.mem);
      assert Succeeds(t.left[0], s.mem) ==> Queues(s') == Queues(s)[i := t.left[1..]];
    }
  }

  lemma WorkerStepIssued(su: Setup, s: State, i: nat)
    requires Issued(su, s) && CanStep(s, i)
    ensures Issued(su, WorkerStep(s, i))
  {
    hide TaskOk, WorksOf, BuffersOf, RequestFd;
    var s' := WorkerStep(s, i);
    StepTaskOk(su, s, i);
    forall k | 0 <= k < |s'.tasks| && s'.tasks[k].inFlight ensures TaskOk(su, s', s'.tasks[k]) {
      if k != i {
        OtherTaskOk(su, s, s', s.tasks[k]);
      }
    }
  }

  lemma StepTaskOk(su: Setup, s: State, i: nat)
    requires CanStep(s, i) && TaskOk(su, s, s.tasks[i])
    ensures TaskOk(su, WorkerStep(s, i), WorkerStep(s, i).tasks[i])
    ensures WorkerStep(s, i).tasks[i].cmd == s.tasks[i].cmd
  {
    hide NoBarrierBetween, WorksOf, BuffersOf, RequestFd, Succeeds, Apply;
  }

  lemma OtherTaskOk(su: Setup, s: State, s': State, t: Task)
    requires TaskOk(su, s, t) && s'.done == s.done
    ensures TaskOk(su, s', t)
  {
  }

  lemma BarriersKeptAppend(cmds: seq<Command>, log: seq<Ran>, r: Ran, done: nat)
    requires BarriersKept(cmds, log) && (forall e | e in log :: e.cmd < done)
    requires r.cmd < done <= |cmds| && NoBarrierBetween(cmds, r.cmd, done) && r.work in WorksOf(cmds[r.cmd])
    ensures BarriersKept(cmds, log + [r])
  {
    var log' := log + [r];
    forall p, q, b | 0 <= p < q < |log'| && 0 <= b < |cmds| && cmds[b].Barrier?
      ensures !(log'[q].cmd <= b <= log'[p].cmd)
    {
      assert log[p] in log;
    }
  }

  lemma EntriesAppend(cmds: seq<Command>, log: seq<Ran>, r: Ran, done: nat)
    ensures AllBelong(cmds, log) && Belongs(cmds, r) ==> AllBelong(cmds, log + [r])
    ensures AllMapped(log) && TouchesOnly(r.work, r.mapped) ==> AllMapped(log + [r])
    ensures r.cmd < done && (forall e | e in log :: e.cmd < done) ==> forall e | e in log + [r] :: e.cmd < done
  {
    hide Belongs, TouchesOnly;
  }

  /** Executing `w`, a work of command `k` that no barrier separates from the
      present, keeps the log in order. */
  lemma LogAppend(su: Setup, s: State, w: Work, k: nat)
    requires Logged(su, s) && k < s.done <= |su.cmds| && w in WorksOf(su.cmds[k])
    requires NoBarrierBetween(su.cmds, k, s.done)
    requires Confined(su.cmds) ==> TouchesOnly(w, MappedFds(s.cache.lru))
    ensures Logged(su, s.(mem := Apply(w, s.mem), log := s.log + [Ran(w, MappedFds(s.cache.lru), k)]))
  {
    hide Apply, Confined, TouchesOnly, MappedFds, AllBelong, AllMapped, BarriersKept, NoBarrierBetween, WorksOf;
    var r := Ran(w, MappedFds(s.cache.lru), k);
    BarriersKeptAppend(su.cmds, s.log, r, s.done);
    EntriesAppend(su.cmds, s.log, r, s.done);
    assert (s.log + [r])[..|s.log|] == s.log;
  }

  lemma WorkerStepLogged(su: Setup, s: State, i: nat)
    requires References(su, s) && Issued(su, s) && Logged(su, s) && CanStep(s, i)
    ensures Logged(su, WorkerStep(s, i))
  {
    hide References, Logged, Confined, Apply, Succeeds, MappedFds, TouchesOnly, NoBarrierBetween, WorksOf, BuffersOf;
    var t := s.tasks[i];
    assert TaskOk(su, s, t);
    if t.left != [] {
      if Confined(su.cmds) {
        TaskFootprintMapped(su, s, i, t.left[0]);
      }
      LogAppend(su, s, t.left[0], t.cmd);
    }
    LoggedAlike(su, WorkerStep(s, i),
      if t.left == [] then s
      else s.(mem := Apply(t.left[0], s.mem), log := s.log + [Ran(t.left[0], MappedFds(s.cache.lru), t.cmd)]));
  }

  lemma LoggedAlike(su: Setup, s: State, s': State)
    requires Logged(su, s') && s.mem == s'.mem && s.log == s'.log && s.done >= s'.done
    ensures Logged(su, s)
  {
  }

  lemma WorkerStepFailure(su: Setup, s: State, i: nat)
    requires Issued(su, s) && Failure(s) && CanStep(s, i)
    ensures Failure(WorkerStep(s, i))
  {
    hide Chronicle, Apply, Succeeds, MappedFds, NoBarrierBetween, WorksOf, BuffersOf;
    var t := s.tasks[i];
    assert TaskOk(su, s, t);
    ChronicleAppends(s.history, s.begun, s.status == Failed, Worked(t.cmd));
    WorksAppends(s.history, Worked(t.cmd));
  }

  /** Every step of every worker keeps the invariant. */
  lemma WorkerStepKeepsInv(su: Setup, s: State, i: nat)
    requires Inv(su, s) && CanStep(s, i)
    ensures Inv(su, WorkerStep(s, i))
    ensures Sum(WorkerStep(s, i).tasks, WorkUnit) < Sum(s.tasks, WorkUnit)
  {
    hide Counts, References, Issued, Failure, Refines, Logged, Sum, IndependentBetweenBarriers, WorkerStep;
    WorkerStepCounts(su, s, i);
    WorkerStepFailure(su, s, i);
    WorkerStepReferences(su, s, i);
    WorkerStepIssued(su, s, i);
    WorkerStepLogged(su, s, i);
    if IndependentBetweenBarriers(su.cmds) {
      WorkerStepRefines(su, s, i);
    }
  }

  /** The master never blocks forever: while it waits with a dispatch in flight
      and none completed, some worker can take a step. */
  lemma WaitingMeansRunning(su: Setup, s: State) returns (i: nat)
    requires Counts(su, s) && s.numInFlight > 0 && s.numCompleted == 0
    ensures CanStep(s, i)
  {
    i := SumWitness(s.tasks, InFlightUnit);
    SumBounds(s.tasks, CompletedUnit, i);
  }

  /** Every counted completion belongs to a task that can be claimed. */
  lemma CompletedMeansClaimable(su: Setup, s: State) returns (i: nat)
    requires Counts(su, s) && s.numCompleted > 0
    ensures i < |s.tasks| && s.tasks[i].inFlight && !s.tasks[i].state.Running?
  {
    i := SumWitness(s.tasks, CompletedUnit);
  }

  /** Below the concurrency limit there is a free task slot. */
  lemma FreeSlotExists(su: Setup, s: State) returns (i: nat)
    requires Counts(su, s) && s.numInFlight < su.slots
    ensures i < |s.tasks| && !s.tasks[i].inFlight
  {
    SumOfOnes(s.tasks);
    SumCompare(s.tasks, One, InFlightUnit);
    i :| 0 <= i < |s.tasks| && InFlightUnit(s.tasks[i]) < One(s.tasks[i]);
  }

  lemma {:induction false} SumOfOnes(ts: seq<Task>)
    ensures Sum(ts, One) == |ts|
    decreases |ts|
  {
    if ts != [] {
      SumOfOnes(ts[1..]);
    }
  }
}
