/** Lifetime of shared memory between host and DSP.

    The host counts references to an allocation and tells the DSP to forget its
    mapping before it deregisters the memory. The run of the whole system is a
    sequence of events of host threads, executions on the DSP and the residency
    cache in any interleaving; a release is split wherever other threads can
    come in between. */
module Lifetime {
  import opened Status
  import opened ResidencySpec
  import opened ResidencyLaws

  // ----- size of an allocation -----

  const ALIGN: nat := 128
  const INT_MAX: nat := 0x7fff_ffff
  const U64: nat := 0x1_0000_0000_0000_0000

  /** The padded size, in 64-bit arithmetic. */
  function PaddedSize(size: nat): nat {
    var s := (size + 2 * ALIGN - 1) % U64;
    s - s % ALIGN
  }

  /** An unaligned vector access at the last requested byte, and a pair of aligned
      vector accesses from any aligned start below the end, stay inside. */
  ghost predicate VectorsFit(size: nat, allocSize: nat) {
    && (size > 0 ==> size - 1 + ALIGN <= allocSize)
    && (forall at: nat | at < size && at % ALIGN == 0 :: at + 2 * ALIGN <= allocSize)
  }

  /** The padding suffices exactly if the padded size does not wrap around. */
  lemma PaddingSuffices(size: nat)
    requires size < U64
    ensures VectorsFit(size, PaddedSize(size)) <==> size + 2 * ALIGN - 1 < U64
    ensures PaddedSize(size) % ALIGN == 0
  {
  }

  /** The largest size is padded to 128 bytes, which passes as small enough. */
  lemma LargestSizeWraps()
    ensures PaddedSize(U64 - 1) == ALIGN <= INT_MAX && !VectorsFit(U64 - 1, PaddedSize(U64 - 1))
  {
  }

  // ----- one allocation -----

  datatype Phase = Live | Dying | Forgotten | Deregistered | Leaked

  /** `dspUsed` is set once the descriptor has been handed out for the DSP. */
  datatype Alloc = Alloc(fd: int, allocSize: nat, refCount: nat, dspUsed: bool, phase: Phase)

  function Retained(a: Alloc): Alloc {
    a.(refCount := a.refCount + 1)
  }

  function HandedOut(a: Alloc): Alloc {
    a.(dspUsed := true)
  }

  function Dropped(a: Alloc): Alloc
    requires a.refCount > 0
  {
    a.(refCount := a.refCount - 1, phase := if a.refCount == 1 then Dying else a.phase)
  }

  /** The DSP is asked to forget, but only about a descriptor it has seen. */
  function Forgetting(a: Alloc, c: Cache): (Alloc, Cache) {
    if !a.dspUsed then (a.(phase := Forgotten), c)
    else
      var (c', inUse) := Forget(c, a.fd);
      (a.(phase := if inUse then Leaked else Forgotten), c')
  }

  /** What there is after a release: the allocation, the registered descriptors
      and the residency cache. */
  datatype Outcome = Outcome(alloc: Alloc, registered: set<int>, cache: Cache)

  /** Drops one reference; the last one ends the allocation: the DSP forgets it,
      then it is deregistered, unless the DSP still uses it. */
  function AfterRelease(a: Alloc, registered: set<int>, c: Cache): Outcome
    requires a.refCount > 0
  {
    var dropped := Dropped(a);
    if a.refCount > 1 then Outcome(dropped, registered, c)
    else
      var (forgot, c') := Forgetting(dropped, c);
      if forgot.phase == Leaked then Outcome(forgot, registered, c')
      else Outcome(forgot.(fd := -1, phase := Deregistered), registered - {a.fd}, c')
  }

  /** Registered memory of the session, and the residency cache behind it. */
  class Session {
    var registered: set<int>
    var cache: Cache

    constructor (budget: nat)
      ensures registered == {} && cache == Cache([], budget, 0)
    {
      registered, cache := {}, Cache([], budget, 0);
    }
  }

  class MemAlloc {
    var size: nat
    var allocSize: nat
    var refCount: nat
    var fd: int
    var dspUsed: bool
    var phase: Phase

    ghost function Value(): Alloc
      reads this
    {
      Alloc(fd, allocSize, refCount, dspUsed, phase)
    }

    constructor (size: nat, allocSize: nat, fd: int)
      ensures Value() == Alloc(fd, allocSize, 1, false, Live) && this.size == size
    {
      this.size, this.allocSize, this.fd := size, allocSize, fd;
      refCount, dspUsed, phase := 1, false, Live;
    }

    method Retain()
      requires refCount > 0
      modifies this
      ensures Value() == Retained(old(Value())) && size == old(size)
    {
      refCount := refCount + 1;
    }

    method GetFd() returns (outFd: int, outSize: nat)
      modifies this
      ensures Value() == HandedOut(old(Value())) && size == old(size)
      ensures outFd == old(fd) && outSize == old(allocSize)
    {
      dspUsed := true;
      return fd, allocSize;
    }

    /** Drops one reference, and with the last one the allocation. Memory the DSP
        still uses is leaked. */
    method Release(session: Session)
      requires refCount > 0 && phase == Live
      modifies this, session
      ensures Outcome(Value(), session.registered, session.cache)
        == AfterRelease(old(Value()), old(session.registered), old(session.cache))
      ensures size == old(size)
    {
      refCount := refCount - 1;
      if refCount > 0 {
        return;
      }
      phase := Dying;
      var inUse := false;
      if dspUsed {
        var (c, b) := Forget(session.cache, fd);
        session.cache, inUse := c, b;
      }
      if inUse {
        phase := Leaked;
        return;
      }
      phase := Forgotten;
      session.registered := session.registered - {fd};
      phase, fd := Deregistered, -1;
    }
  }

  /** Creates an allocation: `memory` is the answer of the allocator, a
      descriptor if there is memory, and `mapped` whether registering works. */
  method Create(size: nat, memory: Option<int>, mapped: bool, session: Session) returns (st: Status, alloc: MemAlloc?)
    requires size < U64
    modifies session
    ensures st == Success <==> PaddedSize(size) <= INT_MAX && memory.Some? && memory.value != -1 && mapped
    ensures session.cache == old(session.cache)
    ensures st != Success ==> alloc == null && session.registered == old(session.registered)
    ensures st == Success ==>
      && alloc != null && fresh(alloc) && alloc.size == size
      && alloc.Value() == Alloc(memory.value, PaddedSize(size), 1, false, Live)
      && session.registered == old(session.registered) + {memory.value}
  {
    var allocSize := PaddedSize(size);
    if allocSize > INT_MAX {
      return BadParm, null;
    }
    if memory.None? {
      return NoMemory, null;
    }
    if memory.value == -1 || !mapped {
      return Failed, null;
    }
    session.registered := session.registered + {memory.value};
    alloc := new MemAlloc(size, allocSize, memory.value);
    return Success, alloc;
  }

  // ----- the system -----

  /** `owner`, a command buffer or an execution, uses allocation `id` under the
      descriptor `fd` it was given. */
  datatype Use = Use(owner: nat, id: int, fd: int)

  /** An execution of command buffer `cb` with a serialized binding table. */
  datatype Execution = Execution(cb: nat, bindings: seq<Use>)

  datatype World = World(
    allocs: map<int, Alloc>,
    /** which allocation the session knows under a descriptor */
    registered: map<int, int>,
    /** references held by application code */
    client: multiset<int>,
    /** direct references serialized into command buffers; each retains */
    recorded: seq<Use>,
    destroyed: set<nat>,
    executions: map<nat, Execution>,
    cache: Cache,
    /** references of executions to residency entries */
    held: seq<Use>,
    /** which allocation the mapping of a descriptor shows */
    shows: map<int, int>)

  function CountId(s: seq<Use>, id: int): nat {
    if s == [] then 0 else CountId(s[..|s| - 1], id) + (if s[|s| - 1].id == id then 1 else 0)
  }

  function CountFd(s: seq<Use>, fd: int): nat {
    if s == [] then 0 else CountFd(s[..|s| - 1], fd) + (if s[|s| - 1].fd == fd then 1 else 0)
  }

  function Without(s: seq<Use>, i: nat): seq<Use>
    requires i < |s|
  {
    s[..i] + s[i + 1..]
  }

  /** All host references to an allocation. */
  function References(w: World, id: int): nat {
    w.client[id] + CountId(w.recorded, id)
  }

  /** What execution `x` may ask the residency cache for. */
  ghost predicate MayUse(w: World, x: nat, u: Use) {
    && x in w.executions
    && (u in w.executions[x].bindings || (u in w.recorded && u.owner == w.executions[x].cb))
  }

  datatype Event =
    | Creates(id: int, fd: int, size: nat)
    | Retains(id: int)
    | HandsOut(id: int)
    | Records(cb: nat, id: int)
    | DestroysCommands(cb: nat)
    | DropsRecorded(i: nat)
    | Releases(id: int)
    | Forgets(id: int)
    | Deregisters(id: int)
    | Frees(id: int)
    | Starts(x: nat, cb: nat, ids: seq<int>)
    | Acquires(x: nat, use: Use, mmap: Oracle)
    | LetsGo(i: nat)
    | Finishes(x: nat)
    | SetsBudget(budget: nat)

  ghost predicate Phased(w: World, id: int, p: Phase) {
    id in w.allocs && w.allocs[id].phase == p
  }

  /** When an event can happen. Application code only uses references it has;
      descriptors of existing memory are not given out twice; whoever runs an
      execution keeps the command buffer and one reference to each bound buffer
      until it returns; an execution returns what it acquired. */
  ghost predicate Enabled(w: World, e: Event) {
    match e
    case Creates(id, fd, _) => id !in w.allocs && fd != -1 && forall k | k in w.allocs :: w.allocs[k].fd != fd
    case Retains(id) => w.client[id] > 0 && id in w.allocs
    case HandsOut(id) => w.client[id] > 0 && id in w.allocs
    case Records(cb, id) => cb !in w.destroyed && w.client[id] > 0 && id in w.allocs
    case DestroysCommands(cb) => forall x | x in w.executions :: w.executions[x].cb != cb
    case DropsRecorded(i) =>
      i < |w.recorded| && w.recorded[i].owner in w.destroyed && w.recorded[i].id in w.allocs
      && w.allocs[w.recorded[i].id].refCount > 0
    case Releases(id) =>
      && w.client[id] > 0 && id in w.allocs && w.allocs[id].refCount > 0
      && (w.client[id] > 1 || forall x | x in w.executions :: NotBound(w.executions[x], id))
    case Forgets(id) => Phased(w, id, Dying)
    case Deregisters(id) => Phased(w, id, Forgotten)
    case Frees(id) => Phased(w, id, Deregistered)
    case Starts(x, cb, ids) =>
      x !in w.executions && cb !in w.destroyed && forall i | 0 <= i < |ids| :: w.client[ids[i]] > 0 && ids[i] in w.allocs
    case Acquires(x, u, _) => MayUse(w, x, u) && u.id in w.allocs
    case LetsGo(i) => i < |w.held|
    case Finishes(x) => x in w.executions && forall u | u in w.held :: u.owner != x
    case SetsBudget(_) => true
  }

  ghost predicate NotBound(x: Execution, id: int) {
    forall u | u in x.bindings :: u.id != id
  }

  function Change(w: World, id: int, a: Alloc): World {
    w.(allocs := w.allocs[id := a])
  }

  /** The mapping made for `fd` shows whatever the session knows under it. */
  function Remapped(w: World, fd: int): map<int, int> {
    if fd in w.registered then w.shows[fd := w.registered[fd]] else w.shows - {fd}
  }

  function Bindings(w: World, x: nat, ids: seq<int>): seq<Use>
    requires forall i | 0 <= i < |ids| :: ids[i] in w.allocs
  {
    seq(|ids|, i requires 0 <= i < |ids| => Use(x, ids[i], w.allocs[ids[i]].fd))
  }

  function HandAllOut(allocs: map<int, Alloc>, ids: seq<int>): map<int, Alloc> {
    map id | id in allocs :: if id in ids then HandedOut(allocs[id]) else allocs[id]
  }

  ghost function Next(w: World, e: Event): World
    requires Enabled(w, e)
  {
    match e
    case Creates(id, fd, size) =>
      Change(w, id, Alloc(fd, PaddedSize(size), 1, false, Live))
        .(registered := w.registered[fd := id], client := w.client + multiset{id})
    case Retains(id) => Change(w, id, Retained(w.allocs[id])).(client := w.client + multiset{id})
    case HandsOut(id) => Change(w, id, HandedOut(w.allocs[id]))
    case Records(cb, id) =>
      Change(w, id, Retained(HandedOut(w.allocs[id]))).(recorded := w.recorded + [Use(cb, id, w.allocs[id].fd)])
    case DestroysCommands(cb) => w.(destroyed := w.destroyed + {cb})
    case DropsRecorded(i) =>
      Change(w, w.recorded[i].id, Dropped(w.allocs[w.recorded[i].id])).(recorded := Without(w.recorded, i))
    case Releases(id) => Change(w, id, Dropped(w.allocs[id])).(client := w.client - multiset{id})
    case Forgets(id) =>
      var (a, c) := Forgetting(w.allocs[id], w.cache);
      Change(w, id, a).(cache := c)
    case Deregisters(id) =>
      Change(w, id, w.allocs[id].(phase := Deregistered)).(registered := w.registered - {w.allocs[id].fd})
    case Frees(id) => w.(allocs := w.allocs - {id})
    case Starts(x, cb, ids) =>
      w.(allocs := HandAllOut(w.allocs, ids), executions := w.executions[x := Execution(cb, Bindings(w, x, ids))])
    case Acquires(x, u, mmap) =>
      var a := Acquire(w.cache, u.fd, w.allocs[u.id].allocSize, mmap);
      w.(cache := a.cache,
         held := if a.status == Success then w.held + [Use(x, u.id, u.fd)] else w.held,
         shows := if a.status == Success && !Mapped(w.cache.lru, u.fd) then Remapped(w, u.fd) else w.shows)
    case LetsGo(i) => w.(cache := Release(w.cache, w.held[i].fd), held := Without(w.held, i))
    case Finishes(x) => w.(executions := w.executions - {x})
    case SetsBudget(b) => w.(cache := SetBudget(w.cache, b).0)
  }

  ghost predicate Possible(w: World, es: seq<Event>)
    decreases |es|
  {
    es == [] || (Enabled(w, es[0]) && Possible(Next(w, es[0]), es[1..]))
  }

  ghost function After(w: World, es: seq<Event>): World
    requires Possible(w, es)
    decreases |es|
  {
    if es == [] then w else After(Next(w, es[0]), es[1..])
  }

  function Initial(budget: nat): World {
    World(map[], map[], multiset{}, [], {}, map[], Cache([], budget, 0), [], map[])
  }

  // ----- what every event keeps -----

  /** The count of an allocation is the number of host references to it, and it
      is alive as long as there is one; descriptors of existing memory differ. */
  ghost predicate HostInv(w: World) {
    && (forall id | id in w.allocs :: CountedRight(w, id))
    && (forall id | id !in w.allocs :: References(w, id) == 0)
    && (forall i, j | i in w.allocs && j in w.allocs && i != j :: w.allocs[i].fd != w.allocs[j].fd)
  }

  ghost predicate CountedRight(w: World, id: int)
    requires id in w.allocs
  {
    && w.allocs[id].refCount == References(w, id)
    && (w.allocs[id].refCount > 0 <==> w.allocs[id].phase == Live)
    && w.allocs[id].phase != Leaked
  }

  /** The session knows exactly the memory not yet deregistered. */
  ghost predicate SessionInv(w: World) {
    && (forall f | f in w.registered :: KnownAs(w, f, w.registered[f]))
    && (forall id | id in w.allocs && w.allocs[id].phase != Deregistered :: KnownAs(w, w.allocs[id].fd, id))
  }

  ghost predicate KnownAs(w: World, f: int, id: int) {
    && f in w.registered && w.registered[f] == id
    && id in w.allocs && w.allocs[id].fd == f && w.allocs[id].phase != Deregistered
  }

  /** A serialized descriptor still is that of the allocation it was taken
      from, which is known to have been handed out. */
  ghost predicate Faithful(w: World, u: Use) {
    u.id in w.allocs && w.allocs[u.id].fd == u.fd && w.allocs[u.id].dspUsed && References(w, u.id) > 0
  }

  ghost predicate WireInv(w: World) {
    && (forall u | u in w.recorded :: Faithful(w, u))
    && (forall x | x in w.executions :: BoundRight(w, x))
    && (forall u | u in w.held :: exists v :: MayUse(w, u.owner, v) && v.id == u.id && v.fd == u.fd)
  }

  ghost predicate BoundRight(w: World, x: nat)
    requires x in w.executions
  {
    && w.executions[x].cb !in w.destroyed
    && forall u | u in w.executions[x].bindings :: Faithful(w, u) && w.client[u.id] > 0
  }

  /** Residency references are exactly those of executions, and every mapping
      shows the memory now registered under its descriptor. */
  ghost predicate DspInv(w: World) {
    && WellFormed(w.cache)
    && (forall f :: RefCount(w.cache.lru, f) == CountFd(w.held, f))
    && (forall f | Mapped(w.cache.lru, f) :: Current(w, f))
  }

  ghost predicate Current(w: World, f: int) {
    && f in w.registered && f in w.shows && w.shows[f] == w.registered[f]
    && w.registered[f] in w.allocs
    && w.allocs[w.registered[f]].dspUsed && w.allocs[w.registered[f]].phase in {Live, Dying}
  }

  ghost predicate Inv(w: World) {
    HostInv(w) && SessionInv(w) && WireInv(w) && DspInv(w)
  }

  lemma CountsAfterAppend(s: seq<Use>, u: Use, k: int)
    ensures CountId(s + [u], k) == CountId(s, k) + (if u.id == k then 1 else 0)
    ensures CountFd(s + [u], k) == CountFd(s, k) + (if u.fd == k then 1 else 0)
  {
  }

  lemma {:induction false} CountsWithout(s: seq<Use>, i: nat, k: int)
    requires i < |s|
    ensures CountId(Without(s, i), k) == CountId(s, k) - (if s[i].id == k then 1 else 0)
    ensures CountFd(Without(s, i), k) == CountFd(s, k) - (if s[i].fd == k then 1 else 0)
    decreases |s|
  {
    var last := |s| - 1;
    if i == last {
      assert Without(s, i) == s[..last];
    } else {
      CountsWithout(s[..last], i, k);
      assert Without(s, i)[..last - 1] == Without(s[..last], i);
    }
  }

  lemma {:induction false} CountsPositive(s: seq<Use>, u: Use)
    requires u in s
    ensures CountId(s, u.id) > 0 && CountFd(s, u.fd) > 0
    decreases |s|
  {
    if s[|s| - 1] != u {
      assert u in s[..|s| - 1];
      CountsPositive(s[..|s| - 1], u);
    }
  }

  lemma WithoutMembers(s: seq<Use>, i: nat)
    requires i < |s|
    ensures forall u | u in Without(s, i) :: u in s
  {
  }

  /** Nothing happened to the memory: descriptors, registration and mappings
      are the same, and the last reference may just have gone. */
  ghost predicate SameMemory(w: World, v: World) {
    && v.registered == w.registered && v.cache == w.cache && v.held == w.held && v.shows == w.shows
    && v.allocs.Keys == w.allocs.Keys
    && forall id | id in w.allocs :: SameAlloc(w.allocs[id], v.allocs[id])
  }

  ghost predicate SameAlloc(a: Alloc, b: Alloc) {
    && b.fd == a.fd && (a.dspUsed ==> b.dspUsed)
    && (b.phase == a.phase || (a.phase == Live && b.phase == Dying))
  }

  lemma SameMemoryKeeps(w: World, v: World)
    requires SessionInv(w) && DspInv(w) && SameMemory(w, v)
    ensures SessionInv(v) && DspInv(v)
  {
    hide WellFormed, RefCount, Mapped, CountFd;
  }

  /** Nothing changed for allocations that are referenced. */
  ghost predicate SameReferenced(w: World, v: World) {
    && v.client == w.client && v.recorded == w.recorded && v.destroyed == w.destroyed
    && v.executions == w.executions && v.held == w.held
    && forall id | References(w, id) > 0 && id in w.allocs :: id in v.allocs && v.allocs[id] == w.allocs[id]
  }

  lemma SameReferencedKeeps(w: World, v: World)
    requires WireInv(w) && SameReferenced(w, v)
    ensures WireInv(v)
  {
  }

  lemma CreatesOnHost(w: World, id: int, fd: int, size: nat)
    requires HostInv(w) && Enabled(w, Creates(id, fd, size))
    ensures HostInv(Next(w, Creates(id, fd, size)))
  {
    hide CountId;
  }

  lemma CreatesOnWire(w: World, id: int, fd: int, size: nat)
    requires WireInv(w) && Enabled(w, Creates(id, fd, size))
    ensures WireInv(Next(w, Creates(id, fd, size)))
  {
    hide CountId;
    SameReferencedKeeps(w, Next(w, Creates(id, fd, size)).(client := w.client));
  }

  lemma CreatesOnDsp(w: World, id: int, fd: int, size: nat)
    requires HostInv(w) && SessionInv(w) && DspInv(w) && Enabled(w, Creates(id, fd, size))
    ensures SessionInv(Next(w, Creates(id, fd, size))) && DspInv(Next(w, Creates(id, fd, size)))
  {
    hide WellFormed, RefCount, Mapped, CountFd, CountedRight, References;
  }

  lemma CreatesKeepsInv(w: World, id: int, fd: int, size: nat)
    requires Inv(w) && Enabled(w, Creates(id, fd, size))
    ensures Inv(Next(w, Creates(id, fd, size)))
  {
    hide HostInv, SessionInv, WireInv, DspInv, Enabled, Next;
    CreatesOnHost(w, id, fd, size);
    CreatesOnWire(w, id, fd, size);
    CreatesOnDsp(w, id, fd, size);
  }

  lemma RetainsOnHost(w: World, id: int)
    requires HostInv(w) && Enabled(w, Retains(id))
    ensures HostInv(Next(w, Retains(id)))
  {
    hide CountId;
  }

  lemma RetainsOnWire(w: World, id: int)
    requires WireInv(w) && Enabled(w, Retains(id))
    ensures WireInv(Next(w, Retains(id)))
  {
    hide CountId;
  }

  lemma RetainsKeepsInv(w: World, id: int)
    requires Inv(w) && Enabled(w, Retains(id))
    ensures Inv(Next(w, Retains(id)))
  {
    hide HostInv, SessionInv, WireInv, DspInv, CountId;
    RetainsOnHost(w, id);
    RetainsOnWire(w, id);
    SameMemoryKeeps(w, Next(w, Retains(id)));
  }

  lemma HandsOutOnHost(w: World, id: int)
    requires HostInv(w) && Enabled(w, HandsOut(id))
    ensures HostInv(Next(w, HandsOut(id)))
  {
    hide CountId;
  }

  lemma HandsOutOnWire(w: World, id: int)
    requires WireInv(w) && Enabled(w, HandsOut(id))
    ensures WireInv(Next(w, HandsOut(id)))
  {
    hide CountId;
  }

  lemma HandsOutKeepsInv(w: World, id: int)
    requires Inv(w) && Enabled(w, HandsOut(id))
    ensures Inv(Next(w, HandsOut(id)))
  {
    hide HostInv, SessionInv, WireInv, DspInv, CountId;
    HandsOutOnHost(w, id);
    HandsOutOnWire(w, id);
    SameMemoryKeeps(w, Next(w, HandsOut(id)));
  }

  lemma RecordsOnHost(w: World, cb: nat, id: int)
    requires HostInv(w) && Enabled(w, Records(cb, id))
    ensures HostInv(Next(w, Records(cb, id)))
  {
    hide CountId;
    forall k { CountsAfterAppend(w.recorded, Use(cb, id, w.allocs[id].fd), k); }
  }

  lemma RecordsOnWire(w: World, cb: nat, id: int)
    requires WireInv(w) && Enabled(w, Records(cb, id))
    ensures WireInv(Next(w, Records(cb, id)))
  {
    hide CountId;
    forall k { CountsAfterAppend(w.recorded, Use(cb, id, w.allocs[id].fd), k); }
  }

  lemma RecordsKeepsInv(w: World, cb: nat, id: int)
    requires Inv(w) && Enabled(w, Records(cb, id))
    ensures Inv(Next(w, Records(cb, id)))
  {
    hide HostInv, SessionInv, WireInv, DspInv;
    RecordsOnHost(w, cb, id);
    RecordsOnWire(w, cb, id);
    SameMemoryKeeps(w, Next(w, Records(cb, id)));
  }

  lemma DestroysKeepsInv(w: World, cb: nat)
    requires Inv(w) && Enabled(w, DestroysCommands(cb))
    ensures Inv(Next(w, DestroysCommands(cb)))
  {
    hide SessionInv, DspInv, CountId;
    SameMemoryKeeps(w, Next(w, DestroysCommands(cb)));
  }

  lemma CountedIsLive(w: World, id: int)
    requires HostInv(w) && id in w.allocs && w.allocs[id].refCount > 0
    ensures w.allocs[id].phase == Live
  {
    hide CountId;
  }

  lemma DropsOnHost(w: World, i: nat)
    requires HostInv(w) && Enabled(w, DropsRecorded(i))
    ensures HostInv(Next(w, DropsRecorded(i)))
  {
    hide CountId;
    forall k { CountsWithout(w.recorded, i, k); }
  }

  lemma DropsOnWire(w: World, i: nat)
    requires WireInv(w) && Enabled(w, DropsRecorded(i))
    ensures WireInv(Next(w, DropsRecorded(i)))
  {
    hide CountId;
    var v := Next(w, DropsRecorded(i));
    forall k { CountsWithout(w.recorded, i, k); }
    WithoutMembers(w.recorded, i);
    forall u | u in v.recorded { CountsPositive(v.recorded, u); }
  }

  lemma DropsKeepsInv(w: World, i: nat)
    requires Inv(w) && Enabled(w, DropsRecorded(i))
    ensures Inv(Next(w, DropsRecorded(i)))
  {
    hide HostInv, SessionInv, WireInv, DspInv, CountId, Without;
    CountedIsLive(w, w.recorded[i].id);
    DropsOnHost(w, i);
    DropsOnWire(w, i);
    SameMemoryKeeps(w, Next(w, DropsRecorded(i)));
  }

  lemma ReleasesOnWire(w: World, id: int)
    requires HostInv(w) && WireInv(w) && Enabled(w, Releases(id))
    ensures WireInv(Next(w, Releases(id)))
  {
    hide CountId, CountedRight;
    forall u | u in w.recorded { CountsPositive(w.recorded, u); }
  }

  lemma ReleasesOnHost(w: World, id: int)
    requires HostInv(w) && Enabled(w, Releases(id))
    ensures HostInv(Next(w, Releases(id)))
  {
    hide CountId;
  }

  lemma ReleasesKeepsInv(w: World, id: int)
    requires Inv(w) && Enabled(w, Releases(id))
    ensures Inv(Next(w, Releases(id)))
  {
    hide HostInv, SessionInv, DspInv, WireInv, CountId;
    CountedIsLive(w, id);
    ReleasesOnHost(w, id);
    ReleasesOnWire(w, id);
    SameMemoryKeeps(w, Next(w, Releases(id)));
  }

  lemma StartsOnWire(w: World, x: nat, cb: nat, ids: seq<int>)
    requires HostInv(w) && WireInv(w) && Enabled(w, Starts(x, cb, ids))
    ensures WireInv(Next(w, Starts(x, cb, ids)))
  {
    hide CountId, CountedRight;
  }

  lemma StartsOnHost(w: World, x: nat, cb: nat, ids: seq<int>)
    requires HostInv(w) && Enabled(w, Starts(x, cb, ids))
    ensures HostInv(Next(w, Starts(x, cb, ids)))
  {
    hide CountId;
  }

  lemma StartsKeepsInv(w: World, x: nat, cb: nat, ids: seq<int>)
    requires Inv(w) && Enabled(w, Starts(x, cb, ids))
    ensures Inv(Next(w, Starts(x, cb, ids)))
  {
    hide HostInv, SessionInv, DspInv, WireInv, CountId;
    StartsOnHost(w, x, cb, ids);
    StartsOnWire(w, x, cb, ids);
    SameMemoryKeeps(w, Next(w, Starts(x, cb, ids)));
  }

  lemma FinishesKeepsInv(w: World, x: nat)
    requires Inv(w) && Enabled(w, Finishes(x))
    ensures Inv(Next(w, Finishes(x)))
  {
    hide SessionInv, DspInv, CountId;
    SameMemoryKeeps(w, Next(w, Finishes(x)));
  }

  lemma DeregistersOnDsp(w: World, id: int)
    requires HostInv(w) && SessionInv(w) && DspInv(w) && Enabled(w, Deregisters(id))
    ensures SessionInv(Next(w, Deregisters(id))) && DspInv(Next(w, Deregisters(id)))
  {
    hide WellFormed, RefCount, Mapped, CountFd, CountedRight, References;
  }

  lemma DeregistersOnHost(w: World, id: int)
    requires HostInv(w) && WireInv(w) && Enabled(w, Deregisters(id))
    ensures HostInv(Next(w, Deregisters(id))) && WireInv(Next(w, Deregisters(id)))
  {
    hide WireInv, CountId;
    SameReferencedKeeps(w, Next(w, Deregisters(id)));
  }

  lemma DeregistersKeepsInv(w: World, id: int)
    requires Inv(w) && Enabled(w, Deregisters(id))
    ensures Inv(Next(w, Deregisters(id)))
  {
    hide HostInv, SessionInv, WireInv, DspInv, Enabled, Next;
    DeregistersOnDsp(w, id);
    DeregistersOnHost(w, id);
  }

  lemma FreesOnHost(w: World, id: int)
    requires HostInv(w) && WireInv(w) && Enabled(w, Frees(id))
    ensures HostInv(Next(w, Frees(id))) && WireInv(Next(w, Frees(id)))
  {
    hide WireInv, CountId;
    SameReferencedKeeps(w, Next(w, Frees(id)));
  }

  lemma FreesOnDsp(w: World, id: int)
    requires SessionInv(w) && DspInv(w) && Enabled(w, Frees(id))
    ensures SessionInv(Next(w, Frees(id))) && DspInv(Next(w, Frees(id)))
  {
    hide WellFormed, RefCount, Mapped, CountFd;
  }

  lemma FreesKeepsInv(w: World, id: int)
    requires Inv(w) && Enabled(w, Frees(id))
    ensures Inv(Next(w, Frees(id)))
  {
    hide HostInv, SessionInv, WireInv, DspInv, Enabled, Next;
    FreesOnHost(w, id);
    FreesOnDsp(w, id);
  }

  lemma {:induction false} CountedMember(s: seq<Use>, fd: int) returns (u: Use)
    requires CountFd(s, fd) > 0
    ensures u in s && u.fd == fd
    decreases |s|
  {
    u := s[|s| - 1];
    if u.fd != fd {
      u := CountedMember(s[..|s| - 1], fd);
    }
  }

  /** Whatever an execution holds is alive on the host. */
  lemma HeldIsLive(w: World, fd: int, id: int)
    requires HostInv(w) && WireInv(w) && CountFd(w.held, fd) > 0 && id in w.allocs && w.allocs[id].fd == fd
    ensures w.allocs[id].phase == Live
  {
    var u := CountedMember(w.held, fd);
    hide CountFd, References;
    var v :| MayUse(w, u.owner, v) && v.id == u.id && v.fd == u.fd;
    assert Faithful(w, v);
  }

  /** Memory about to be forgotten has no host reference, so no execution can be
      using it: the DSP never answers that it is in use. */
  lemma ForgetIsAccepted(w: World, id: int)
    requires Inv(w) && Enabled(w, Forgets(id))
    ensures RefCount(w.cache.lru, w.allocs[id].fd) == 0
    ensures !Forget(w.cache, w.allocs[id].fd).1
  {
    var fd := w.allocs[id].fd;
    if CountFd(w.held, fd) > 0 {
      HeldIsLive(w, fd, id);
    }
    hide SessionInv, HostInv, WireInv;
    ForgetConserves(w.cache, fd, fd);
  }

  // ----- the residency calls, one descriptor at a time -----

  lemma ForgetAt(c: Cache, fd: int, f: int)
    requires WellFormed(c) && RefCount(c.lru, fd) == 0
    ensures var c' := Forget(c, fd).0;
      && WellFormed(c') && RefCount(c'.lru, f) == RefCount(c.lru, f)
      && (Mapped(c'.lru, f) ==> f != fd && Mapped(c.lru, f))
  {
    ForgetConserves(c, fd, f);
  }

  lemma ReleaseAt(c: Cache, fd: int, f: int)
    requires WellFormed(c) && RefCount(c.lru, fd) > 0
    ensures var c' := Release(c, fd);
      && WellFormed(c') && RefCount(c'.lru, f) == RefCount(c.lru, f) - (if f == fd then 1 else 0)
      && (Mapped(c'.lru, f) <==> Mapped(c.lru, f))
  {
    ReleaseConserves(c, fd, f);
  }

  /** An acquire maps nothing but what it was asked for. */
  lemma AcquireAt(c: Cache, fd: int, size: nat, mmap: Oracle, f: int)
    requires WellFormed(c)
    ensures var a := Acquire(c, fd, size, mmap);
      && WellFormed(a.cache)
      && RefCount(a.cache.lru, f) == RefCount(c.lru, f) + (if f == fd && a.status == Success then 1 else 0)
      && (Mapped(a.cache.lru, f) ==> Mapped(c.lru, f) || (f == fd && a.status == Success))
  {
    AcquireConserves(c, fd, size, mmap, f);
    if !Mapped(c.lru, fd) && size > 0 {
      MissMapsOnly(c, fd, size, mmap, f);
    } else if f != fd && Mapped(c.lru, fd) {
      HitKeepsMapped(c, fd, size, mmap, f);
    }
  }

  lemma HitKeepsMapped(c: Cache, fd: int, size: nat, mmap: Oracle, f: int)
    requires WellFormed(c) && Mapped(c.lru, fd) && f != fd
    ensures Mapped(Acquire(c, fd, size, mmap).cache.lru, f) ==> Mapped(c.lru, f)
  {
  }

  lemma MissMapsOnly(c: Cache, fd: int, size: nat, mmap: Oracle, f: int)
    requires WellFormed(c) && !Mapped(c.lru, fd) && size > 0
    ensures var a := Acquire(c, fd, size, mmap);
      Mapped(a.cache.lru, f) ==> Mapped(c.lru, f) || (f == fd && a.status == Success)
  {
    hide MakeRoom, MapWithRetry, WithoutOldestIdle, SizeSum, InUseSum, IdleCount, FirstIdle;
    var k := MissEvicts(c, fd, size, mmap);
    var w := WithoutOldestIdle(c.lru, k);
    WithoutKeepsHeld(c.lru, k, f);
    WithoutKeepsHeld(c.lru, k, fd);
    var a := Acquire(c, fd, size, mmap);
    if a.status == Success {
      IndexOfAppend(w, a.cache.lru[|w|], f);
    }
  }

  lemma ForgetsOnDsp(w: World, id: int)
    requires Inv(w) && Enabled(w, Forgets(id)) && w.allocs[id].dspUsed
    ensures DspInv(Next(w, Forgets(id)))
  {
    hide HostInv, WireInv, Forget, RefCount, Mapped, WellFormed, CountFd, CountId;
    var fd := w.allocs[id].fd;
    ForgetIsAccepted(w, id);
    var c := Forget(w.cache, fd).0;
    ForgetAt(w.cache, fd, fd);
    forall f ensures WellFormed(c) && RefCount(c.lru, f) == RefCount(w.cache.lru, f)
                     && (Mapped(c.lru, f) ==> f != fd && Mapped(w.cache.lru, f)) {
      ForgetAt(w.cache, fd, f);
    }
  }

  lemma ForgetsOnHost(w: World, id: int)
    requires HostInv(w) && WireInv(w) && Enabled(w, Forgets(id))
    requires w.allocs[id].dspUsed ==> !Forget(w.cache, w.allocs[id].fd).1
    ensures HostInv(Next(w, Forgets(id))) && WireInv(Next(w, Forgets(id)))
  {
    hide WireInv, Forget, CountId;
    SameReferencedKeeps(w, Next(w, Forgets(id)));
  }

  lemma ForgetsOnSession(w: World, id: int)
    requires SessionInv(w) && Enabled(w, Forgets(id))
    ensures SessionInv(Next(w, Forgets(id)))
  {
    hide Forget;
  }

  lemma ForgetsUnseen(w: World, id: int)
    requires SessionInv(w) && DspInv(w) && Enabled(w, Forgets(id)) && !w.allocs[id].dspUsed
    ensures DspInv(Next(w, Forgets(id)))
  {
    hide WellFormed, CountFd, RefCount, Mapped;
  }

  lemma ForgetsKeepsInv(w: World, id: int)
    requires Inv(w) && Enabled(w, Forgets(id))
    ensures Inv(Next(w, Forgets(id)))
  {
    hide HostInv, SessionInv, WireInv, DspInv, Next, Forget;
    ForgetIsAccepted(w, id);
    ForgetsOnHost(w, id);
    ForgetsOnSession(w, id);
    if w.allocs[id].dspUsed {
      ForgetsOnDsp(w, id);
    } else {
      ForgetsUnseen(w, id);
    }
  }

  lemma LetsGoOnDsp(w: World, i: nat)
    requires DspInv(w) && Enabled(w, LetsGo(i))
    ensures DspInv(Next(w, LetsGo(i)))
  {
    hide Release, RefCount, Mapped, WellFormed, CountFd, CountId;
    var fd := w.held[i].fd;
    CountsPositive(w.held, w.held[i]);
    var c := Release(w.cache, fd);
    ReleaseAt(w.cache, fd, fd);
    forall f ensures WellFormed(c) && RefCount(c.lru, f) == CountFd(Without(w.held, i), f)
                     && (Mapped(c.lru, f) <==> Mapped(w.cache.lru, f)) {
      ReleaseAt(w.cache, fd, f);
      CountsWithout(w.held, i, f);
    }
  }

  lemma LetsGoOnWire(w: World, i: nat)
    requires WireInv(w) && Enabled(w, LetsGo(i))
    ensures WireInv(Next(w, LetsGo(i)))
  {
    hide CountId, Release;
    WithoutMembers(w.held, i);
  }

  lemma LetsGoKeepsInv(w: World, i: nat)
    requires Inv(w) && Enabled(w, LetsGo(i))
    ensures Inv(Next(w, LetsGo(i)))
  {
    hide HostInv, SessionInv, WireInv, DspInv, Release;
    LetsGoOnDsp(w, i);
    LetsGoOnWire(w, i);
    HostUnchanged(w, Next(w, LetsGo(i)));
  }

  lemma UsedIsKnown(w: World, x: nat, u: Use)
    requires HostInv(w) && SessionInv(w) && WireInv(w) && MayUse(w, x, u)
    ensures KnownAs(w, u.fd, u.id) && w.allocs[u.id].dspUsed && w.allocs[u.id].phase == Live
  {
  }

  lemma AcquiresOnDsp(w: World, x: nat, u: Use, mmap: Oracle)
    requires SessionInv(w) && WireInv(w) && HostInv(w) && DspInv(w) && Enabled(w, Acquires(x, u, mmap))
    ensures DspInv(Next(w, Acquires(x, u, mmap)))
  {
    hide SessionInv, WireInv, HostInv, Acquire, RefCount, Mapped, WellFormed, CountFd, CountId;
    UsedIsKnown(w, x, u);
    var a := Acquire(w.cache, u.fd, w.allocs[u.id].allocSize, mmap);
    var v := Next(w, Acquires(x, u, mmap));
    forall f ensures WellFormed(a.cache) && RefCount(a.cache.lru, f) == CountFd(v.held, f)
                     && (Mapped(a.cache.lru, f) ==> Mapped(w.cache.lru, f) || (f == u.fd && a.status == Success)) {
      AcquireAt(w.cache, u.fd, w.allocs[u.id].allocSize, mmap, f);
      CountsAfterAppend(w.held, Use(x, u.id, u.fd), f);
    }
  }

  lemma AcquiresOnWire(w: World, x: nat, u: Use, mmap: Oracle)
    requires WireInv(w) && Enabled(w, Acquires(x, u, mmap))
    ensures WireInv(Next(w, Acquires(x, u, mmap)))
  {
    hide CountId, Acquire;
  }

  lemma AcquiresKeepsInv(w: World, x: nat, u: Use, mmap: Oracle)
    requires Inv(w) && Enabled(w, Acquires(x, u, mmap))
    ensures Inv(Next(w, Acquires(x, u, mmap)))
  {
    hide HostInv, SessionInv, WireInv, DspInv, Acquire;
    AcquiresOnDsp(w, x, u, mmap);
    AcquiresOnWire(w, x, u, mmap);
    HostUnchanged(w, Next(w, Acquires(x, u, mmap)));
  }

  lemma HostUnchanged(w: World, v: World)
    requires v.allocs == w.allocs && v.client == w.client && v.recorded == w.recorded && v.registered == w.registered
    ensures HostInv(w) == HostInv(v) && SessionInv(w) == SessionInv(v)
  {
    hide CountId;
  }

  /** A successful acquire gets the memory of the allocation its descriptor was
      serialized for, be it mapped just now or long ago. */
  lemma AcquireShowsItsAllocation(w: World, x: nat, u: Use, mmap: Oracle)
    requires Inv(w) && Enabled(w, Acquires(x, u, mmap))
    requires Acquire(w.cache, u.fd, w.allocs[u.id].allocSize, mmap).status == Success
    ensures var v := Next(w, Acquires(x, u, mmap));
      u.fd in v.shows && v.shows[u.fd] == u.id && Mapped(v.cache.lru, u.fd)
  {
    assert Faithful(w, u);
    AcquireConserves(w.cache, u.fd, w.allocs[u.id].allocSize, mmap, u.fd);
    hide Acquire, CountFd, CountId, WellFormed, RefCount;
  }

  // ----- whole runs -----

  lemma SetsBudgetKeepsInv(w: World, b: nat)
    requires Inv(w) && Enabled(w, SetsBudget(b))
    ensures Inv(Next(w, SetsBudget(b)))
  {
    hide HostInv, SessionInv, CountFd, CountId;
    HostUnchanged(w, Next(w, SetsBudget(b)));
  }

  lemma StepKeepsInv(w: World, e: Event)
    requires Inv(w) && Enabled(w, e)
    ensures Inv(Next(w, e))
  {
    hide Inv, Enabled, Next;
    match e
    case Creates(id, fd, size) => CreatesKeepsInv(w, id, fd, size);
    case Retains(id) => RetainsKeepsInv(w, id);
    case HandsOut(id) => HandsOutKeepsInv(w, id);
    case Records(cb, id) => RecordsKeepsInv(w, cb, id);
    case DestroysCommands(cb) => DestroysKeepsInv(w, cb);
    case DropsRecorded(i) => DropsKeepsInv(w, i);
    case Releases(id) => ReleasesKeepsInv(w, id);
    case Forgets(id) => ForgetsKeepsInv(w, id);
    case Deregisters(id) => DeregistersKeepsInv(w, id);
    case Frees(id) => FreesKeepsInv(w, id);
    case Starts(x, cb, ids) => StartsKeepsInv(w, x, cb, ids);
    case Acquires(x, u, mmap) => AcquiresKeepsInv(w, x, u, mmap);
    case LetsGo(i) => LetsGoKeepsInv(w, i);
    case Finishes(x) => FinishesKeepsInv(w, x);
    case SetsBudget(b) => SetsBudgetKeepsInv(w, b);
  }

  lemma {:induction false} RunKeepsInv(w: World, es: seq<Event>)
    requires Inv(w) && Possible(w, es)
    ensures Inv(After(w, es))
    decreases |es|
  {
    if es != [] {
      hide Inv, Enabled, Next;
      StepKeepsInv(w, es[0]);
      RunKeepsInv(Next(w, es[0]), es[1..]);
    }
  }

  /** Memory is deregistered only when the DSP does not map it, the DSP never
      reports memory about to be freed as in use so nothing is ever leaked, and
      whatever is mapped shows the memory registered under its descriptor now. */
  ghost predicate Safe(w: World) {
    && (forall id | Enabled(w, Deregisters(id)) :: !Mapped(w.cache.lru, w.allocs[id].fd))
    && (forall id | Enabled(w, Forgets(id)) :: !Forget(w.cache, w.allocs[id].fd).1)
    && (forall id | id in w.allocs :: w.allocs[id].phase != Leaked)
    && (forall f | Mapped(w.cache.lru, f) :: f in w.shows && f in w.registered && w.shows[f] == w.registered[f])
  }

  lemma InvIsSafe(w: World)
    requires Inv(w)
    ensures Safe(w)
  {
    hide WireInv, WellFormed, RefCount, CountFd, References, Forget, Mapped;
    forall id | Enabled(w, Forgets(id)) ensures !Forget(w.cache, w.allocs[id].fd).1 {
      ForgetIsAccepted(w, id);
    }
  }

  /** Every run from an empty session is safe at every point. */
  lemma LifetimeIsSafe(budget: nat, es: seq<Event>)
    requires Possible(Initial(budget), es)
    ensures Safe(After(Initial(budget), es))
  {
    assert Inv(Initial(budget));
    hide Inv, Safe, Possible, After;
    RunKeepsInv(Initial(budget), es);
    InvIsSafe(After(Initial(budget), es));
  }

  /** Descriptor numbers come back, yet in every run an execution that acquires
      one gets the memory of the allocation it was serialized for. */
  lemma ReusedDescriptorIsNeverStale(budget: nat, es: seq<Event>, w: World, x: nat, u: Use, mmap: Oracle)
    requires Possible(Initial(budget), es) && w == After(Initial(budget), es)
    requires Enabled(w, Acquires(x, u, mmap))
    requires Acquire(w.cache, u.fd, w.allocs[u.id].allocSize, mmap).status == Success
    ensures var v := Next(w, Acquires(x, u, mmap));
      Mapped(v.cache.lru, u.fd) && u.fd in v.shows && v.shows[u.fd] == u.id
  {
    assert Inv(Initial(budget));
    hide Inv, Possible, After;
    RunKeepsInv(Initial(budget), es);
    AcquireShowsItsAllocation(w, x, u, mmap);
  }

  // ----- a release as the events it consists of -----

  function ReleaseEvents(w: World, id: int): seq<Event>
    requires id in w.allocs
  {
    if w.allocs[id].refCount > 1 then [Releases(id)] else [Releases(id), Forgets(id), Deregisters(id), Frees(id)]
  }

  lemma LastRelease(w: World, id: int) returns (w1: World, w2: World, w3: World)
    requires Inv(w) && Enabled(w, Releases(id)) && w.allocs[id].refCount == 1
    ensures w1 == Next(w, Releases(id)) && Enabled(w1, Forgets(id))
    ensures w2 == Next(w1, Forgets(id)) && Enabled(w2, Deregisters(id))
    ensures w3 == Next(w2, Deregisters(id)) && Enabled(w3, Frees(id))
    ensures var o := AfterRelease(w.allocs[id], w.registered.Keys, w.cache);
      && o.alloc.phase == Deregistered && w3.cache == o.cache && w3.registered.Keys == o.registered
      && w3.allocs - {id} == w.allocs - {id} && w3.client == w.client - multiset{id}
      && w3.recorded == w.recorded && w3.executions == w.executions && w3.held == w.held && w3.shows == w.shows
  {
    hide Inv, Forget, Next, Enabled;
    w1 := Next(w, Releases(id));
    ReleasesLast(w, id);
    ReleasesKeepsInv(w, id);
    ForgetIsAccepted(w1, id);
    w2 := Next(w1, Forgets(id));
    ForgetsAccepted(w1, id);
    w3 := Next(w2, Deregisters(id));
    DeregistersForgotten(w2, id);
  }

  lemma ReleasesLast(w: World, id: int)
    requires Enabled(w, Releases(id)) && w.allocs[id].refCount == 1
    ensures var w1 := Next(w, Releases(id));
      w1 == w.(allocs := w.allocs[id := Dropped(w.allocs[id])], client := w.client - multiset{id}) && Enabled(w1, Forgets(id))
  {
  }

  lemma ForgetsAccepted(w: World, id: int)
    requires Enabled(w, Forgets(id)) && !Forget(w.cache, w.allocs[id].fd).1
    ensures id in w.allocs && Enabled(Next(w, Forgets(id)), Deregisters(id))
    ensures Next(w, Forgets(id)) ==
      w.(allocs := w.allocs[id := w.allocs[id].(phase := Forgotten)],
         cache := if w.allocs[id].dspUsed then Forget(w.cache, w.allocs[id].fd).0 else w.cache)
  {
    hide Forget;
  }

  lemma DeregistersForgotten(w: World, id: int)
    requires Enabled(w, Deregisters(id))
    ensures id in w.allocs && Enabled(Next(w, Deregisters(id)), Frees(id))
    ensures Next(w, Deregisters(id)) ==
      w.(allocs := w.allocs[id := w.allocs[id].(phase := Deregistered)], registered := w.registered - {w.allocs[id].fd})
  {
  }

  lemma NoEvents(w: World)
    ensures Possible(w, []) && After(w, []) == w
  {
  }

  lemma OneFirst(w: World, e: Event, es: seq<Event>)
    requires Enabled(w, e) && Possible(Next(w, e), es)
    ensures Possible(w, [e] + es) && After(w, [e] + es) == After(Next(w, e), es)
  {
    assert ([e] + es)[1..] == es;
  }

  lemma OnlyRelease(w: World, id: int)
    requires Enabled(w, Releases(id)) && w.allocs[id].refCount > 1
    ensures var v := Next(w, Releases(id));
      var o := AfterRelease(w.allocs[id], w.registered.Keys, w.cache);
      && v.cache == o.cache && v.registered.Keys == o.registered && v.client == w.client - multiset{id}
      && v.allocs == w.allocs[id := o.alloc]
  {
  }

  /** In every reachable state a call of release is a possible sequence of
      events, and leaves session, cache and allocation as these do. */
  lemma ReleaseIsItsEvents(w: World, id: int)
    requires Inv(w) && Enabled(w, Releases(id))
    ensures Possible(w, ReleaseEvents(w, id))
    ensures var v := After(w, ReleaseEvents(w, id));
      var o := AfterRelease(w.allocs[id], w.registered.Keys, w.cache);
      && v.cache == o.cache && v.registered.Keys == o.registered && v.client == w.client - multiset{id}
      && (if w.allocs[id].refCount > 1 then v.allocs == w.allocs[id := o.alloc]
          else o.alloc.phase == Deregistered && v.allocs == w.allocs - {id})
  {
    LastReleaseCounts(w, id);
    hide Inv, Forget, Enabled, Next, Possible, After, AfterRelease;
    if w.allocs[id].refCount > 1 {
      NoEvents(Next(w, Releases(id)));
      OneFirst(w, Releases(id), []);
      assert [Releases(id)] + [] == [Releases(id)];
      OnlyRelease(w, id);
    } else {
      var w1, w2, w3 := LastRelease(w, id);
      FreesRemoves(w3, id);
      FourEvents(w, Releases(id), Forgets(id), Deregisters(id), Frees(id));
    }
  }

  lemma FourEvents(w: World, a: Event, b: Event, c: Event, d: Event)
    requires Enabled(w, a) && Enabled(Next(w, a), b) && Enabled(Next(Next(w, a), b), c)
    requires Enabled(Next(Next(Next(w, a), b), c), d)
    ensures Possible(w, [a, b, c, d]) && After(w, [a, b, c, d]) == Next(Next(Next(Next(w, a), b), c), d)
  {
    hide Enabled, Next, Possible, After;
    var w1 := Next(w, a);
    var w2 := Next(w1, b);
    var w3 := Next(w2, c);
    NoEvents(Next(w3, d));
    OneFirst(w3, d, []);
    assert [d] + [] == [d];
    OneFirst(w2, c, [d]);
    assert [c] + [d] == [c, d];
    OneFirst(w1, b, [c, d]);
    assert [b] + [c, d] == [b, c, d];
    OneFirst(w, a, [b, c, d]);
    assert [a] + [b, c, d] == [a, b, c, d];
  }

  lemma LastReleaseCounts(w: World, id: int)
    requires Enabled(w, Releases(id))
    ensures id in w.allocs && w.allocs[id].refCount >= 1
  {
  }

  lemma FreesRemoves(w: World, id: int)
    requires Enabled(w, Frees(id))
    ensures Next(w, Frees(id)) == w.(allocs := w.allocs - {id})
  {
  }

  // ----- the forget call is needed -----

  lemma {:induction false} OneMore(w: World, es: seq<Event>, e: Event)
    requires Possible(w, es) && Enabled(After(w, es), e)
    ensures Possible(w, es + [e]) && After(w, es + [e]) == Next(After(w, es), e)
    decreases |es|
  {
    if es == [] {
      assert [e][1..] == [];
    } else {
      OneMore(Next(w, es[0]), es[1..], e);
      assert (es + [e])[1..] == es[1..] + [e];
    }
  }

  const MEMORY := Alloc(7, 256, 1, true, Live)
  const USE := Use(0, 0, 7)

  /** One allocation under descriptor 7, used by one execution or none. */
  function Scene(a: Alloc, client: multiset<int>, xs: map<nat, Execution>, lru: seq<Entry>, held: seq<Use>): World {
    World(map[0 := a], map[7 := 0], client, [], {}, xs, Cache(lru, 1000, |lru|), held, if lru == [] then map[] else map[7 := 0])
  }

  lemma SceneStarts()
    ensures var w := Scene(MEMORY.(dspUsed := false), multiset{0}, map[], [], []);
      && Enabled(Initial(1000), Creates(0, 7, 100)) && Next(Initial(1000), Creates(0, 7, 100)) == w
      && Enabled(w, Starts(0, 0, [0]))
      && Next(w, Starts(0, 0, [0])) == Scene(MEMORY, multiset{0}, map[0 := Execution(0, [USE])], [], [])
  {
    var w := Scene(MEMORY.(dspUsed := false), multiset{0}, map[], [], []);
    assert HandAllOut(w.allocs, [0]) == map[0 := MEMORY];
    assert Bindings(w, 0, [0]) == [USE];
  }

  lemma SceneAcquires(mmap: Oracle)
    requires mmap(0) == Some(4096)
    ensures var w := Scene(MEMORY, multiset{0}, map[0 := Execution(0, [USE])], [], []);
      && Enabled(w, Acquires(0, USE, mmap))
      && Next(w, Acquires(0, USE, mmap))
         == Scene(MEMORY, multiset{0}, map[0 := Execution(0, [USE])], [Entry(7, 256, 4096, 1, 1)], [USE])
  {
  }

  const IDLE := Entry(7, 256, 4096, 0, 1)

  lemma SceneLetsGo()
    ensures var w := Scene(MEMORY, multiset{0}, map[0 := Execution(0, [USE])], [Entry(7, 256, 4096, 1, 1)], [USE]);
      && Enabled(w, LetsGo(0))
      && Next(w, LetsGo(0)) == Scene(MEMORY, multiset{0}, map[0 := Execution(0, [USE])], [IDLE], [])
  {
  }

  lemma SceneFinishes()
    ensures var w := Scene(MEMORY, multiset{0}, map[0 := Execution(0, [USE])], [IDLE], []);
      Enabled(w, Finishes(0)) && Next(w, Finishes(0)) == Scene(MEMORY, multiset{0}, map[], [IDLE], [])
  {
  }

  lemma SceneEnds()
    ensures var w := Scene(MEMORY, multiset{0}, map[], [IDLE], []);
      && Enabled(w, Releases(0))
      && Next(w, Releases(0)) == Scene(MEMORY.(refCount := 0, phase := Dying), multiset{}, map[], [IDLE], [])
  {
  }

  /** Some run reaches the point where the last host reference is gone while
      the DSP still has the memory mapped: deregistering right away, without
      asking the DSP to forget, would break the guarantee. */
  lemma MappingsOutliveReferences() returns (es: seq<Event>)
    ensures Possible(Initial(1000), es)
    ensures var w := After(Initial(1000), es); Phased(w, 0, Dying) && Mapped(w.cache.lru, w.allocs[0].fd)
  {
    var mmap: Oracle := _ => Some(4096);
    es := SceneIsUsed(mmap);
    SceneLetsGo();
    SceneFinishes();
    SceneEnds();
    assert Mapped([IDLE], 7);
    hide Next, Enabled, Possible, After;
    OneMore(Initial(1000), es, LetsGo(0));
    es := es + [LetsGo(0)];
    OneMore(Initial(1000), es, Finishes(0));
    es := es + [Finishes(0)];
    OneMore(Initial(1000), es, Releases(0));
    es := es + [Releases(0)];
  }

  lemma SceneIsUsed(mmap: Oracle) returns (es: seq<Event>)
    requires mmap(0) == Some(4096)
    ensures Possible(Initial(1000), es)
    ensures After(Initial(1000), es)
      == Scene(MEMORY, multiset{0}, map[0 := Execution(0, [USE])], [Entry(7, 256, 4096, 1, 1)], [USE])
  {
    SceneStarts();
    SceneAcquires(mmap);
    hide Next, Enabled, Possible, After;
    NoEvents(Initial(1000));
    es := [];
    OneMore(Initial(1000), es, Creates(0, 7, 100));
    es := es + [Creates(0, 7, 100)];
    OneMore(Initial(1000), es, Starts(0, 0, [0]));
    es := es + [Starts(0, 0, [0])];
    OneMore(Initial(1000), es, Acquires(0, USE, mmap));
    es := es + [Acquires(0, USE, mmap)];
  }
}
