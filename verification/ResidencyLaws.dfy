/** What the residency cache promises, for every state and every run of calls:
    which entries an acquire unmaps, when it succeeds, that references are
    conserved, that a held mapping never moves, and that the budget holds. */
module ResidencyLaws {
  import opened Status
  import opened ResidencySpec

  // ----- eviction takes a shortest least-recently-used prefix -----

  function IdleCount(l: seq<Entry>): nat {
    if l == [] then 0 else (if l[0].refCount == 0 then 1 else 0) + IdleCount(l[1..])
  }

  /** `l` without its `k` least recently acquired idle entries; everything else
      stays, in order. */
  function WithoutOldestIdle(l: seq<Entry>, k: nat): seq<Entry> {
    if l == [] then []
    else if l[0].refCount == 0 && k > 0 then WithoutOldestIdle(l[1..], k - 1)
    else [l[0]] + WithoutOldestIdle(l[1..], k)
  }

  lemma {:induction false} WithoutNone(l: seq<Entry>)
    ensures WithoutOldestIdle(l, 0) == l
    decreases |l|
  {
    if l != [] {
      WithoutNone(l[1..]);
    }
  }

  lemma {:induction false} EvictIsWithoutOldest(l: seq<Entry>, k: nat)
    requires HasIdle(l)
    ensures WithoutOldestIdle(Evict(l), k) == WithoutOldestIdle(l, k + 1)
    ensures IdleCount(Evict(l)) == IdleCount(l) - 1
    decreases |l|
  {
    if l[0].refCount == 0 {
      assert Evict(l) == l[1..];
    } else {
      EvictIsWithoutOldest(l[1..], k);
      assert Evict(l) == [l[0]] + Evict(l[1..]);
    }
  }

  lemma {:induction false} NoIdleCount(l: seq<Entry>)
    ensures HasIdle(l) <==> IdleCount(l) > 0
    decreases |l|
  {
    if l != [] {
      NoIdleCount(l[1..]);
    }
  }

  /** Making room removes exactly the shortest least-recently-acquired prefix of
      the idle entries that makes room, or all of them when none does. */
  lemma {:induction false} MakeRoomIsShortest(l: seq<Entry>, size: nat, budget: nat) returns (k: nat)
    ensures k <= IdleCount(l)
    ensures MakeRoom(l, size, budget).0 == WithoutOldestIdle(l, k)
    ensures forall j | 0 <= j < k :: SizeSum(WithoutOldestIdle(l, j)) + size > budget
    ensures MakeRoom(l, size, budget).1 <==> SizeSum(WithoutOldestIdle(l, k)) + size <= budget
    ensures !MakeRoom(l, size, budget).1 ==> k == IdleCount(l)
    decreases |l|
  {
    hide WithoutOldestIdle, IdleCount, FirstIdle, SizeSum;
    WithoutNone(l);
    NoIdleCount(l);
    if SizeSum(l) + size > budget && HasIdle(l) {
      var k' := MakeRoomIsShortest(Evict(l), size, budget);
      k := k' + 1;
      EvictIsWithoutOldest(l, k');
      forall j | 0 <= j < k ensures SizeSum(WithoutOldestIdle(l, j)) + size > budget {
        if j > 0 {
          EvictIsWithoutOldest(l, j - 1);
        }
      }
    } else {
      k := 0;
    }
  }

  /** Retrying a failed mapping also only removes the oldest idle entries. */
  lemma {:induction false} MapWithRetryRemovesOldest(l: seq<Entry>, mmap: Oracle, a: nat) returns (k: nat)
    ensures k <= IdleCount(l)
    ensures MapWithRetry(l, mmap, a).0 == WithoutOldestIdle(l, k)
    ensures forall t | a <= t < a + k :: mmap(t).None?
    ensures MapWithRetry(l, mmap, a).1 == mmap(a + k)
    ensures MapWithRetry(l, mmap, a).1.None? ==> k == IdleCount(l)
    decreases |l|
  {
    hide WithoutOldestIdle, IdleCount, FirstIdle;
    WithoutNone(l);
    NoIdleCount(l);
    if mmap(a).None? && HasIdle(l) {
      var k' := MapWithRetryRemovesOldest(Evict(l), mmap, a + 1);
      k := k' + 1;
      EvictIsWithoutOldest(l, k');
    } else {
      k := 0;
    }
  }

  // ----- sums -----

  lemma {:induction false} SumsFromFront(l: seq<Entry>)
    requires l != []
    ensures SizeSum(l) == l[0].size + SizeSum(l[1..])
    ensures InUseSum(l) == (if l[0].refCount > 0 then l[0].size else 0) + InUseSum(l[1..])
    decreases |l|
  {
    if |l| > 1 {
      var front := l[..|l| - 1];
      SumsFromFront(front);
      assert front[1..] == l[1..][..|l| - 2];
    } else {
      assert l[..0] == [] && l[1..] == [];
    }
  }

  lemma {:induction false} SumsWithout(l: seq<Entry>, k: nat)
    ensures InUseSum(WithoutOldestIdle(l, k)) == InUseSum(l)
    ensures SizeSum(WithoutOldestIdle(l, k)) <= SizeSum(l)
    ensures k >= IdleCount(l) ==> SizeSum(WithoutOldestIdle(l, k)) == InUseSum(l)
    decreases |l|
  {
    if l != [] {
      SumsFromFront(l);
      if l[0].refCount == 0 && k > 0 {
        SumsWithout(l[1..], k - 1);
      } else {
        SumsWithout(l[1..], k);
        var w := WithoutOldestIdle(l, k);
        SumsFromFront(w);
        assert w[1..] == WithoutOldestIdle(l[1..], k);
      }
    }
  }

  lemma InUseAtMostMapped(l: seq<Entry>)
    ensures InUseSum(l) <= SizeSum(l)
  {
  }

  // ----- outcome of an acquire that has to map -----

  /** When the operating system maps at the first attempt, a miss succeeds
      exactly if the allocation fits next to what is in use, blocks exactly if
      releasing could make it fit, and fails for good otherwise. */
  lemma MissOutcome(c: Cache, fd: int, size: nat, mmap: Oracle)
    requires IndexOf(c.lru, fd) == |c.lru| && size > 0 && mmap(0).Some?
    ensures var s := Acquire(c, fd, size, mmap).status;
      && (s == Success <==> InUseSum(c.lru) + size <= c.budget)
      && (s == WouldBlock <==> InUseSum(c.lru) + size > c.budget && InUseSum(c.lru) > 0)
      && (s == NoMemory <==> size > c.budget && InUseSum(c.lru) == 0)
  {
    var k := MakeRoomIsShortest(c.lru, size, c.budget);
    SumsWithout(c.lru, k);
    InUseAtMostMapped(WithoutOldestIdle(c.lru, k));
  }

  /** A miss leaves the survivors of one oldest-idle prefix, in their order, and
      on success the new entry as the most recent one. If the first mapping
      attempt succeeds, that prefix is the shortest that makes room. */
  lemma MissEvicts(c: Cache, fd: int, size: nat, mmap: Oracle) returns (k: nat)
    requires IndexOf(c.lru, fd) == |c.lru| && size > 0
    ensures var a := Acquire(c, fd, size, mmap);
      && k <= IdleCount(c.lru)
      && a.status in {Success, WouldBlock, NoMemory}
      && (a.status == Success ==> a.cache.lru == WithoutOldestIdle(c.lru, k) + [Entry(fd, size, a.vaddr, 1, c.clock + 1)])
      && (a.status == Success ==> SizeSum(WithoutOldestIdle(c.lru, k)) + size <= c.budget)
      && (a.status == Success && mmap(0).Some? ==>
            a.vaddr == mmap(0).value && forall j | 0 <= j < k :: SizeSum(WithoutOldestIdle(c.lru, j)) + size > c.budget)
      && (a.status != Success ==> a.cache.lru == WithoutOldestIdle(c.lru, k) && k == IdleCount(c.lru))
      && (a.status == WouldBlock ==> InUseSum(c.lru) > 0)
  {
    hide MakeRoom, MapWithRetry, WithoutOldestIdle, SizeSum, InUseSum, IdleCount, FirstIdle;
    var room := MakeRoom(c.lru, size, c.budget);
    k := MakeRoomIsShortest(c.lru, size, c.budget);
    SumsWithout(c.lru, k);
    if room.1 {
      var k2 := MapWithRetryRemovesOldest(room.0, mmap, 0);
      SumsWithout(room.0, k2);
      WithoutTwice(c.lru, k, k2);
      if mmap(0).Some? {
        WithoutNone(room.0);
      } else {
        k := k + k2;
      }
    }
  }

  lemma {:induction false} WithoutTwice(l: seq<Entry>, j: nat, k: nat)
    requires j <= IdleCount(l)
    ensures WithoutOldestIdle(WithoutOldestIdle(l, j), k) == WithoutOldestIdle(l, j + k)
    ensures IdleCount(WithoutOldestIdle(l, j)) == IdleCount(l) - j
    decreases |l|
  {
    if l != [] {
      if l[0].refCount == 0 && j > 0 {
        WithoutTwice(l[1..], j - 1, k);
      } else {
        var w := WithoutOldestIdle(l[1..], j);
        assert WithoutOldestIdle(l, j) == [l[0]] + w;
        if l[0].refCount == 0 {
          WithoutNone(l[1..]);
          WithoutNone(l);
        } else {
          WithoutTwice(l[1..], j, k);
          assert ([l[0]] + w)[1..] == w;
        }
      }
    }
  }

  // ----- references and addresses -----

  function RefCount(l: seq<Entry>, fd: int): nat {
    var i := IndexOf(l, fd);
    if i < |l| then l[i].refCount else 0
  }

  function AddressOf(l: seq<Entry>, fd: int): Option<nat> {
    var i := IndexOf(l, fd);
    if i < |l| then Some(l[i].vaddr) else None
  }

  predicate Mapped(l: seq<Entry>, fd: int) {
    IndexOf(l, fd) < |l|
  }

  lemma HeadLookup(l: seq<Entry>, fd: int)
    requires l != []
    ensures RefCount(l, fd) == if l[0].fd == fd then l[0].refCount else RefCount(l[1..], fd)
    ensures AddressOf(l, fd) == if l[0].fd == fd then Some(l[0].vaddr) else AddressOf(l[1..], fd)
    ensures Mapped(l, fd) <==> l[0].fd == fd || Mapped(l[1..], fd)
  {
  }

  lemma {:induction false} AbsentLookup(l: seq<Entry>, fd: int)
    requires forall e | e in l :: e.fd != fd
    ensures RefCount(l, fd) == 0 && !Mapped(l, fd)
  {
  }

  ghost predicate DistinctFds(l: seq<Entry>) {
    forall i, j | 0 <= i < j < |l| :: l[i].fd != l[j].fd
  }

  /** Removing idle entries changes nothing for the ones in use. */
  lemma {:induction false} WithoutKeepsHeld(l: seq<Entry>, k: nat, fd: int)
    requires DistinctFds(l)
    ensures var w := WithoutOldestIdle(l, k);
      && RefCount(w, fd) == RefCount(l, fd)
      && (RefCount(l, fd) > 0 ==> AddressOf(w, fd) == AddressOf(l, fd))
      && (Mapped(w, fd) ==> Mapped(l, fd))
    decreases |l|
  {
    if l != [] {
      if l[0].fd == fd {
        AbsentLookup(l[1..], fd);
      }
      hide IndexOf, RefCount, AddressOf, Mapped;
      HeadLookup(l, fd);
      if l[0].refCount == 0 && k > 0 {
        WithoutKeepsHeld(l[1..], k - 1, fd);
      } else {
        WithoutKeepsHeld(l[1..], k, fd);
        HeadLookup(WithoutOldestIdle(l, k), fd);
      }
    }
  }

  lemma HeadAndTail(c: Cache)
    requires WellFormed(c) && c.lru != []
    ensures WellFormed(c.(lru := c.lru[1..]))
    ensures c.lru[0].size > 0 && c.lru[0].lastUse <= c.clock
    ensures forall e | e in c.lru[1..] :: e.fd != c.lru[0].fd && e.lastUse > c.lru[0].lastUse
  {
  }

  lemma ConsKeepsOrder(c: Cache, h: Entry)
    requires WellFormed(c) && h.size > 0 && h.lastUse <= c.clock
    requires forall e | e in c.lru :: e.fd != h.fd && e.lastUse > h.lastUse
    ensures WellFormed(c.(lru := [h] + c.lru))
  {
  }

  lemma {:induction false} WithoutKeepsWellFormed(c: Cache, k: nat)
    requires WellFormed(c)
    ensures WellFormed(c.(lru := WithoutOldestIdle(c.lru, k)))
    decreases |c.lru|
  {
    hide WellFormed;
    if c.lru != [] {
      HeadAndTail(c);
      var rest := c.(lru := c.lru[1..]);
      if c.lru[0].refCount == 0 && k > 0 {
        WithoutKeepsWellFormed(rest, k - 1);
      } else {
        WithoutKeepsWellFormed(rest, k);
        MembersWithout(rest.lru, k);
        ConsKeepsOrder(c.(lru := WithoutOldestIdle(rest.lru, k)), c.lru[0]);
      }
    }
  }

  lemma IndexOfDrop(c: Cache, i: nat, fd: int)
    requires WellFormed(c) && i < |c.lru| && fd != c.lru[i].fd
    ensures RefCount(Drop(c.lru, i), fd) == RefCount(c.lru, fd)
    ensures AddressOf(Drop(c.lru, i), fd) == AddressOf(c.lru, fd)
  {
    var d := Drop(c.lru, i);
    assert forall k | 0 <= k < |d| :: d[k] == c.lru[if k < i then k else k + 1];
    var j := IndexOf(c.lru, fd);
    if j < |c.lru| {
      assert d[if j < i then j else j - 1] == c.lru[j];
    }
  }

  lemma IndexOfAppend(l: seq<Entry>, e: Entry, fd: int)
    requires forall k | 0 <= k < |l| :: l[k].fd != e.fd
    ensures RefCount(l + [e], fd) == if fd == e.fd then e.refCount else RefCount(l, fd)
    ensures AddressOf(l + [e], fd) == if fd == e.fd then Some(e.vaddr) else AddressOf(l, fd)
  {
    var i := IndexOf(l + [e], fd);
    var j := IndexOf(l, fd);
    if i < |l| {
      assert (l + [e])[i] == l[i];
    }
    if j < |l| {
      assert (l + [e])[j] == l[j];
    }
    assert (l + [e])[|l|] == e;
  }

  lemma IndexOfUpdate(l: seq<Entry>, i: nat, e: Entry, fd: int)
    requires i < |l| && e.fd == l[i].fd && i == IndexOf(l, e.fd)
    ensures IndexOf(l[i := e], fd) == IndexOf(l, fd)
  {
    var u := l[i := e];
    assert forall k | 0 <= k < |l| :: u[k].fd == l[k].fd;
  }

  lemma {:induction false} MembersWithout(l: seq<Entry>, k: nat)
    ensures forall e | e in WithoutOldestIdle(l, k) :: e in l
    decreases |l|
  {
    if l != [] {
      MembersWithout(l[1..], if k > 0 && l[0].refCount == 0 then k - 1 else k);
    }
  }

  ghost predicate AcquireConservesAt(c: Cache, fd: int, size: nat, mmap: Oracle, f: int) {
    var a := Acquire(c, fd, size, mmap);
    && WellFormed(a.cache)
    && a.cache.budget == c.budget
    && RefCount(a.cache.lru, f) == RefCount(c.lru, f) + (if f == fd && a.status == Success then 1 else 0)
    && (RefCount(c.lru, f) > 0 ==> AddressOf(a.cache.lru, f) == AddressOf(c.lru, f))
    && (a.status == Success ==> AddressOf(a.cache.lru, fd) == Some(a.vaddr))
  }

  lemma EntryOf(c: Cache, i: nat)
    requires WellFormed(c) && i < |c.lru|
    ensures c.lru[i].size > 0 && IndexOf(c.lru, c.lru[i].fd) == i
  {
  }

  lemma HitConserves(c: Cache, fd: int, size: nat, mmap: Oracle, f: int)
    requires WellFormed(c) && Mapped(c.lru, fd)
    ensures AcquireConservesAt(c, fd, size, mmap, f)
  {
    hide WellFormed;
    var i := IndexOf(c.lru, fd);
    var d := Drop(c.lru, i);
    var e := c.lru[i].(refCount := c.lru[i].refCount + 1, lastUse := c.clock + 1);
    EntryOf(c, i);
    DropKeepsOrder(c, i);
    DropRemovesFd(c, i);
    PushKeepsOrder(c.(lru := d), e);
    IndexOfAppend(d, e, f);
    IndexOfAppend(d, e, fd);
    if f != fd {
      IndexOfDrop(c, i, f);
    }
  }

  lemma MissConserves(c: Cache, fd: int, size: nat, mmap: Oracle, f: int)
    requires WellFormed(c) && !Mapped(c.lru, fd) && size > 0
    ensures AcquireConservesAt(c, fd, size, mmap, f)
  {
    hide MakeRoom, MapWithRetry, WithoutOldestIdle, SizeSum, InUseSum, IdleCount, FirstIdle;
    var k := MissEvicts(c, fd, size, mmap);
    WithoutKeepsWellFormed(c, k);
    WithoutKeepsHeld(c.lru, k, f);
    WithoutKeepsHeld(c.lru, k, fd);
    var a := Acquire(c, fd, size, mmap);
    if a.status == Success {
      var w := WithoutOldestIdle(c.lru, k);
      IndexOfAppend(w, a.cache.lru[|w|], f);
      IndexOfAppend(w, a.cache.lru[|w|], fd);
    }
  }

  /** One acquire: the cache stays well-formed, exactly the acquired descriptor
      gains exactly one reference and only on success, and every descriptor in
      use keeps its address. */
  lemma AcquireConserves(c: Cache, fd: int, size: nat, mmap: Oracle, f: int)
    requires WellFormed(c)
    ensures AcquireConservesAt(c, fd, size, mmap, f)
  {
    if Mapped(c.lru, fd) {
      HitConserves(c, fd, size, mmap, f);
    } else if size > 0 {
      MissConserves(c, fd, size, mmap, f);
    }
  }

  /** One release: the descriptor loses one reference if it has any; nothing
      else changes, and nothing is unmapped. */
  lemma ReleaseConserves(c: Cache, fd: int, f: int)
    requires WellFormed(c)
    ensures WellFormed(Release(c, fd)) && Release(c, fd).budget == c.budget
    ensures RefCount(Release(c, fd).lru, f)
      == RefCount(c.lru, f) - (if f == fd && RefCount(c.lru, f) > 0 then 1 else 0)
    ensures AddressOf(Release(c, fd).lru, f) == AddressOf(c.lru, f)
  {
    hide IndexOf, WellFormed;
    ReleaseWellFormed(c, fd);
    var i := IndexOf(c.lru, fd);
    if i < |c.lru| && c.lru[i].refCount > 0 {
      IndexOfUpdate(c.lru, i, c.lru[i].(refCount := c.lru[i].refCount - 1), f);
    }
  }

  lemma ReleaseWellFormed(c: Cache, fd: int)
    requires WellFormed(c)
    ensures WellFormed(Release(c, fd))
  {
    hide IndexOf;
  }

  /** One forget: refused exactly while the descriptor is in use; afterwards an
      accepted descriptor is not mapped. Nothing else changes. */
  lemma ForgetConserves(c: Cache, fd: int, f: int)
    requires WellFormed(c)
    ensures var (c', inUse) := Forget(c, fd);
      && WellFormed(c') && c'.budget == c.budget
      && (inUse <==> RefCount(c.lru, fd) > 0)
      && (!inUse ==> !Mapped(c'.lru, fd))
      && RefCount(c'.lru, f) == RefCount(c.lru, f)
      && (f != fd || inUse ==> AddressOf(c'.lru, f) == AddressOf(c.lru, f))
  {
    var i := IndexOf(c.lru, fd);
    if i < |c.lru| && c.lru[i].refCount == 0 {
      hide WellFormed;
      DropKeepsOrder(c, i);
      DropRemovesFd(c, i);
      if f != fd {
        IndexOfDrop(c, i, f);
      }
    }
  }

  // ----- whole runs -----

  datatype Call =
    | CallAcquire(fd: int, size: nat, mmap: Oracle)
    | CallRelease(fd: int)
    | CallForget(fd: int)
    | CallSetBudget(budget: nat)

  function Step(c: Cache, call: Call): Cache {
    match call
    case CallAcquire(fd, size, mmap) => Acquire(c, fd, size, mmap).cache
    case CallRelease(fd) => Release(c, fd)
    case CallForget(fd) => Forget(c, fd).0
    case CallSetBudget(b) => SetBudget(c, b).0
  }

  function Run(c: Cache, calls: seq<Call>): Cache {
    if calls == [] then c else Step(Run(c, calls[..|calls| - 1]), calls[|calls| - 1])
  }

  lemma StepKeepsWellFormed(c: Cache, call: Call, f: int)
    requires WellFormed(c)
    ensures WellFormed(Step(c, call))
    ensures RefCount(c.lru, f) > 0 && RefCount(Step(c, call).lru, f) > 0
      ==> AddressOf(Step(c, call).lru, f) == AddressOf(c.lru, f)
  {
    match call
    case CallAcquire(fd, size, mmap) => AcquireConserves(c, fd, size, mmap, f);
    case CallRelease(fd) => ReleaseConserves(c, fd, f);
    case CallForget(fd) => ForgetConserves(c, fd, f);
    case CallSetBudget(_) =>
  }

  lemma {:induction false} RunKeepsWellFormed(c: Cache, calls: seq<Call>)
    requires WellFormed(c)
    ensures WellFormed(Run(c, calls))
    decreases |calls|
  {
    if calls != [] {
      RunKeepsWellFormed(c, calls[..|calls| - 1]);
      StepKeepsWellFormed(Run(c, calls[..|calls| - 1]), calls[|calls| - 1], 0);
    }
  }

  /** A descriptor that stays in use stays mapped where it is, through any calls. */
  lemma {:induction false} HeldMappingNeverMoves(c: Cache, calls: seq<Call>, fd: int)
    requires WellFormed(c)
    requires forall n | 0 <= n <= |calls| :: RefCount(Run(c, calls[..n]).lru, fd) > 0
    ensures AddressOf(Run(c, calls).lru, fd) == AddressOf(c.lru, fd) != None
    decreases |calls|
  {
    if calls == [] {
      assert calls[..0] == [] && Run(c, calls[..0]) == c;
    } else {
      var front := calls[..|calls| - 1];
      forall n | 0 <= n <= |front| ensures RefCount(Run(c, front[..n]).lru, fd) > 0 {
        assert front[..n] == calls[..n];
      }
      HeldMappingNeverMoves(c, front, fd);
      RunKeepsWellFormed(c, front);
      assert calls[..|calls|] == calls;
      assert RefCount(Run(c, calls[..|front|]).lru, fd) > 0;
      StepKeepsWellFormed(Run(c, front), calls[|calls| - 1], fd);
    }
  }

  predicate WithinBudget(c: Cache) {
    SizeSum(c.lru) <= c.budget
  }

  /** No call takes the mapped bytes over the budget, except a change of the
      budget itself: that keeps the bound exactly if it leaves room for what is
      mapped already. */
  lemma StepAndBudget(c: Cache, call: Call)
    requires WellFormed(c) && WithinBudget(c)
    ensures WithinBudget(Step(c, call))
      <==> (call.CallSetBudget? && call.budget > 0 ==> SizeSum(c.lru) <= call.budget)
  {
    hide MakeRoom, MapWithRetry, WithoutOldestIdle, SizeSum, InUseSum, IdleCount, FirstIdle, WellFormed;
    match call
    case CallAcquire(fd, size, mmap) =>
      var i := IndexOf(c.lru, fd);
      if i < |c.lru| {
        SumsOfDrop(c.lru, i);
        SumsOfPush(Drop(c.lru, i), c.lru[i].(refCount := c.lru[i].refCount + 1, lastUse := c.clock + 1));
      } else if size > 0 {
        var k := MissEvicts(c, fd, size, mmap);
        SumsWithout(c.lru, k);
        SumsOfPush(WithoutOldestIdle(c.lru, k), Entry(fd, size, Acquire(c, fd, size, mmap).vaddr, 1, c.clock + 1));
      }
    case CallRelease(fd) =>
      var i := IndexOf(c.lru, fd);
      if i < |c.lru| && c.lru[i].refCount > 0 {
        SumsOfUpdate(c.lru, i, c.lru[i].(refCount := c.lru[i].refCount - 1));
      }
    case CallForget(fd) =>
      var i := IndexOf(c.lru, fd);
      if i < |c.lru| && c.lru[i].refCount == 0 {
        SumsOfDrop(c.lru, i);
      }
    case CallSetBudget(_) =>
  }

  lemma {:induction false} RunStaysWithinBudget(c: Cache, calls: seq<Call>)
    requires WellFormed(c) && WithinBudget(c)
    requires forall call | call in calls :: !call.CallSetBudget?
    ensures WithinBudget(Run(c, calls))
    decreases |calls|
  {
    if calls != [] {
      var front := calls[..|calls| - 1];
      RunStaysWithinBudget(c, front);
      RunKeepsWellFormed(c, front);
      StepAndBudget(Run(c, front), calls[|calls| - 1]);
    }
  }

  /** Lowering the budget below what is mapped breaks the bound until the next
      misses evict enough. */
  lemma LoweredBudgetBreaksBound()
    ensures var e := Entry(3, 8, 4096, 0, 1);
      var c := Cache([e], 8, 1);
      WellFormed(c) && WithinBudget(c) && !WithinBudget(Step(c, CallSetBudget(4)))
  {
  }

  // ----- several acquires in a row -----

  function Multiplicity(fds: seq<int>, f: int): nat {
    multiset(fds)[f]
  }

  function FdsOf(reqs: seq<Request>): seq<int> {
    seq(|reqs|, i requires 0 <= i < |reqs| => FdOf(reqs[i]))
  }

  /** Bytes of the distinct allocations among the first `n` requests. */
  function DistinctSize(reqs: seq<Request>, n: nat): nat
    requires n <= |reqs|
  {
    if n == 0 then
      0
    else if reqs[n - 1].Request? && reqs[n - 1].fd !in FdsOf(reqs[..n - 1]) then
      DistinctSize(reqs, n - 1) + reqs[n - 1].size
    else
      DistinctSize(reqs, n - 1)
  }

  /** Every allocation has one size, which the host sends with each reference. */
  ghost predicate Sized(l: seq<Entry>, sizeOf: int -> nat) {
    forall e | e in l :: e.size == sizeOf(e.fd)
  }

  ghost predicate AskedBySize(reqs: seq<Request>, sizeOf: int -> nat) {
    forall i | 0 <= i < |reqs| :: reqs[i].Request? && reqs[i].size == sizeOf(reqs[i].fd) > 0
  }

  ghost predicate NoneHeld(l: seq<Entry>) {
    forall e | e in l :: e.refCount == 0
  }

  lemma FdsOfPrefix(reqs: seq<Request>, n: nat)
    requires 0 < n <= |reqs|
    ensures FdsOf(reqs[..n]) == FdsOf(reqs[..n - 1]) + [FdOf(reqs[n - 1])]
  {
  }

  lemma AcquireInUse(c: Cache, fd: int, size: nat, mmap: Oracle, sizeOf: int -> nat)
    requires WellFormed(c) && size == sizeOf(fd) > 0
    requires Sized(c.lru, sizeOf)
    ensures var a := Acquire(c, fd, size, mmap);
      && (a.status == Success ==>
            InUseSum(a.cache.lru) == InUseSum(c.lru) + (if RefCount(c.lru, fd) > 0 then 0 else size))
      && (mmap(0).Some? && (RefCount(c.lru, fd) > 0 || InUseSum(c.lru) + size <= c.budget) ==> a.status == Success)
      && Sized(a.cache.lru, sizeOf)
  {
    hide MakeRoom, MapWithRetry, WithoutOldestIdle, SizeSum, InUseSum, IdleCount, FirstIdle, WellFormed;
    var a := Acquire(c, fd, size, mmap);
    var i := IndexOf(c.lru, fd);
    if i < |c.lru| {
      var e := c.lru[i].(refCount := c.lru[i].refCount + 1, lastUse := c.clock + 1);
      SumsOfDrop(c.lru, i);
      SumsOfPush(Drop(c.lru, i), e);
      assert a.cache.lru == Drop(c.lru, i) + [e];
    } else {
      if mmap(0).Some? {
        MissOutcome(c, fd, size, mmap);
      }
      var k := MissEvicts(c, fd, size, mmap);
      SumsWithout(c.lru, k);
      MembersWithout(c.lru, k);
      if a.status == Success {
        SumsOfPush(WithoutOldestIdle(c.lru, k), a.cache.lru[|a.cache.lru| - 1]);
      }
    }
  }

  /** Acquiring in a row takes one reference per request processed and keeps the
      addresses of what is in use. */
  lemma {:induction false} AcquireFirstConserves(c: Cache, reqs: seq<Request>, n: nat, os: nat -> Oracle, f: int)
    requires WellFormed(c) && n <= |reqs|
    ensures var r := AcquireFirst(c, reqs, n, os);
      && WellFormed(r.0) && r.0.budget == c.budget
      && RefCount(r.0.lru, f) == RefCount(c.lru, f) + Multiplicity(FdsOf(reqs[..r.2]), f)
    decreases n
  {
    hide Acquire, WellFormed, RefCount;
    if n > 0 {
      AcquireFirstConserves(c, reqs, n - 1, os, f);
      var r := AcquireFirst(c, reqs, n - 1, os);
      if r.1 == Success && reqs[n - 1].Request? {
        AcquireConserves(r.0, reqs[n - 1].fd, reqs[n - 1].size, os(n - 1), f);
        FdsOfPrefix(reqs, n);
      }
    }
  }

  lemma AcquireFirstNone(c: Cache, reqs: seq<Request>, os: nat -> Oracle)
    ensures AcquireFirst(c, reqs, 0, os) == (c, Success, 0)
  {
  }

  lemma AcquireFirstNext(c: Cache, reqs: seq<Request>, k: nat, os: nat -> Oracle)
    requires k < |reqs|
    ensures var r := AcquireFirst(c, reqs, k, os);
      AcquireFirst(c, reqs, k + 1, os) ==
        if r.1 != Success then r
        else if reqs[k].Unresolved? then (r.0, BadItem, r.2)
        else var a := Acquire(r.0, reqs[k].fd, reqs[k].size, os(k));
          (a.cache, a.status, if a.status == Success then k + 1 else r.2)
  {
  }

  lemma {:induction false} AcquireFirstStuck(c: Cache, reqs: seq<Request>, k: nat, n: nat, os: nat -> Oracle)
    requires k <= n <= |reqs| && AcquireFirst(c, reqs, k, os).1 != Success
    ensures AcquireFirst(c, reqs, n, os) == AcquireFirst(c, reqs, k, os)
    decreases n - k
  {
    if k < n {
      AcquireFirstStuck(c, reqs, k, n - 1, os);
    }
  }

  lemma AskedAt(reqs: seq<Request>, i: nat, sizeOf: int -> nat)
    requires AskedBySize(reqs, sizeOf) && i < |reqs|
    ensures reqs[i].Request? && reqs[i].size == sizeOf(reqs[i].fd) > 0
  {
  }

  lemma InUseGrows(c: Cache, reqs: seq<Request>, n: nat, mmap: Oracle, sizeOf: int -> nat)
    requires 0 < n <= |reqs| && WellFormed(c) && Sized(c.lru, sizeOf) && AskedBySize(reqs, sizeOf) && mmap(0).Some?
    requires InUseSum(c.lru) == DistinctSize(reqs, n - 1)
    requires RefCount(c.lru, reqs[n - 1].fd) == Multiplicity(FdsOf(reqs[..n - 1]), reqs[n - 1].fd)
    ensures var a := Acquire(c, reqs[n - 1].fd, reqs[n - 1].size, mmap);
      && (a.status == Success ==> InUseSum(a.cache.lru) == DistinctSize(reqs, n))
      && (DistinctSize(reqs, n) <= c.budget ==> a.status == Success)
      && Sized(a.cache.lru, sizeOf)
  {
    hide WellFormed, MakeRoom, MapWithRetry, FirstIdle, Sized, InUseSum, SizeSum, RefCount, FdsOf, Acquire;
    var q := reqs[n - 1];
    var fds := FdsOf(reqs[..n - 1]);
    assert q.fd in fds <==> multiset(fds)[q.fd] > 0;
    AcquireInUse(c, q.fd, q.size, mmap, sizeOf);
  }

  /** Starting with nothing in use, the bytes in use are those of the distinct
      allocations acquired; and if these fit the budget, nothing fails. */
  lemma {:induction false} InUseIsDistinctSize(c: Cache, reqs: seq<Request>, n: nat, os: nat -> Oracle, sizeOf: int -> nat)
    requires WellFormed(c) && n <= |reqs| && Sized(c.lru, sizeOf) && AskedBySize(reqs, sizeOf)
    requires NoneHeld(c.lru)
    requires forall k :: os(k)(0).Some?
    ensures var r := AcquireFirst(c, reqs, n, os);
      && (r.1 == Success ==> InUseSum(r.0.lru) == DistinctSize(reqs, n))
      && (DistinctSize(reqs, n) <= c.budget ==> r.1 == Success)
      && (WithinBudget(c) ==> WithinBudget(r.0))
      && Sized(r.0.lru, sizeOf)
    decreases n
  {
    hide WellFormed, Sized, InUseSum, SizeSum, Acquire, RefCount, NoneHeld, FdsOf, WithinBudget, AskedBySize;
    if n == 0 {
      NothingInUse(c.lru);
    } else {
      InUseIsDistinctSize(c, reqs, n - 1, os, sizeOf);
      var r := AcquireFirst(c, reqs, n - 1, os);
      var q := reqs[n - 1];
      AskedAt(reqs, n - 1, sizeOf);
      AcquireFirstConserves(c, reqs, n - 1, os, q.fd);
      if r.1 == Success {
        RefCountOfIdle(c.lru, q.fd);
        InUseGrows(r.0, reqs, n, os(n - 1), sizeOf);
        if WithinBudget(c) {
          StepAndBudget(r.0, CallAcquire(q.fd, q.size, os(n - 1)));
        }
      }
    }
  }

  /** With nothing in use, mapping succeeding and the cache within its budget, a
      set of buffers is acquired exactly if its distinct allocations together
      fit: what earlier commands left mapped never gets in the way. */
  lemma AcquiredIffFitting(c: Cache, reqs: seq<Request>, os: nat -> Oracle, sizeOf: int -> nat)
    requires WellFormed(c) && WithinBudget(c) && Sized(c.lru, sizeOf) && AskedBySize(reqs, sizeOf)
    requires NoneHeld(c.lru)
    requires forall k :: os(k)(0).Some?
    ensures AcquireFirst(c, reqs, |reqs|, os).1 == Success <==> DistinctSize(reqs, |reqs|) <= c.budget
  {
    InUseIsDistinctSize(c, reqs, |reqs|, os, sizeOf);
    AcquireFirstConserves(c, reqs, |reqs|, os, 0);
    InUseAtMostMapped(AcquireFirst(c, reqs, |reqs|, os).0.lru);
  }

  /** Whatever is in use, a fitting set of buffers is either acquired or asked to
      wait; it is never refused for good. */
  lemma {:induction false} FittingNeverRefused(c: Cache, reqs: seq<Request>, n: nat, os: nat -> Oracle, sizeOf: int -> nat)
    requires WellFormed(c) && n <= |reqs| && Sized(c.lru, sizeOf) && AskedBySize(reqs, sizeOf)
    requires DistinctSize(reqs, |reqs|) <= c.budget
    requires forall k :: os(k)(0).Some?
    ensures var r := AcquireFirst(c, reqs, n, os);
      && r.1 in {Success, WouldBlock}
      && Sized(r.0.lru, sizeOf)
    decreases n
  {
    if n > 0 {
      hide WellFormed, MakeRoom, MapWithRetry, DistinctSize, Sized, InUseSum, SizeSum, Acquire;
      FittingNeverRefused(c, reqs, n - 1, os, sizeOf);
      var r := AcquireFirst(c, reqs, n - 1, os);
      var q := reqs[n - 1];
      AcquireFirstConserves(c, reqs, n - 1, os, q.fd);
      AcquireInUse(r.0, q.fd, q.size, os(n - 1), sizeOf);
      EachIsCounted(reqs, |reqs|, n - 1, sizeOf);
      if r.1 == Success && !Mapped(r.0.lru, q.fd) {
        MissOutcome(r.0, q.fd, q.size, os(n - 1));
      }
    }
  }

  lemma {:induction false} EachIsCounted(reqs: seq<Request>, n: nat, i: nat, sizeOf: int -> nat)
    requires i < n <= |reqs|
    requires AskedBySize(reqs, sizeOf)
    ensures reqs[i].size <= DistinctSize(reqs, n)
    decreases n
  {
    if i < n - 1 {
      EachIsCounted(reqs, n - 1, i, sizeOf);
    } else if reqs[i].fd in FdsOf(reqs[..i]) {
      var k :| 0 <= k < i && FdsOf(reqs[..i])[k] == reqs[i].fd;
      EachIsCounted(reqs, n - 1, k, sizeOf);
    }
  }

  /** With at most one descriptor in use, at most its allocation is in use. */
  lemma {:induction false} InUseOfOne(l: seq<Entry>, fd: int, sizeOf: int -> nat)
    requires forall i, j | 0 <= i < j < |l| :: l[i].fd != l[j].fd
    requires forall e | e in l :: e.size == sizeOf(e.fd) && (e.refCount > 0 ==> e.fd == fd)
    ensures InUseSum(l) <= sizeOf(fd)
    ensures (forall e | e in l :: e.fd != fd) ==> InUseSum(l) == 0
    decreases |l|
  {
    if l != [] {
      var front := l[..|l| - 1];
      var e := l[|l| - 1];
      InUseOfOne(front, fd, sizeOf);
      if e.fd == fd {
        assert forall x | x in front :: x.fd != fd;
      }
    }
  }

  lemma RefCountOfIdle(l: seq<Entry>, fd: int)
    requires NoneHeld(l)
    ensures RefCount(l, fd) == 0
  {
  }

  lemma {:induction false} NothingInUse(l: seq<Entry>)
    requires NoneHeld(l)
    ensures InUseSum(l) == 0
    decreases |l|
  {
    if l != [] {
      NothingInUse(l[..|l| - 1]);
    }
  }
}
