/** What the residency cache does, stated on a list in recency order.

    The cache keeps whole allocations mapped, least recently acquired first.
    An entry with a non-zero `refCount` is in use and never unmapped. The
    answers of the operating system to successive mapping attempts are an
    oracle, `mmap(k)` being the answer to attempt `k` of one acquire. */
module ResidencySpec {
  import opened Status

  datatype Entry = Entry(fd: int, size: nat, vaddr: nat, refCount: nat, lastUse: nat)

  /** `lru` is ordered by last acquire; `clock` is the use counter. */
  datatype Cache = Cache(lru: seq<Entry>, budget: nat, clock: nat)

  type Oracle = nat -> Option<nat>

  datatype Answer = Answer(cache: Cache, status: Status, vaddr: nat)

  function IndexOf(l: seq<Entry>, fd: int): (i: nat)
    ensures i <= |l|
    ensures i < |l| ==> l[i].fd == fd
    ensures forall k | 0 <= k < i :: l[k].fd != fd
  {
    if l == [] || l[0].fd == fd then 0 else 1 + IndexOf(l[1..], fd)
  }

  /** Position of the least recently acquired entry not in use, or `|l|`. */
  function FirstIdle(l: seq<Entry>): (i: nat)
    ensures i <= |l|
    ensures i < |l| ==> l[i].refCount == 0
    ensures forall k | 0 <= k < i :: l[k].refCount > 0
  {
    if l == [] || l[0].refCount == 0 then 0 else 1 + FirstIdle(l[1..])
  }

  predicate HasIdle(l: seq<Entry>) {
    FirstIdle(l) < |l|
  }

  function Drop(l: seq<Entry>, i: nat): seq<Entry>
    requires i < |l|
  {
    l[..i] + l[i + 1..]
  }

  function Evict(l: seq<Entry>): seq<Entry>
    requires HasIdle(l)
  {
    Drop(l, FirstIdle(l))
  }

  function SizeSum(l: seq<Entry>): nat {
    if l == [] then 0 else SizeSum(l[..|l| - 1]) + l[|l| - 1].size
  }

  function InUseSum(l: seq<Entry>): nat {
    if l == [] then 0
    else InUseSum(l[..|l| - 1]) + (if l[|l| - 1].refCount > 0 then l[|l| - 1].size else 0)
  }

  /** Unmaps idle entries, least recently acquired first, until `size` more
      bytes fit the budget; the flag tells whether they do. */
  function MakeRoom(l: seq<Entry>, size: nat, budget: nat): (seq<Entry>, bool)
    decreases |l|
  {
    if SizeSum(l) + size <= budget then (l, true)
    else if HasIdle(l) then MakeRoom(Evict(l), size, budget)
    else (l, false)
  }

  /** Tries to map, unmapping one more idle entry after each failure. */
  function MapWithRetry(l: seq<Entry>, mmap: Oracle, k: nat): (seq<Entry>, Option<nat>)
    decreases |l|
  {
    if mmap(k).Some? then (l, mmap(k))
    else if HasIdle(l) then MapWithRetry(Evict(l), mmap, k + 1)
    else (l, None)
  }

  function BlockedStatus(l: seq<Entry>): Status {
    if InUseSum(l) > 0 then WouldBlock else NoMemory
  }

  function Acquire(c: Cache, fd: int, size: nat, mmap: Oracle): (a: Answer)
    ensures a.status in {Success, BadParm, NoMemory, WouldBlock}
  {
    var i := IndexOf(c.lru, fd);
    if i < |c.lru| then
      var e := c.lru[i].(refCount := c.lru[i].refCount + 1, lastUse := c.clock + 1);
      Answer(c.(lru := Drop(c.lru, i) + [e], clock := c.clock + 1), Success, e.vaddr)
    else if size == 0 then
      Answer(c, BadParm, 0)
    else
      var (room, fits) := MakeRoom(c.lru, size, c.budget);
      if !fits then
        Answer(c.(lru := room), BlockedStatus(room), 0)
      else
        var (l, vaddr) := MapWithRetry(room, mmap, 0);
        if vaddr.None? then
          Answer(c.(lru := l), BlockedStatus(l), 0)
        else
          var e := Entry(fd, size, vaddr.value, 1, c.clock + 1);
          Answer(c.(lru := l + [e], clock := c.clock + 1), Success, vaddr.value)
  }

  /** A buffer a command wants mapped; `Unresolved` when its reference does not
      resolve against the binding table. */
  datatype Request = Unresolved | Request(fd: int, size: nat)

  function FdOf(r: Request): int {
    if r.Request? then r.fd else -1
  }

  /** Acquires the first `n` requests in order, stopping at the first that
      fails; `held` counts the references taken. `os(k)` answers the mapping
      attempts of request `k`. */
  function AcquireFirst(c: Cache, reqs: seq<Request>, n: nat, os: nat -> Oracle): (r: (Cache, Status, nat))
    requires n <= |reqs|
    ensures r.2 <= n && (r.1 == Success <==> r.2 == n)
    ensures r.1 in {Success, BadParm, BadItem, NoMemory, WouldBlock}
  {
    if n == 0 then (c, Success, 0)
    else
      var (c', status, held) := AcquireFirst(c, reqs, n - 1, os);
      if status != Success then (c', status, held)
      else match reqs[n - 1]
        case Unresolved => (c', BadItem, held)
        case Request(fd, size) =>
          var a := Acquire(c', fd, size, os(n - 1));
          (a.cache, a.status, if a.status == Success then n else held)
  }

  function Release(c: Cache, fd: int): Cache {
    var i := IndexOf(c.lru, fd);
    if i < |c.lru| && c.lru[i].refCount > 0 then
      c.(lru := c.lru[i := c.lru[i].(refCount := c.lru[i].refCount - 1)])
    else
      c
  }

  /** The host is about to free `fd`; the flag reports it still in use. */
  function Forget(c: Cache, fd: int): (Cache, bool) {
    var i := IndexOf(c.lru, fd);
    if i < |c.lru| && c.lru[i].refCount > 0 then (c, true)
    else if i < |c.lru| then (c.(lru := Drop(c.lru, i)), false)
    else (c, false)
  }

  function SetBudget(c: Cache, budget: nat): (Cache, Status) {
    if budget == 0 then (c, BadParm) else (c.(budget := budget), Success)
  }

  /** What holds of every reachable cache: one entry per descriptor, no empty
      mapping, and positions that agree with the use counters. */
  ghost predicate WellFormed(c: Cache) {
    && (forall i, j | 0 <= i < j < |c.lru| :: c.lru[i].fd != c.lru[j].fd)
    && (forall i, j | 0 <= i < j < |c.lru| :: c.lru[i].lastUse < c.lru[j].lastUse)
    && (forall i | 0 <= i < |c.lru| :: c.lru[i].size > 0 && c.lru[i].lastUse <= c.clock)
  }

  // ----- shared facts about lists of entries -----

  lemma DropKeepsOrder(c: Cache, i: nat)
    requires i < |c.lru| && WellFormed(c)
    ensures WellFormed(c.(lru := Drop(c.lru, i)))
  {
  }

  lemma {:induction false} SumsOfDrop(s: seq<Entry>, i: nat)
    requires i < |s|
    ensures SizeSum(Drop(s, i)) == SizeSum(s) - s[i].size
    ensures InUseSum(Drop(s, i)) == InUseSum(s) - (if s[i].refCount > 0 then s[i].size else 0)
    decreases |s|
  {
    var last := |s| - 1;
    if i == last {
      assert Drop(s, i) == s[..last];
    } else {
      SumsOfDrop(s[..last], i);
      assert Drop(s, i)[..last - 1] == Drop(s[..last], i);
    }
  }

  lemma SumsOfPush(s: seq<Entry>, e: Entry)
    ensures SizeSum(s + [e]) == SizeSum(s) + e.size
    ensures InUseSum(s + [e]) == InUseSum(s) + (if e.refCount > 0 then e.size else 0)
  {
  }

  lemma {:induction false} SumsOfUpdate(s: seq<Entry>, i: nat, e: Entry)
    requires i < |s| && e.size == s[i].size
    ensures SizeSum(s[i := e]) == SizeSum(s)
    ensures InUseSum(s[i := e]) == InUseSum(s)
      - (if s[i].refCount > 0 then e.size else 0) + (if e.refCount > 0 then e.size else 0)
    decreases |s|
  {
    var last := |s| - 1;
    if i == last {
      assert s[i := e][..last] == s[..last];
    } else {
      SumsOfUpdate(s[..last], i, e);
      assert s[i := e][..last] == s[..last][i := e];
    }
  }

  lemma PushKeepsOrder(c: Cache, e: Entry)
    requires WellFormed(c) && e.size > 0 && e.lastUse == c.clock + 1
    requires forall k | 0 <= k < |c.lru| :: c.lru[k].fd != e.fd
    ensures WellFormed(c.(lru := c.lru + [e], clock := c.clock + 1))
  {
  }

  lemma DropRemovesFd(c: Cache, pos: nat)
    requires WellFormed(c) && pos < |c.lru|
    ensures forall k | 0 <= k < |c.lru| - 1 :: Drop(c.lru, pos)[k].fd != c.lru[pos].fd
  {
  }

  lemma {:induction false} InUseIffReferenced(s: seq<Entry>)
    requires forall e | e in s :: e.size > 0
    ensures InUseSum(s) > 0 <==> exists e :: e in s && e.refCount > 0
    decreases |s|
  {
    if s != [] {
      InUseIffReferenced(s[..|s| - 1]);
      assert s == s[..|s| - 1] + [s[|s| - 1]];
    }
  }

  lemma AbsentAfterDrop(s: seq<Entry>, i: nat, fd: int)
    requires i < |s| && IndexOf(s, fd) == |s|
    ensures IndexOf(Drop(s, i), fd) == |Drop(s, i)|
  {
  }
}
