/** The residency cache as the DSP runtime keeps it: an unordered array with
    swap-remove, reference counts, a use counter and two running byte sums.
    Every method is proved to do to `Model()`, the entries in order of last use,
    what `ResidencySpec` says. */
module Residency {
  import opened Status
  import opened ResidencySpec

  /** `arr` holds the entries of `c` in any order, with their byte sums. */
  ghost predicate Rep(c: Cache, arr: seq<Entry>, mapped: nat, inUse: nat) {
    && WellFormed(c)
    && multiset(c.lru) == multiset(arr)
    && mapped == SizeSum(c.lru)
    && inUse == InUseSum(c.lru)
  }

  lemma SameEntries(c: Cache, arr: seq<Entry>, mapped: nat, inUse: nat)
    requires Rep(c, arr, mapped, inUse)
    ensures |c.lru| == |arr|
    ensures forall e :: e in c.lru <==> e in arr
  {
    assert |multiset(c.lru)| == |c.lru| && |multiset(arr)| == |arr|;
    forall e ensures e in c.lru <==> e in arr {
      assert e in multiset(c.lru) <==> e in c.lru;
      assert e in multiset(arr) <==> e in arr;
    }
  }

  /** Position in the recency list of the entry stored at `idx`. */
  lemma Locate(c: Cache, arr: seq<Entry>, mapped: nat, inUse: nat, idx: nat) returns (pos: nat)
    requires Rep(c, arr, mapped, inUse) && idx < |arr|
    ensures pos < |c.lru| && c.lru[pos] == arr[idx] && pos == IndexOf(c.lru, arr[idx].fd)
  {
    SameEntries(c, arr, mapped, inUse);
    assert arr[idx] in arr;
    pos := IndexOf(c.lru, arr[idx].fd);
  }

  lemma DropRemoves(s: seq<Entry>, i: nat)
    requires i < |s|
    ensures multiset(Drop(s, i)) == multiset(s) - multiset{s[i]}
  {
    assert s == s[..i] + [s[i]] + s[i + 1..];
  }

  /** Moving the last element over `s[i]` removes `s[i]` and nothing else. */
  lemma SwapRemove(s: seq<Entry>, i: nat)
    requires i < |s|
    ensures multiset(s[i := s[|s| - 1]][..|s| - 1]) == multiset(s) - multiset{s[i]}
  {
    var last := |s| - 1;
    var t := s[i := s[last]];
    assert s == s[..last] + [s[last]];
    assert t == t[..last] + [s[last]];
    assert multiset(t) == multiset(s) - multiset{s[i]} + multiset{s[last]};
  }

  lemma RepUnmap(c: Cache, arr: seq<Entry>, mapped: nat, inUse: nat, idx: nat, pos: nat)
    requires Rep(c, arr, mapped, inUse) && idx < |arr| && pos < |c.lru|
    requires arr[idx] == c.lru[pos] && arr[idx].refCount == 0
    ensures mapped >= arr[idx].size
    ensures Rep(c.(lru := Drop(c.lru, pos)), arr[idx := arr[|arr| - 1]][..|arr| - 1], mapped - arr[idx].size, inUse)
  {
    DropRemoves(c.lru, pos);
    SwapRemove(arr, idx);
    DropKeepsOrder(c, pos);
    SumsOfDrop(c.lru, pos);
  }

  function Touched(e: Entry, clock: nat): Entry {
    e.(refCount := e.refCount + 1, lastUse := clock)
  }

  lemma RepTouch(c: Cache, arr: seq<Entry>, mapped: nat, inUse: nat, idx: nat, pos: nat)
    requires Rep(c, arr, mapped, inUse) && idx < |arr| && pos < |c.lru|
    requires arr[idx] == c.lru[pos]
    ensures var e := Touched(arr[idx], c.clock + 1);
      Rep(c.(lru := Drop(c.lru, pos) + [e], clock := c.clock + 1), arr[idx := e], mapped,
          inUse + (if arr[idx].refCount == 0 then e.size else 0))
  {
    var e := Touched(arr[idx], c.clock + 1);
    DropRemoves(c.lru, pos);
    DropKeepsOrder(c, pos);
    SumsOfDrop(c.lru, pos);
    SumsOfPush(Drop(c.lru, pos), e);
    DropRemovesFd(c, pos);
    PushKeepsOrder(c.(lru := Drop(c.lru, pos)), e);
    assert multiset(arr[idx := e]) == multiset(arr) - multiset{arr[idx]} + multiset{e};
  }

  lemma RepAdd(c: Cache, arr: seq<Entry>, mapped: nat, inUse: nat, e: Entry)
    requires Rep(c, arr, mapped, inUse)
    requires e.size > 0 && e.refCount == 1 && e.lastUse == c.clock + 1 && IndexOf(c.lru, e.fd) == |c.lru|
    ensures Rep(c.(lru := c.lru + [e], clock := c.clock + 1), arr + [e], mapped + e.size, inUse + e.size)
  {
  }

  lemma UpdateKeepsOrder(c: Cache, i: nat, e: Entry)
    requires WellFormed(c) && i < |c.lru|
    requires e.fd == c.lru[i].fd && e.lastUse == c.lru[i].lastUse && e.size == c.lru[i].size
    ensures WellFormed(c.(lru := c.lru[i := e]))
  {
  }

  lemma RepRelease(c: Cache, arr: seq<Entry>, mapped: nat, inUse: nat, idx: nat, pos: nat)
    requires Rep(c, arr, mapped, inUse) && idx < |arr| && pos < |c.lru|
    requires arr[idx] == c.lru[pos] && arr[idx].refCount > 0
    ensures var e := arr[idx].(refCount := arr[idx].refCount - 1);
      var freed := if e.refCount == 0 then e.size else 0;
      inUse >= freed && Rep(c.(lru := c.lru[pos := e]), arr[idx := e], mapped, inUse - freed)
  {
    hide WellFormed;
    var e := arr[idx].(refCount := arr[idx].refCount - 1);
    UpdateKeepsOrder(c, pos, e);
    SumsOfUpdate(c.lru, pos, e);
    assert multiset(arr[idx := e]) == multiset(arr) - multiset{arr[idx]} + multiset{e};
    assert multiset(c.lru[pos := e]) == multiset(c.lru) - multiset{c.lru[pos]} + multiset{e};
  }

  class ResidencyCache {
    var budget: nat
    var mappedBytes: nat
    var inUseBytes: nat
    var useCounter: nat
    var entries: array<Entry>
    var numEntries: nat
    /** the entries in order of last use */
    ghost var order: seq<Entry>

    ghost function Model(): Cache
      reads this
    {
      Cache(order, budget, useCounter)
    }

    ghost function Stored(): seq<Entry>
      requires numEntries <= entries.Length
      reads this, entries
    {
      entries[..numEntries]
    }

    ghost predicate Valid()
      reads this, entries
    {
      && numEntries <= entries.Length
      && Rep(Model(), Stored(), mappedBytes, inUseBytes)
    }

    constructor ()
      ensures Valid() && fresh(entries)
      ensures Model() == Cache([], 0, 0)
    {
      budget, mappedBytes, inUseBytes, useCounter, numEntries := 0, 0, 0, 0, 0;
      entries := new Entry[0];
      order := [];
    }

    method Find(fd: int) returns (idx: nat)
      requires Valid()
      ensures idx <= numEntries == |order|
      ensures idx < numEntries <==> IndexOf(order, fd) < |order|
      ensures idx < numEntries ==> entries[idx] == order[IndexOf(order, fd)]
    {
      SameEntries(Model(), Stored(), mappedBytes, inUseBytes);
      if IndexOf(order, fd) < |order| {
        assert order[IndexOf(order, fd)] in Stored();
      }
      idx := 0;
      while idx < numEntries
        invariant idx <= numEntries
        invariant forall k | 0 <= k < idx :: entries[k].fd != fd
      {
        if entries[idx].fd == fd {
          var pos := Locate(Model(), Stored(), mappedBytes, inUseBytes, idx);
          return;
        }
        idx := idx + 1;
      }
    }

    /** Unmaps the entry at `idx`, which is not in use. */
    method UnmapEntry(idx: nat)
      requires Valid() && idx < numEntries && entries[idx].refCount == 0
      modifies this`mappedBytes, this`numEntries, this`order, entries
      ensures Valid()
      ensures IndexOf(old(order), old(entries[idx]).fd) < |old(order)|
      ensures order == Drop(old(order), IndexOf(old(order), old(entries[idx]).fd))
    {
      hide Rep;
      ghost var pos := Locate(Model(), Stored(), mappedBytes, inUseBytes, idx);
      ghost var before := Stored();
      RepUnmap(Model(), before, mappedBytes, inUseBytes, idx, pos);
      mappedBytes := mappedBytes - entries[idx].size;
      numEntries := numEntries - 1;
      entries[idx] := entries[numEntries];
      order := Drop(order, pos);
      assert Stored() == before[idx := before[|before| - 1]][..|before| - 1];
    }

    /** Position of the idle entry with the smallest use counter, or `numEntries`. */
    method FindLru() returns (lru: nat)
      requires Valid()
      ensures lru <= numEntries
      ensures lru < numEntries <==> HasIdle(order)
      ensures lru < numEntries ==> entries[lru] == order[FirstIdle(order)]
    {
      lru := numEntries;
      var idx := 0;
      while idx < numEntries
        invariant idx <= numEntries
        invariant lru == numEntries || (lru < idx && entries[lru].refCount == 0)
        invariant lru == numEntries ==> forall k | 0 <= k < idx :: entries[k].refCount > 0
        invariant lru < numEntries ==>
          forall k | 0 <= k < idx && entries[k].refCount == 0 :: entries[lru].lastUse <= entries[k].lastUse
      {
        if entries[idx].refCount == 0 && (lru == numEntries || entries[idx].lastUse < entries[lru].lastUse) {
          lru := idx;
        }
        idx := idx + 1;
      }
      SameEntries(Model(), Stored(), mappedBytes, inUseBytes);
      if HasIdle(order) {
        assert order[FirstIdle(order)] in Stored();
      }
      if lru < numEntries {
        ghost var pos := Locate(Model(), Stored(), mappedBytes, inUseBytes, lru);
      }
    }

    method EvictOne() returns (evicted: bool)
      requires Valid()
      modifies this`mappedBytes, this`numEntries, this`order, entries
      ensures Valid()
      ensures evicted == HasIdle(old(order))
      ensures order == if evicted then Evict(old(order)) else old(order)
    {
      var lru := FindLru();
      if lru == numEntries {
        return false;
      }
      ghost var pos := Locate(Model(), Stored(), mappedBytes, inUseBytes, lru);
      SameFd(FirstIdle(order), pos);
      UnmapEntry(lru);
      return true;
    }

    lemma SameFd(i: nat, j: nat)
      requires Valid() && i < |order| && j < |order| && order[i].fd == order[j].fd
      ensures i == j
    {
    }

    lemma SumsAgree()
      requires Valid()
      ensures mappedBytes == SizeSum(order) && inUseBytes == InUseSum(order)
    {
    }

    /** Makes room for one more entry in the array. */
    method Reserve()
      requires Valid()
      modifies this`entries
      ensures Valid() && numEntries < entries.Length
      ensures entries == old(entries) || fresh(entries)
    {
      if numEntries == entries.Length {
        var capacity := if entries.Length > 0 then 2 * entries.Length else 64;
        var bigger := new Entry[capacity](_ => Entry(0, 0, 0, 0, 0));
        forall k | 0 <= k < numEntries {
          bigger[k] := entries[k];
        }
        ghost var before := Stored();
        entries := bigger;
        assert Stored() == before;
      }
    }

    /** Takes one more reference to the entry at `idx`. */
    method AcquireMapped(idx: nat)
      requires Valid() && idx < numEntries
      modifies this`inUseBytes, this`useCounter, this`order, entries
      ensures Valid()
      ensures useCounter == old(useCounter) + 1
      ensures entries[idx] == Touched(old(entries[idx]), useCounter)
      ensures IndexOf(old(order), old(entries[idx]).fd) < |old(order)|
      ensures order == Drop(old(order), IndexOf(old(order), old(entries[idx]).fd)) + [entries[idx]]
    {
      hide Rep;
      ghost var pos := Locate(Model(), Stored(), mappedBytes, inUseBytes, idx);
      ghost var before := Stored();
      RepTouch(Model(), before, mappedBytes, inUseBytes, idx, pos);
      if entries[idx].refCount == 0 {
        inUseBytes := inUseBytes + entries[idx].size;
      }
      useCounter := useCounter + 1;
      entries[idx] := entries[idx].(refCount := entries[idx].refCount + 1, lastUse := useCounter);
      order := Drop(order, pos) + [entries[idx]];
      assert Stored() == before[idx := entries[idx]];
    }

    method AddEntry(fd: int, allocSize: nat, vaddr: nat)
      requires Valid() && numEntries < entries.Length && allocSize > 0
      requires IndexOf(order, fd) == |order|
      modifies this`mappedBytes, this`inUseBytes, this`useCounter, this`numEntries, this`order, entries
      ensures Valid() && useCounter == old(useCounter) + 1
      ensures order == old(order) + [Entry(fd, allocSize, vaddr, 1, useCounter)]
    {
      hide Rep;
      ghost var before := Stored();
      RepAdd(Model(), before, mappedBytes, inUseBytes, Entry(fd, allocSize, vaddr, 1, useCounter + 1));
      useCounter := useCounter + 1;
      entries[numEntries] := Entry(fd, allocSize, vaddr, 1, useCounter);
      order := order + [entries[numEntries]];
      numEntries := numEntries + 1;
      mappedBytes := mappedBytes + allocSize;
      inUseBytes := inUseBytes + allocSize;
      assert Stored() == before + [entries[numEntries - 1]];
    }

    /** Evicts until `allocSize` more bytes fit the budget. */
    method EvictForBudget(allocSize: nat, ghost fd: int) returns (fits: bool)
      requires Valid() && IndexOf(order, fd) == |order|
      modifies this`mappedBytes, this`numEntries, this`order, entries
      ensures Valid() && IndexOf(order, fd) == |order|
      ensures (order, fits) == MakeRoom(old(order), allocSize, budget)
    {
      hide Rep;
      while mappedBytes + allocSize > budget
        invariant Valid() && IndexOf(order, fd) == |order|
        invariant MakeRoom(old(order), allocSize, budget) == MakeRoom(order, allocSize, budget)
        decreases |order|
      {
        SumsAgree();
        ghost var prev := order;
        var evicted := EvictOne();
        if !evicted {
          return false;
        }
        AbsentAfterDrop(prev, FirstIdle(prev), fd);
      }
      SumsAgree();
      return true;
    }

    /** Maps, evicting one more entry after each failed attempt. */
    method MapEvicting(mmap: Oracle, ghost fd: int) returns (vaddr: Option<nat>)
      requires Valid() && IndexOf(order, fd) == |order|
      modifies this`mappedBytes, this`numEntries, this`order, entries
      ensures Valid() && IndexOf(order, fd) == |order| && numEntries <= old(numEntries)
      ensures (order, vaddr) == MapWithRetry(old(order), mmap, 0)
    {
      hide WellFormed, SizeSum, InUseSum;
      var attempt := 0;
      while mmap(attempt).None?
        invariant Valid() && IndexOf(order, fd) == |order| && numEntries <= old(numEntries)
        invariant MapWithRetry(old(order), mmap, 0) == MapWithRetry(order, mmap, attempt)
        decreases |order|
      {
        ghost var prev := order;
        SameEntries(Model(), Stored(), mappedBytes, inUseBytes);
        var evicted := EvictOne();
        SameEntries(Model(), Stored(), mappedBytes, inUseBytes);
        if !evicted {
          return None;
        }
        AbsentAfterDrop(prev, FirstIdle(prev), fd);
        attempt := attempt + 1;
      }
      return mmap(attempt);
    }

    method Acquire(fd: int, allocSize: nat, mmap: Oracle) returns (status: Status, vaddr: nat)
      requires Valid()
      modifies this, entries
      ensures Valid() && (entries == old(entries) || fresh(entries))
      ensures Answer(Model(), status, vaddr) == ResidencySpec.Acquire(old(Model()), fd, allocSize, mmap)
    {
      hide Rep, MakeRoom, MapWithRetry, SizeSum, InUseSum, FirstIdle;
      vaddr := 0;
      var idx := Find(fd);
      if idx < numEntries {
        vaddr := entries[idx].vaddr;
        AcquireMapped(idx);
        return Success, vaddr;
      }
      if allocSize == 0 {
        return BadParm, 0;
      }
      var fits := EvictForBudget(allocSize, fd);
      if !fits {
        SumsAgree();
        return if inUseBytes > 0 then WouldBlock else NoMemory, 0;
      }
      Reserve();
      var mapped := MapEvicting(mmap, fd);
      if mapped.None? {
        SumsAgree();
        return if inUseBytes > 0 then WouldBlock else NoMemory, 0;
      }
      vaddr := mapped.value;
      AddEntry(fd, allocSize, vaddr);
      status := Success;
    }

    method Release(fd: int)
      requires Valid()
      modifies this`inUseBytes, this`order, entries
      ensures Valid()
      ensures Model() == ResidencySpec.Release(old(Model()), fd)
    {
      hide Rep;
      var idx := Find(fd);
      if idx < numEntries && entries[idx].refCount > 0 {
        ghost var pos := IndexOf(order, fd);
        ghost var before := Stored();
        RepRelease(Model(), before, mappedBytes, inUseBytes, idx, pos);
        entries[idx] := entries[idx].(refCount := entries[idx].refCount - 1);
        order := order[pos := entries[idx]];
        if entries[idx].refCount == 0 {
          inUseBytes := inUseBytes - entries[idx].size;
        }
        assert Stored() == before[idx := entries[idx]];
      }
    }

    method Forget(fd: int) returns (inUse: bool)
      requires Valid()
      modifies this`mappedBytes, this`numEntries, this`order, entries
      ensures Valid()
      ensures (Model(), inUse) == ResidencySpec.Forget(old(Model()), fd)
    {
      inUse := false;
      var idx := Find(fd);
      if idx < numEntries && entries[idx].refCount > 0 {
        inUse := true;
      } else if idx < numEntries {
        UnmapEntry(idx);
      }
    }

    method SetBudget(budgetBytes: nat) returns (status: Status)
      requires Valid()
      modifies this`budget
      ensures Valid()
      ensures (Model(), status) == ResidencySpec.SetBudget(old(Model()), budgetBytes)
    {
      if budgetBytes == 0 {
        return BadParm;
      }
      budget := budgetBytes;
      return Success;
    }

    /** Unmaps everything not in use; what is left was never released. */
    method Destroy() returns (leaked: bool)
      requires Valid()
      modifies this`mappedBytes, this`numEntries, this`order, entries
      ensures Valid()
      ensures forall e :: e in order <==> e in old(order) && e.refCount > 0
      ensures leaked == exists e :: e in old(order) && e.refCount > 0
    {
      var more := true;
      while more
        invariant Valid()
        invariant forall e :: e in order ==> e in old(order)
        invariant forall e :: e in old(order) && e.refCount > 0 ==> e in order
        invariant !more ==> !HasIdle(order)
        decreases |order|, more
      {
        ghost var prev := order;
        more := EvictOne();
        if more {
          DropMembers(prev, FirstIdle(prev));
        }
      }
      leaked := inUseBytes > 0;
      assert forall e | e in order :: e.size > 0;
      InUseIffReferenced(order);
    }

    lemma DropMembers(s: seq<Entry>, i: nat)
      requires i < |s|
      ensures forall e :: e in s <==> e in Drop(s, i) || e == s[i]
    {
    }
  }
}
