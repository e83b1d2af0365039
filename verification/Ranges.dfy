/** Collecting the direct buffer references of a command buffer: an array of
    ranges kept merged, so that cache maintenance touches every byte once. */
module Ranges {
  import opened Memory
  import opened Coherence

  function End(b: Binding): nat {
    b.offset + b.length
  }

  /** Overlapping or adjacent, as closed intervals: empty ranges touch too. */
  predicate Touch(a: Binding, b: Binding) {
    a.fd == b.fd && a.offset <= End(b) && b.offset <= End(a)
  }

  /** No two stored ranges of one allocation overlap or are adjacent. */
  ghost predicate Separated(s: seq<Binding>) {
    forall i, j | 0 <= i < j < |s| :: !Touch(s[i], s[j])
  }

  ghost predicate AllDirect(s: seq<Binding>) {
    forall i | 0 <= i < |s| :: s[i].fd != -1
  }

  lemma BoundSwapRemove(s: seq<Binding>, i: nat, l: Loc)
    requires i < |s|
    ensures Bound(s, l) <==> Bound(s[i := s[|s| - 1]][..|s| - 1], l) || Covers(s[i], l)
  {
    var last := |s| - 1;
    var t := s[i := s[last]][..last];
    if Bound(s, l) && !Covers(s[i], l) {
      var k :| 0 <= k < |s| && Covers(s[k], l);
      assert t[if k == last then i else k] == s[k];
    }
    if Bound(t, l) {
      var k :| 0 <= k < |t| && Covers(t[k], l);
      assert t[k] == s[if k == i then last else k];
    }
  }

  lemma BoundAppend(s: seq<Binding>, b: Binding, l: Loc)
    ensures Bound(s + [b], l) <==> Bound(s, l) || Covers(b, l)
  {
    var t := s + [b];
    if Bound(s, l) {
      var k :| 0 <= k < |s| && Covers(s[k], l);
      assert t[k] == s[k];
    }
    if Covers(b, l) {
      assert t[|s|] == b;
    }
  }

  /** The smallest range holding two that touch; it covers exactly their union. */
  function Union(a: Binding, b: Binding): (u: Binding)
    requires Touch(a, b)
    ensures forall l :: Covers(u, l) <==> Covers(a, l) || Covers(b, l)
    ensures forall c :: Touch(c, u) <==> Touch(c, a) || Touch(c, b)
  {
    var begin := if b.offset < a.offset then b.offset else a.offset;
    var end := if End(b) > End(a) then End(b) else End(a);
    Binding(a.fd, begin, end - begin)
  }

  /** Records a reference, merging it with all ranges it overlaps or touches. */
  method AddDirectBuf(ref: Binding, bufs: array<Binding>, num: nat) returns (num': nat)
    requires num < bufs.Length
    requires Separated(bufs[..num]) && AllDirect(bufs[..num])
    modifies bufs
    ensures num' <= (if ref.fd == -1 then num else num + 1)
    ensures Separated(bufs[..num']) && AllDirect(bufs[..num'])
    ensures forall l :: Bound(bufs[..num'], l) <==> Bound(old(bufs[..num]), l) || Covers(ref, l)
  {
    num' := num;
    if ref.fd == -1 {
      return;
    }
    var merged := ref;
    var idx := 0;
    while idx < num'
      invariant idx <= num' <= num && merged.fd == ref.fd
      invariant Separated(bufs[..num']) && AllDirect(bufs[..num'])
      invariant forall k | 0 <= k < idx :: !Touch(bufs[k], merged)
      invariant forall l :: Bound(bufs[..num'], l) || Covers(merged, l) <==> Bound(old(bufs[..num]), l) || Covers(ref, l)
      decreases num' - idx
    {
      if !Touch(bufs[idx], merged) {
        idx := idx + 1;
        continue;
      }
      ghost var s := bufs[..num'];
      merged := Union(merged, bufs[idx]);
      num' := num' - 1;
      bufs[idx] := bufs[num'];
      assert bufs[..num'] == s[idx := s[|s| - 1]][..|s| - 1];
      forall l ensures Bound(s, l) <==> Bound(bufs[..num'], l) || Covers(s[idx], l) {
        BoundSwapRemove(s, idx, l);
      }
    }
    ghost var s := bufs[..num'];
    bufs[num'] := merged;
    num' := num' + 1;
    assert bufs[..num'] == s + [merged];
    forall l ensures Bound(bufs[..num'], l) <==> Bound(s, l) || Covers(merged, l) {
      BoundAppend(s, merged, l);
    }
  }

  /** What the count-only pass computes. */
  function DirectCount(refs: seq<Binding>): (n: nat)
    ensures n <= |refs|
  {
    if refs == [] then 0
    else DirectCount(refs[..|refs| - 1]) + (if refs[|refs| - 1].fd == -1 then 0 else 1)
  }

  lemma {:induction false} DirectCountMonotone(refs: seq<Binding>, i: nat)
    requires i <= |refs|
    ensures DirectCount(refs[..i]) <= DirectCount(refs)
    decreases |refs| - i
  {
    if i < |refs| {
      assert refs[..i + 1][..i] == refs[..i];
      DirectCountMonotone(refs, i + 1);
    } else {
      assert refs[..i] == refs;
    }
  }

  /** Collects all direct references: one pass to count, one to fill an array of
      that size, which is never exceeded. The stored ranges cover exactly the
      bytes of the references. */
  method CollectDirectBufs(refs: seq<Binding>) returns (bufs: array<Binding>, num: nat)
    ensures num <= bufs.Length == DirectCount(refs)
    ensures Separated(bufs[..num]) && AllDirect(bufs[..num])
    ensures forall l :: Bound(bufs[..num], l) <==> Bound(refs, l)
  {
    var max := 0;
    for i := 0 to |refs|
      invariant max == DirectCount(refs[..i])
    {
      assert refs[..i + 1][..i] == refs[..i];
      if refs[i].fd != -1 {
        max := max + 1;
      }
    }
    assert refs[..|refs|] == refs;
    bufs := new Binding[max](_ => Binding(-1, 0, 0));
    num := 0;
    for i := 0 to |refs|
      invariant num <= DirectCount(refs[..i]) && num <= bufs.Length
      invariant Separated(bufs[..num]) && AllDirect(bufs[..num])
      invariant forall l :: Bound(bufs[..num], l) <==> Bound(refs[..i], l)
    {
      assert refs[..i + 1][..i] == refs[..i];
      DirectCountMonotone(refs, i + 1);
      if refs[i].fd != -1 {
        num := AddDirectBuf(refs[i], bufs, num);
      }
      forall l ensures Bound(refs[..i + 1], l) <==> Bound(refs[..i], l) || Covers(refs[i], l) {
        assert refs[..i + 1] == refs[..i] + [refs[i]];
        BoundAppend(refs[..i], refs[i], l);
      }
    }
  }
}
