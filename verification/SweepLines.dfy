/** The sweeps over profile zones, against their brute-force meaning. */
module SweepLines {
  datatype Zone = Zone(start: int, duration: int) {
    function End(): int { start + duration }
  }

  ghost predicate NonNegative(zs: seq<Zone>) {
    forall i | 0 <= i < |zs| :: zs[i].duration >= 0
  }

  // ----- the most zones running at one instant -----

  /** Zones running at instant `t`: started, and not yet ended. */
  function Running(zs: seq<Zone>, t: int): nat {
    if zs == [] then 0 else (if zs[0].start <= t < zs[0].End() then 1 else 0) + Running(zs[1..], t)
  }

  /** A zone starts (+1) or ends (-1). */
  datatype Change = Change(time: int, delta: int)

  function Starts(zs: seq<Zone>): seq<Change> {
    seq(|zs|, i requires 0 <= i < |zs| => Change(zs[i].start, 1))
  }

  function Ends(zs: seq<Zone>): seq<Change> {
    seq(|zs|, i requires 0 <= i < |zs| => Change(zs[i].End(), -1))
  }

  /** By time; at equal times ends come first. */
  ghost predicate InTimeOrder(cs: seq<Change>) {
    forall i, j | 0 <= i < j < |cs| :: cs[i].time < cs[j].time || (cs[i].time == cs[j].time && cs[i].delta <= cs[j].delta)
  }

  function Sum(cs: seq<Change>): int {
    if cs == [] then 0 else cs[0].delta + Sum(cs[1..])
  }

  /** The changes up to and including instant `t`. */
  function Net(cs: seq<Change>, t: int): int {
    if cs == [] then 0 else (if cs[0].time <= t then cs[0].delta else 0) + Net(cs[1..], t)
  }

  lemma {:induction false} NetConcat(a: seq<Change>, b: seq<Change>, t: int)
    ensures Net(a + b, t) == Net(a, t) + Net(b, t)
    decreases |a|
  {
    if a == [] {
      assert a + b == b;
    } else {
      assert (a + b)[1..] == a[1..] + b;
      NetConcat(a[1..], b, t);
    }
  }

  lemma {:induction false} SumConcat(a: seq<Change>, b: seq<Change>)
    ensures Sum(a + b) == Sum(a) + Sum(b)
    decreases |a|
  {
    if a == [] {
      assert a + b == b;
    } else {
      assert (a + b)[1..] == a[1..] + b;
      SumConcat(a[1..], b);
    }
  }

  lemma RemoveOne(b: seq<Change>, i: nat, t: int)
    requires i < |b|
    ensures multiset(b[..i] + b[i + 1..]) == multiset(b) - multiset{b[i]}
    ensures Net(b, t) == Net(b[..i] + b[i + 1..], t) + (if b[i].time <= t then b[i].delta else 0)
  {
    assert b == b[..i] + ([b[i]] + b[i + 1..]);
    NetConcat(b[..i], b[i + 1..], t);
    NetConcat(b[..i], [b[i]] + b[i + 1..], t);
    assert ([b[i]] + b[i + 1..])[1..] == b[i + 1..];
  }

  /** The order of the changes does not matter for what they add up to. */
  lemma {:induction false} NetOfPermutation(a: seq<Change>, b: seq<Change>, t: int)
    requires multiset(a) == multiset(b)
    ensures Net(a, t) == Net(b, t)
    decreases |a|
  {
    assert |b| == |multiset(b)| == |multiset(a)| == |a|;
    hide Net;
    if a != [] {
      assert a[0] in multiset(b);
      var i :| 0 <= i < |b| && b[i] == a[0];
      RemoveOne(a, 0, t);
      RemoveOne(b, i, t);
      NetOfPermutation(a[..0] + a[1..], b[..i] + b[i + 1..], t);
    } else {
      assert a == b;
    }
  }

  /** Zones that end before they start, around instant `t`. */
  function BackwardOver(zs: seq<Zone>, t: int): nat {
    if zs == [] then 0 else (if zs[0].End() <= t < zs[0].start then 1 else 0) + BackwardOver(zs[1..], t)
  }

  /** Starts minus ends up to an instant fall short of the zones running then by
      exactly the zones that run backwards over it. */
  lemma {:induction false} NetFallsShort(zs: seq<Zone>, t: int)
    ensures Net(Starts(zs), t) + Net(Ends(zs), t) == Running(zs, t) - BackwardOver(zs, t)
    decreases |zs|
  {
    if zs != [] {
      assert Starts(zs)[1..] == Starts(zs[1..]) && Ends(zs)[1..] == Ends(zs[1..]);
      NetFallsShort(zs[1..], t);
    }
  }

  lemma {:induction false} NoneBackward(zs: seq<Zone>, t: int)
    requires NonNegative(zs)
    ensures BackwardOver(zs, t) == 0
    decreases |zs|
  {
    if zs != [] {
      NoneBackward(zs[1..], t);
    }
  }

  /** Early enough nothing runs, in either direction. */
  lemma {:induction false} EarlyInstant(zs: seq<Zone>) returns (first: int)
    ensures forall t | t < first :: Running(zs, t) == 0 && BackwardOver(zs, t) == 0
    decreases |zs|
  {
    first := 0;
    if zs != [] {
      var rest := EarlyInstant(zs[1..]);
      first := if zs[0].start < rest then zs[0].start else rest;
      first := if zs[0].End() < first then zs[0].End() else first;
      forall t | t < first ensures Running(zs, t) == 0 && BackwardOver(zs, t) == 0 {
        assert Running(zs[1..], t) == 0 && BackwardOver(zs[1..], t) == 0;
      }
    }
  }

  lemma {:induction false} NetAllBefore(cs: seq<Change>, t: int)
    requires forall i | 0 <= i < |cs| :: cs[i].time <= t
    ensures Net(cs, t) == Sum(cs)
    decreases |cs|
  {
    if cs != [] {
      NetAllBefore(cs[1..], t);
    }
  }

  lemma {:induction false} NetAllAfter(cs: seq<Change>, t: int)
    requires forall i | 0 <= i < |cs| :: cs[i].time > t
    ensures Net(cs, t) == 0
    decreases |cs|
  {
    if cs != [] {
      NetAllAfter(cs[1..], t);
    }
  }

  /** The number of changes up to instant `t`, in time order. */
  function UpTo(cs: seq<Change>, t: int): (k: nat)
    requires InTimeOrder(cs)
    ensures k <= |cs|
    ensures forall i | 0 <= i < k :: cs[i].time <= t
    ensures forall i | k <= i < |cs| :: cs[i].time > t
  {
    if cs == [] || cs[0].time > t then 0 else 1 + UpTo(cs[1..], t)
  }

  /** What has been added up at instant `t` is a prefix of the changes. */
  lemma NetIsPrefix(cs: seq<Change>, t: int)
    requires InTimeOrder(cs)
    ensures Net(cs, t) == Sum(cs[..UpTo(cs, t)])
  {
    var k := UpTo(cs, t);
    assert cs == cs[..k] + cs[k..];
    NetConcat(cs[..k], cs[k..], t);
    NetAllBefore(cs[..k], t);
    NetAllAfter(cs[k..], t);
  }

  lemma {:induction false} SumOfStarts(cs: seq<Change>)
    requires forall i | 0 <= i < |cs| :: cs[i].delta >= 0
    ensures Sum(cs) >= 0
    decreases |cs|
  {
    if cs != [] {
      SumOfStarts(cs[1..]);
    }
  }

  /** No prefix adds up to more than some instant does. */
  lemma {:induction false} PrefixIsReached(cs: seq<Change>, k: nat) returns (t: int)
    requires InTimeOrder(cs) && k <= |cs| && Sum(cs[..k]) > 0
    ensures Net(cs, t) >= Sum(cs[..k])
    decreases k
  {
    assert k > 0;
    var last := cs[k - 1];
    assert cs[..k] == cs[..k - 1] + [last];
    SumConcat(cs[..k - 1], [last]);
    if last.delta < 0 {
      t := PrefixIsReached(cs, k - 1);
    } else {
      t := last.time;
      NetIsPrefix(cs, t);
      var u := UpTo(cs, t);
      assert k <= u;
      assert cs[..u] == cs[..k] + cs[k..u];
      SumConcat(cs[..k], cs[k..u]);
      SumOfStarts(cs[k..u]);
    }
  }

  /** `peak` is the largest number of zones running at an instant. */
  ghost predicate IsPeak(zs: seq<Zone>, peak: int) {
    (exists t :: Running(zs, t) == peak) && forall t :: Running(zs, t) <= peak
  }

  /** What the sweep counts at instant `t`. */
  function Counted(zs: seq<Zone>, t: int): int {
    Running(zs, t) - BackwardOver(zs, t)
  }

  /** The largest count at any instant. */
  ghost predicate IsCountedPeak(zs: seq<Zone>, peak: int) {
    (exists t :: Counted(zs, t) == peak) && forall t :: Counted(zs, t) <= peak
  }

  /** Some instant at which as many zones run as ever do has no zone running
      backwards over it. */
  ghost predicate PeakIsUndisturbed(zs: seq<Zone>) {
    exists t :: BackwardOver(zs, t) == 0 && forall u :: Running(zs, u) <= Running(zs, t)
  }

  /** The sweep: `changes` are the starts and ends in time order. For any zones
      it returns the largest count; that is the most zones running at an instant
      if and only if such an instant is undisturbed, which it always is when no
      duration is negative. */
  method MaxConcurrency(zs: seq<Zone>, changes: seq<Change>) returns (peak: int)
    requires InTimeOrder(changes) && multiset(changes) == multiset(Starts(zs) + Ends(zs))
    ensures IsCountedPeak(zs, peak)
    ensures IsPeak(zs, peak) <==> PeakIsUndisturbed(zs)
    ensures NonNegative(zs) ==> IsPeak(zs, peak)
  {
    var running := 0;
    peak := 0;
    hide Sum;
    assert changes[..0] == [] && Sum([]) == 0 by {
      SumOfNone();
    }
    for i := 0 to |changes|
      invariant running == Sum(changes[..i])
      invariant peak >= 0 && forall k | 0 <= k <= i :: Sum(changes[..k]) <= peak
      invariant peak == 0 || exists k :: 0 <= k <= i && Sum(changes[..k]) == peak
    {
      NextSum(changes, i);
      running := running + changes[i].delta;
      peak := if running > peak then running else peak;
    }
    SweepCounts(zs, changes, peak);
    CountedPeakIsPeak(zs, peak);
  }

  lemma SumOfNone()
    ensures Sum([]) == 0
  {
  }

  lemma NextSum(cs: seq<Change>, i: nat)
    requires i < |cs|
    ensures Sum(cs[..i + 1]) == Sum(cs[..i]) + cs[i].delta
  {
    assert cs[..i + 1] == cs[..i] + [cs[i]];
    SumConcat(cs[..i], [cs[i]]);
  }

  lemma CountIsPrefix(zs: seq<Zone>, changes: seq<Change>, t: int)
    requires InTimeOrder(changes) && multiset(changes) == multiset(Starts(zs) + Ends(zs))
    ensures Counted(zs, t) == Net(changes, t) == Sum(changes[..UpTo(changes, t)])
  {
    NetFallsShort(zs, t);
    NetConcat(Starts(zs), Ends(zs), t);
    NetOfPermutation(changes, Starts(zs) + Ends(zs), t);
    NetIsPrefix(changes, t);
  }

  lemma SweepCounts(zs: seq<Zone>, changes: seq<Change>, peak: int)
    requires InTimeOrder(changes) && multiset(changes) == multiset(Starts(zs) + Ends(zs))
    requires peak >= 0 && forall k | 0 <= k <= |changes| :: Sum(changes[..k]) <= peak
    requires peak == 0 || exists k :: 0 <= k <= |changes| && Sum(changes[..k]) == peak
    ensures IsCountedPeak(zs, peak)
  {
    hide Sum, Net, Counted, Starts, Ends;
    forall t ensures Counted(zs, t) <= peak {
      CountIsPrefix(zs, changes, t);
    }
    if peak > 0 {
      var k :| 0 <= k <= |changes| && Sum(changes[..k]) == peak;
      var t := PrefixIsReached(changes, k);
      CountIsPrefix(zs, changes, t);
    } else {
      var first := EarlyInstant(zs);
      NothingCounted(zs, first - 1);
    }
  }

  lemma NothingCounted(zs: seq<Zone>, t: int)
    requires Running(zs, t) == 0 && BackwardOver(zs, t) == 0
    ensures Counted(zs, t) == 0
  {
  }

  /** When the largest count is the largest number of zones running. */
  lemma CountedPeakIsPeak(zs: seq<Zone>, peak: int)
    requires IsCountedPeak(zs, peak)
    ensures IsPeak(zs, peak) <==> PeakIsUndisturbed(zs)
    ensures NonNegative(zs) ==> IsPeak(zs, peak)
  {
    var t :| Counted(zs, t) == peak;
    if IsPeak(zs, peak) {
      assert BackwardOver(zs, t) == 0;
    }
    if PeakIsUndisturbed(zs) {
      var u :| BackwardOver(zs, u) == 0 && forall v :: Running(zs, v) <= Running(zs, u);
      assert Counted(zs, u) == Running(zs, u) >= Running(zs, t) >= peak;
      assert IsPeak(zs, peak);
    }
    if NonNegative(zs) {
      forall v ensures Counted(zs, v) == Running(zs, v) {
        NoneBackward(zs, v);
      }
      assert IsPeak(zs, peak);
    }
  }

  const BACKWARD: seq<Zone> := [Zone(2, -2), Zone(0, 2)]

  /** A zone that ends before it starts can hide another: one zone runs at
      instant 1, but whatever the sweep returns for the two is 0. */
  lemma BackwardZonesAreMissed(peak: int)
    requires IsCountedPeak(BACKWARD, peak)
    ensures peak == 0 && Running(BACKWARD, 1) == 1 && !IsPeak(BACKWARD, peak) && !PeakIsUndisturbed(BACKWARD)
  {
    forall t ensures Running(BACKWARD, t) == BackwardOver(BACKWARD, t) == if 0 <= t < 2 then 1 else 0 {
      var rest := BACKWARD[1..];
      assert BACKWARD[0] == Zone(2, -2) && rest == [Zone(0, 2)] && rest[1..] == [];
      assert Running(rest, t) == if 0 <= t < 2 then 1 else 0;
      assert BackwardOver(rest, t) == 0;
    }
    CountedPeakIsPeak(BACKWARD, peak);
    assert Running(BACKWARD, 1) > 0;
  }

  // ----- overlapping pairs -----

  /** Both run at some instant; touching ends do not count. */
  predicate Overlaps(a: Zone, b: Zone) {
    a.start < b.End() && b.start < a.End()
  }

  ghost predicate ByStart(zs: seq<Zone>) {
    forall i, j | 0 <= i < j < |zs| :: zs[i].start < zs[j].start || (zs[i].start == zs[j].start && zs[i].End() <= zs[j].End())
  }

  /** The earlier of two zones still runs when the later one starts. */
  predicate Met(zs: seq<Zone>, i: nat, j: nat)
    requires i < |zs| && j < |zs|
  {
    if i < j then zs[i].End() > zs[j].start else zs[j].End() > zs[i].start
  }

  /** In start order, two zones overlap if and only if the earlier one still runs
      when the later one starts and the later one does not end before that. */
  lemma OverlapsIfStillRunning(zs: seq<Zone>, i: nat, j: nat)
    requires ByStart(zs) && i < j < |zs|
    ensures Overlaps(zs[i], zs[j]) <==> Met(zs, i, j) && zs[i].start < zs[j].End()
    ensures zs[j].duration >= 0 ==> (Overlaps(zs[i], zs[j]) <==> Met(zs, i, j))
  {
  }

  /** One zone of each list, as positions in the common list of zones. */
  predicate Mixed(a: set<nat>, b: set<nat>, i: nat, j: nat) {
    (i in a && j in b) || (j in a && i in b)
  }

  predicate SamePair(p: (nat, nat), q: (nat, nat)) {
    p == q || p == (q.1, q.0)
  }

  ghost predicate Listed(pairs: seq<(nat, nat)>, i: nat, j: nat) {
    (i, j) in pairs || (j, i) in pairs
  }

  /** Every pair is a zone of `a` with another one of `b` that it meets. */
  ghost predicate Sound(zs: seq<Zone>, a: set<nat>, b: set<nat>, pairs: seq<(nat, nat)>) {
    forall p | p in pairs ::
      p.0 < |zs| && p.1 < |zs| && p.0 != p.1 && p.0 in a && p.1 in b && Met(zs, p.0, p.1)
  }

  ghost predicate Once(pairs: seq<(nat, nat)>) {
    forall k, m | 0 <= k < m < |pairs| :: !SamePair(pairs[k], pairs[m])
  }

  ghost predicate Complete(zs: seq<Zone>, a: set<nat>, b: set<nat>, pairs: seq<(nat, nat)>, n: nat)
    requires n <= |zs|
  {
    forall i, j | 0 <= i < j < n && Mixed(a, b, i, j) && Met(zs, i, j) :: Listed(pairs, i, j)
  }

  /** The zones of `running` that have not ended at `t`, in their order. */
  function StillRunning(zs: seq<Zone>, running: seq<nat>, t: int): (r: seq<nat>)
    requires forall k | 0 <= k < |running| :: running[k] < |zs|
    ensures forall k :: k in r <==> k in running && zs[k].End() > t
  {
    if running == [] then []
    else
      var rest := StillRunning(zs, running[1..], t);
      assert running == [running[0]] + running[1..];
      if zs[running[0]].End() > t then [running[0]] + rest else rest
  }

  ghost predicate Rising(s: seq<nat>) {
    forall i, j | 0 <= i < j < |s| :: s[i] < s[j]
  }

  lemma {:induction false} StillRunningRises(zs: seq<Zone>, running: seq<nat>, t: int)
    requires Rising(running) && forall k | 0 <= k < |running| :: running[k] < |zs|
    ensures Rising(StillRunning(zs, running, t))
    decreases |running|
  {
    if running != [] {
      StillRunningRises(zs, running[1..], t);
      var rest := StillRunning(zs, running[1..], t);
      forall i | 0 <= i < |rest| ensures running[0] < rest[i] {
        assert rest[i] in rest && rest[i] in running[1..];
      }
    }
  }

  /** Before zone `n`, the zones kept are the earlier ones that still run when
      the last of them starts. */
  ghost predicate Kept(zs: seq<Zone>, running: seq<nat>, n: nat)
    requires n <= |zs|
  {
    && (forall k | 0 <= k < |running| :: running[k] < n)
    && Rising(running)
    && (forall r: nat | r < n && r !in running :: zs[r].End() <= zs[n - 1].start)
  }

  /** Filtering keeps exactly the earlier zones that still run when `n` starts. */
  lemma FilteredAreRunning(zs: seq<Zone>, running: seq<nat>, n: nat)
    requires n < |zs| && ByStart(zs) && Kept(zs, running, n)
    ensures var r := StillRunning(zs, running, zs[n].start);
      && (forall k | 0 <= k < |r| :: r[k] < n && zs[r[k]].End() > zs[n].start)
      && Rising(r)
      && (forall q: nat | q < n && q !in r :: zs[q].End() <= zs[n].start)
      && Kept(zs, r + [n], n + 1)
  {
    var r := StillRunning(zs, running, zs[n].start);
    StillRunningRises(zs, running, zs[n].start);
    forall k | 0 <= k < |r| ensures r[k] < n && zs[r[k]].End() > zs[n].start {
      assert r[k] in r;
    }
    forall q: nat | q < n && q !in r ensures zs[q].End() <= zs[n].start {
      assert zs[n - 1].start <= zs[n].start;
    }
  }

  /** The pairs of zone `n` with the first `m` zones still running. */
  ghost predicate Paired(zs: seq<Zone>, a: set<nat>, b: set<nat>, pairs: seq<(nat, nat)>, running: seq<nat>, n: nat, m: nat)
    requires m <= |running|
  {
    && (forall k | 0 <= k < m && Mixed(a, b, running[k], n) :: Listed(pairs, running[k], n))
    && (forall p | p in pairs ::
          p.0 <= n && p.1 <= n && (p.0 == n ==> p.1 in running[..m]) && (p.1 == n ==> p.0 in running[..m]))
  }

  /** No zone of one list ends before the start of an earlier one of the other
      that still runs when it starts. */
  ghost predicate NoneCutShort(zs: seq<Zone>, a: set<nat>, b: set<nat>) {
    forall i, j | 0 <= i < j < |zs| && Mixed(a, b, i, j) && Met(zs, i, j) :: zs[i].start < zs[j].End()
  }

  ghost predicate AllOverlap(zs: seq<Zone>, pairs: seq<(nat, nat)>) {
    forall p | p in pairs :: p.0 < |zs| && p.1 < |zs| && Overlaps(zs[p.0], zs[p.1])
  }

  ghost predicate AllOverlapping(zs: seq<Zone>, a: set<nat>, b: set<nat>, pairs: seq<(nat, nat)>) {
    forall i, j | 0 <= i < j < |zs| && Mixed(a, b, i, j) && Overlaps(zs[i], zs[j]) :: Listed(pairs, i, j)
  }

  /** One pass over the zones in start order, keeping those still running. `a`
      and `b` are the positions of the zones of the two lists. For any zones it
      returns the pairs that meet, each once, and these include all that overlap;
      they are the ones that overlap if and only if no zone is cut short, which
      is always so when no duration is negative. */
  method Overlapping(zs: seq<Zone>, a: set<nat>, b: set<nat>) returns (pairs: seq<(nat, nat)>)
    requires ByStart(zs)
    ensures Sound(zs, a, b, pairs) && Once(pairs) && Complete(zs, a, b, pairs, |zs|)
    ensures AllOverlapping(zs, a, b, pairs)
    ensures AllOverlap(zs, pairs) <==> NoneCutShort(zs, a, b)
    ensures NonNegative(zs) ==> AllOverlap(zs, pairs)
  {
    pairs := [];
    var running: seq<nat> := [];
    assert Kept(zs, [], 0) && Swept(zs, a, b, [], 0);
    hide ByStart, Rising, Mixed, Listed, Met, Overlaps, NonNegative, AllOverlap, AllOverlapping, NoneCutShort;
    for n := 0 to |zs|
      invariant Kept(zs, running, n) && Swept(zs, a, b, pairs, n)
    {
      FilteredAreRunning(zs, running, n);
      ghost var before := pairs;
      running := StillRunning(zs, running, zs[n].start);
      pairs := PairUp(zs, a, b, pairs, running, n);
      SweptOneMore(zs, a, b, before, pairs, running, n);
      running := running + [n];
    }
    MetIsOverlapping(zs, a, b, pairs);
  }

  /** The pairs among the first `n` zones have been found. */
  ghost predicate Swept(zs: seq<Zone>, a: set<nat>, b: set<nat>, pairs: seq<(nat, nat)>, n: nat)
    requires n <= |zs|
  {
    && Sound(zs, a, b, pairs) && Once(pairs) && Complete(zs, a, b, pairs, n)
    && forall p | p in pairs :: p.0 < n && p.1 < n
  }

  lemma SweptOneMore(zs: seq<Zone>, a: set<nat>, b: set<nat>, before: seq<(nat, nat)>, pairs: seq<(nat, nat)>,
                     running: seq<nat>, n: nat)
    requires n < |zs| && before <= pairs && Swept(zs, a, b, before, n)
    requires Sound(zs, a, b, pairs) && Once(pairs) && Paired(zs, a, b, pairs, running, n, |running|)
    requires forall q: nat | q < n && q !in running :: zs[q].End() <= zs[n].start
    ensures Swept(zs, a, b, pairs, n + 1)
  {
    hide Sound, Once, Mixed;
    forall i, j | 0 <= i < j < n + 1 && Mixed(a, b, i, j) && Met(zs, i, j) ensures Listed(pairs, i, j) {
      if j < n {
        assert Listed(before, i, j);
      } else {
        var k :| 0 <= k < |running| && running[k] == i;
      }
    }
  }

  lemma MetIsOverlapping(zs: seq<Zone>, a: set<nat>, b: set<nat>, pairs: seq<(nat, nat)>)
    requires ByStart(zs) && Sound(zs, a, b, pairs) && Complete(zs, a, b, pairs, |zs|)
    ensures AllOverlapping(zs, a, b, pairs)
    ensures AllOverlap(zs, pairs) <==> NoneCutShort(zs, a, b)
    ensures NonNegative(zs) ==> AllOverlap(zs, pairs)
  {
    hide ByStart, Met, Overlaps;
    forall i: nat, j: nat | i < j < |zs|
      ensures Overlaps(zs[i], zs[j]) <==> Met(zs, i, j) && zs[i].start < zs[j].End()
      ensures Overlaps(zs[j], zs[i]) <==> Overlaps(zs[i], zs[j])
      ensures Met(zs, j, i) <==> Met(zs, i, j)
      ensures zs[j].duration >= 0 ==> (Overlaps(zs[i], zs[j]) <==> Met(zs, i, j))
    {
      OverlapsIfStillRunning(zs, i, j);
      BothWays(zs, i, j);
    }
    if AllOverlap(zs, pairs) {
      forall i, j | 0 <= i < j < |zs| && Mixed(a, b, i, j) && Met(zs, i, j) ensures zs[i].start < zs[j].End() {
        assert Listed(pairs, i, j);
      }
    }
  }

  const CUT_SHORT: seq<Zone> := [Zone(0, 10), Zone(5, -10)]

  /** Whatever the pass returns, it lists a zone that ended before the other
      began. */
  lemma CutShortIsListed(pairs: seq<(nat, nat)>)
    requires Sound(CUT_SHORT, {0}, {1}, pairs) && Complete(CUT_SHORT, {0}, {1}, pairs, 2)
    ensures ByStart(CUT_SHORT) && (0, 1) in pairs && !Overlaps(CUT_SHORT[0], CUT_SHORT[1])
    ensures !NoneCutShort(CUT_SHORT, {0}, {1})
  {
    assert Mixed({0}, {1}, 0, 1) && Met(CUT_SHORT, 0, 1);
    assert Listed(pairs, 0, 1);
  }

  lemma BothWays(zs: seq<Zone>, i: nat, j: nat)
    requires i < |zs| && j < |zs|
    ensures Overlaps(zs[j], zs[i]) <==> Overlaps(zs[i], zs[j])
    ensures i != j ==> (Met(zs, j, i) <==> Met(zs, i, j))
  {
  }

  method PairUp(zs: seq<Zone>, a: set<nat>, b: set<nat>, before: seq<(nat, nat)>, running: seq<nat>, n: nat)
    returns (pairs: seq<(nat, nat)>)
    requires n < |zs| && Rising(running)
    requires forall k | 0 <= k < |running| :: running[k] < n && zs[running[k]].End() > zs[n].start
    requires Sound(zs, a, b, before) && Once(before) && forall p | p in before :: p.0 < n && p.1 < n
    ensures Sound(zs, a, b, pairs) && Once(pairs) && before <= pairs
    ensures Paired(zs, a, b, pairs, running, n, |running|)
  {
    pairs := before;
    for m := 0 to |running|
      invariant Sound(zs, a, b, pairs) && Once(pairs) && before <= pairs
      invariant Paired(zs, a, b, pairs, running, n, m)
    {
      var r := running[m];
      assert running[..m + 1] == running[..m] + [r];
      if r in a && n in b {
        pairs := pairs + [(r, n)];
      } else if n in a && r in b {
        pairs := pairs + [(n, r)];
      }
    }
  }
}
