/** Ending a process tree: the kills of the middle process against a payload
    that becomes a group leader, forks and exits at any moment in between. */
module KillSequence {
  import opened Status

  datatype Process = Process(group: nat, running: bool)

  /** The payload and its descendants, with exited ones not yet reaped. The
      payload starts in the group of the middle process. */
  datatype Tree = Tree(payload: nat, middle: nat, processes: map<nat, Process>)

  datatype Event =
    | BecomesLeader
    | Forks(parent: nat, child: nat)
    | Exits(pid: nat)
    | Reaped(pid: nat)
    | Leaves(pid: nat, group: nat)

  function Forked(payload: nat, middle: nat): Tree {
    Tree(payload, middle, map[payload := Process(middle, true)])
  }

  predicate Runs(t: Tree, pid: nat) {
    pid in t.processes && t.processes[pid].running
  }

  /** The payload only forks once it leads its own group; process numbers are
      not handed out twice. */
  predicate Enabled(t: Tree, e: Event) {
    match e
    case BecomesLeader => Runs(t, t.payload) && t.processes[t.payload].group == t.middle
    case Forks(p, c) => Runs(t, p) && t.processes[p].group != t.middle && c !in t.processes && c != t.payload
    case Exits(p) => Runs(t, p)
    case Reaped(p) => p in t.processes && !t.processes[p].running
    case Leaves(p, g) => Runs(t, p) && t.processes[p].group != t.middle && g != t.payload && g != t.middle
  }

  function Next(t: Tree, e: Event): Tree
    requires Enabled(t, e)
  {
    match e
    case BecomesLeader => t.(processes := t.processes[t.payload := Process(t.payload, true)])
    case Forks(p, c) => t.(processes := t.processes[c := t.processes[p]])
    case Exits(p) => t.(processes := t.processes[p := t.processes[p].(running := false)])
    case Reaped(p) => t.(processes := t.processes - {p})
    case Leaves(p, g) => t.(processes := t.processes[p := Process(g, true)])
  }

  predicate Possible(t: Tree, es: seq<Event>)
    decreases |es|
  {
    es == [] || (Enabled(t, es[0]) && Possible(Next(t, es[0]), es[1..]))
  }

  function After(t: Tree, es: seq<Event>): Tree
    requires Possible(t, es)
    decreases |es|
  {
    if es == [] then t else After(Next(t, es[0]), es[1..])
  }

  ghost predicate NobodyLeaves(es: seq<Event>) {
    forall i | 0 <= i < |es| :: !es[i].Leaves?
  }

  // ----- kills -----

  ghost predicate GroupExists(t: Tree) {
    exists p :: p in t.processes && t.processes[p].group == t.payload
  }

  /** SIGKILL to the group of the payload. */
  function KillGroup(t: Tree): Tree {
    t.(processes := map p | p in t.processes ::
      if t.processes[p].group == t.payload then t.processes[p].(running := false) else t.processes[p])
  }

  /** SIGKILL to the payload alone. */
  function KillPayload(t: Tree): Tree {
    if t.payload in t.processes then
      t.(processes := t.processes[t.payload := t.processes[t.payload].(running := false)])
    else t
  }

  /** The tree when the middle process returns: one kill if the group exists,
      else three, with `first` and `second` happening in between. */
  ghost function Killed(t: Tree, first: seq<Event>, second: seq<Event>): Tree
    requires !GroupExists(t) ==> Possible(t, first) && Possible(KillPayload(After(t, first)), second)
  {
    if GroupExists(t) then KillGroup(t) else KillGroup(After(KillPayload(After(t, first)), second))
  }

  // ----- what holds at every moment -----

  /** Everything but a payload that is not yet a leader is in the group of the
      payload; as long as the payload is not a leader it is alone. */
  ghost predicate Together(t: Tree) {
    && t.payload != t.middle
    && (forall p | p in t.processes ::
          t.processes[p].group == t.payload || (p == t.payload && t.processes[p].group == t.middle))
    && (GroupExists(t) && t.payload in t.processes ==> t.processes[t.payload].group == t.payload)
  }

  ghost predicate NobodyRuns(t: Tree) {
    forall p :: !Runs(t, p)
  }

  lemma StepKeepsTogether(t: Tree, e: Event)
    requires Together(t) && Enabled(t, e) && !e.Leaves?
    ensures Together(Next(t, e))
    ensures Next(t, e).payload == t.payload && Next(t, e).middle == t.middle
    ensures !Runs(t, t.payload) ==> !Runs(Next(t, e), t.payload)
  {
  }

  lemma {:induction false} RunKeepsTogether(t: Tree, es: seq<Event>)
    requires Together(t) && Possible(t, es) && NobodyLeaves(es)
    ensures Together(After(t, es)) && After(t, es).payload == t.payload && After(t, es).middle == t.middle
    ensures !Runs(t, t.payload) ==> !Runs(After(t, es), t.payload)
    decreases |es|
  {
    if es != [] {
      StepKeepsTogether(t, es[0]);
      assert forall i | 0 <= i < |es| - 1 :: es[1..][i] == es[i + 1];
      hide Together, Next, Enabled, Runs;
      RunKeepsTogether(Next(t, es[0]), es[1..]);
    }
  }

  predicate RunsOutside(t: Tree, p: nat) {
    Runs(t, p) && t.processes[p].group != t.payload
  }

  /** After a kill of the group exactly those run that ran outside of it. */
  lemma GroupKillSpares(t: Tree, p: nat)
    ensures Runs(KillGroup(t), p) <==> RunsOutside(t, p)
  {
  }

  /** The tree as the last kill of the group finds it. */
  ghost function Found(t: Tree, first: seq<Event>, second: seq<Event>): Tree
    requires !GroupExists(t) ==> Possible(t, first) && Possible(KillPayload(After(t, first)), second)
  {
    if GroupExists(t) then t else After(KillPayload(After(t, first)), second)
  }

  /** Who runs when the middle process returns: exactly those that run outside
      the group when it is killed last. */
  lemma SurvivorsAreOutside(t: Tree, first: seq<Event>, second: seq<Event>, p: nat)
    requires !GroupExists(t) ==> Possible(t, first) && Possible(KillPayload(After(t, first)), second)
    ensures Runs(Killed(t, first, second), p) <==> RunsOutside(Found(t, first, second), p)
  {
    GroupKillSpares(Found(t, first, second), p);
  }

  ghost predicate NobodyOutside(t: Tree) {
    forall p :: !RunsOutside(t, p)
  }

  /** The kills leave nobody if and only if nobody runs outside the group. */
  lemma NobodyRunsIffNobodyOutside(t: Tree, first: seq<Event>, second: seq<Event>)
    requires !GroupExists(t) ==> Possible(t, first) && Possible(KillPayload(After(t, first)), second)
    ensures NobodyRuns(Killed(t, first, second)) <==> NobodyOutside(Found(t, first, second))
  {
    hide Killed, Found, Runs, RunsOutside;
    forall p: nat ensures Runs(Killed(t, first, second), p) <==> RunsOutside(Found(t, first, second), p) {
      SurvivorsAreOutside(t, first, second, p);
    }
  }

  lemma TogetherIsInside(t: Tree)
    requires Together(t) && (GroupExists(t) || !Runs(t, t.payload))
    ensures NobodyOutside(t)
  {
  }

  lemma PayloadKillKeepsTogether(t: Tree)
    requires Together(t)
    ensures Together(KillPayload(t)) && !Runs(KillPayload(t), t.payload)
  {
  }

  lemma AllInside(t: Tree, first: seq<Event>, second: seq<Event>)
    requires Together(t) && NobodyLeaves(first) && NobodyLeaves(second)
    requires !GroupExists(t) ==> Possible(t, first) && Possible(KillPayload(After(t, first)), second)
    ensures NobodyOutside(Found(t, first, second))
  {
    if !GroupExists(t) {
      RunKeepsTogether(t, first);
      PayloadKillKeepsTogether(After(t, first));
      RunKeepsTogether(KillPayload(After(t, first)), second);
    }
    TogetherIsInside(Found(t, first, second));
  }

  /** Whatever the payload and its descendants do before and between the kills,
      nobody runs when the middle process returns, unless somebody left the
      group. */
  lemma NobodySurvives(payload: nat, middle: nat, before: seq<Event>, first: seq<Event>, second: seq<Event>)
    requires payload != middle && Possible(Forked(payload, middle), before)
    requires NobodyLeaves(before) && NobodyLeaves(first) && NobodyLeaves(second)
    requires var t := After(Forked(payload, middle), before);
      !GroupExists(t) ==> Possible(t, first) && Possible(KillPayload(After(t, first)), second)
    ensures NobodyRuns(Killed(After(Forked(payload, middle), before), first, second))
  {
    assert Together(Forked(payload, middle));
    RunKeepsTogether(Forked(payload, middle), before);
    AllInside(After(Forked(payload, middle), before), first, second);
    NobodyRunsIffNobodyOutside(After(Forked(payload, middle), before), first, second);
  }

  /** And nobody comes back: without a running process nothing can happen but
      reaping. */
  lemma {:induction false} NobodyComesBack(t: Tree, es: seq<Event>)
    requires NobodyRuns(t) && Possible(t, es)
    ensures NobodyRuns(After(t, es))
    decreases |es|
  {
    if es != [] {
      forall p ensures !Runs(Next(t, es[0]), p) {
        assert !Runs(t, p);
        assert es[0].BecomesLeader? ==> !Runs(t, t.payload);
      }
      NobodyComesBack(Next(t, es[0]), es[1..]);
    }
  }

  // ----- each kill is needed -----

  /** Between the first and the second kill the payload can become a leader and
      fork; its child survives the first two kills. */
  lemma TwoKillsAreNotEnough(payload: nat, middle: nat, child: nat)
    requires payload != middle && child != payload
    ensures var t := Forked(payload, middle);
      var first := [BecomesLeader, Forks(payload, child)];
      && !GroupExists(t) && Possible(t, first) && NobodyLeaves(first)
      && Runs(KillPayload(After(t, first)), child)
  {
    var t := Forked(payload, middle);
    var first := [BecomesLeader, Forks(payload, child)];
    assert first[1..] == [Forks(payload, child)];
    assert first[1..][1..] == [];
    var t1 := Next(t, BecomesLeader);
    assert After(t, first) == After(t1, first[1..]) == Next(t1, Forks(payload, child));
  }

  /** A descendant that leaves the group survives. */
  lemma LeavingEscapes(payload: nat, middle: nat, child: nat)
    requires payload != middle && child != payload && child != middle
    ensures var before := [BecomesLeader, Forks(payload, child), Leaves(child, child)];
      && Possible(Forked(payload, middle), before)
      && GroupExists(After(Forked(payload, middle), before))
      && Runs(Killed(After(Forked(payload, middle), before), [], []), child)
  {
    var before := [BecomesLeader, Forks(payload, child), Leaves(child, child)];
    var t1 := Next(Forked(payload, middle), BecomesLeader);
    var t2 := Next(t1, Forks(payload, child));
    var t3 := Next(t2, Leaves(child, child));
    assert before[1..] == [Forks(payload, child), Leaves(child, child)];
    assert before[1..][1..] == [Leaves(child, child)];
    assert before[1..][1..][1..] == [];
    assert After(t2, before[1..][1..]) == t3;
    assert After(t1, before[1..]) == t3;
    assert t3.processes[payload].group == payload;
  }

  // ----- the middle process -----

  /** What one round of polling finds. */
  datatype Poll = ParentChanged | Interrupted | WaitFailed | StillThere | Exited(code: nat) | Signalled(signal: nat) | Odd

  function ExitCode(p: Poll): Option<nat> {
    match p
    case ParentChanged => Some(128 + 9)
    case WaitFailed => Some(1)
    case Exited(code) => Some(code)
    case Signalled(s) => Some(128 + s)
    case Odd => Some(1)
    case Interrupted => None
    case StillThere => None
  }

  /** Polls until the parent changes or the child is gone; `rounds` bounds how
      long that takes. The code is that of the first round that ends it. */
  method WaitAndMonitor(poll: nat -> Poll, ghost rounds: nat) returns (code: nat)
    requires ExitCode(poll(rounds)).Some?
    ensures exists n :: 0 <= n <= rounds && ExitCode(poll(n)) == Some(code) && forall k | 0 <= k < n :: ExitCode(poll(k)).None?
  {
    var n := 0;
    while ExitCode(poll(n)).None?
      invariant n <= rounds && forall k | 0 <= k < n :: ExitCode(poll(k)).None?
      decreases rounds - n
    {
      n := n + 1;
    }
    return ExitCode(poll(n)).value;
  }

  class System {
    var tree: Tree

    constructor (payload: nat, middle: nat)
      ensures tree == Forked(payload, middle)
    {
      tree := Forked(payload, middle);
    }

    /** The payload and its descendants go on for a while. */
    method Elapse(es: seq<Event>)
      requires Possible(tree, es)
      modifies this
      ensures tree == After(old(tree), es)
    {
      ghost var start := tree;
      for i := 0 to |es|
        invariant Possible(tree, es[i..]) && After(tree, es[i..]) == After(start, es)
      {
        assert es[i..][0] == es[i] && es[i..][1..] == es[i + 1..];
        tree := Next(tree, es[i]);
      }
      assert es[|es|..] == [];
    }

    /** Kills the group of the payload, if there is one. */
    method KillTheGroup() returns (found: bool)
      modifies this
      ensures found == GroupExists(old(tree)) && tree == KillGroup(old(tree))
    {
      found := exists p | p in tree.processes :: tree.processes[p].group == tree.payload;
      tree := KillGroup(tree);
    }

    method KillThePayload()
      modifies this
      ensures tree == KillPayload(old(tree))
    {
      tree := KillPayload(tree);
    }

    /** The kills at the end of the middle process; `first` and `second` are
        what happens meanwhile if the group was not found. */
    method KillAll(first: seq<Event>, second: seq<Event>)
      requires Together(tree) && NobodyLeaves(first) && NobodyLeaves(second)
      requires !GroupExists(tree) ==> Possible(tree, first) && Possible(KillPayload(After(tree, first)), second)
      modifies this
      ensures tree == Killed(old(tree), first, second) && NobodyRuns(tree)
    {
      ghost var t := tree;
      AllInside(t, first, second);
      NobodyRunsIffNobodyOutside(t, first, second);
      var found := KillTheGroup();
      if found {
        return;
      }
      GroupKillMisses(t);
      Elapse(first);
      KillThePayload();
      Elapse(second);
      found := KillTheGroup();
    }
  }

  lemma GroupKillMisses(t: Tree)
    requires !GroupExists(t)
    ensures KillGroup(t) == t
  {
  }
}
