/** Byte-addressed buffers and the units of work that act on them.

    A location is a byte of an RPC allocation, named by the allocation's file
    descriptor and an offset. A `Work` is the smallest step another thread can
    be interleaved with: one workgroup of a dispatch, or one byte of a copy or a
    fill. Kernels are foreign code, so a work carries an arbitrary function; the
    contract that it sees and changes only its footprint is built into `Apply`. */
module Memory {

  type Byte = b: int | 0 <= b < 256

  datatype Loc = Loc(fd: int, at: nat)

  type Mem = map<Loc, Byte>

  /** What a work computed: whether it succeeded, and the bytes it stored
      (also when it failed: it may have stored some before). */
  datatype Outcome = Outcome(ok: bool, out: Mem)

  datatype Work = Work(loads: set<Loc>, stores: set<Loc>, run: Mem -> Outcome)

  datatype Result = Result(mem: Mem, ok: bool)

  function View(m: Mem, s: set<Loc>): Mem {
    map l | l in s && l in m :: m[l]
  }

  /** The bytes `w` stores when run on `m`. */
  function Effect(w: Work, m: Mem): Mem {
    View(w.run(View(m, w.loads)).out, w.stores)
  }

  function Apply(w: Work, m: Mem): Mem {
    m + Effect(w, m)
  }

  predicate Succeeds(w: Work, m: Mem) {
    w.run(View(m, w.loads)).ok
  }

  /** Non-conflicting footprints: neither writes what the other touches. */
  ghost predicate Independent(a: Work, b: Work) {
    && a.stores !! b.loads + b.stores
    && b.stores !! a.loads
  }

  lemma ApplyOutsideView(w: Work, m: Mem, s: set<Loc>)
    requires w.stores !! s
    ensures View(Apply(w, m), s) == View(m, s)
  {
  }

  lemma ApplyCommutes(a: Work, b: Work, m: Mem)
    requires Independent(a, b)
    ensures Apply(a, Apply(b, m)) == Apply(b, Apply(a, m))
    ensures Succeeds(a, Apply(b, m)) == Succeeds(a, m)
    ensures Succeeds(b, Apply(a, m)) == Succeeds(b, m)
  {
    ApplyOutsideView(b, m, a.loads);
    ApplyOutsideView(a, m, b.loads);
    assert m + Effect(b, m) + Effect(a, m) == m + Effect(a, m) + Effect(b, m);
  }

  /** Runs works in order, stopping after the first that fails. */
  function RunWorks(ws: seq<Work>, m: Mem): Result {
    if ws == [] then
      Result(m, true)
    else if !Succeeds(ws[0], m) then
      Result(Apply(ws[0], m), false)
    else
      RunWorks(ws[1..], Apply(ws[0], m))
  }

  ghost predicate IndependentSeqs(a: seq<Work>, b: seq<Work>) {
    forall x, y | x in a && y in b :: Independent(x, y)
  }

  lemma {:induction false} WorkCommutesWithWorks(a: Work, bs: seq<Work>, m: Mem)
    requires forall b | b in bs :: Independent(a, b)
    ensures RunWorks(bs, Apply(a, m)).mem == Apply(a, RunWorks(bs, m).mem)
    ensures RunWorks(bs, Apply(a, m)).ok == RunWorks(bs, m).ok
    ensures Succeeds(a, RunWorks(bs, m).mem) == Succeeds(a, m)
    decreases |bs|
  {
    if bs != [] {
      ApplyCommutes(a, bs[0], m);
      WorkCommutesWithWorks(a, bs[1..], Apply(bs[0], m));
    }
  }

  lemma {:induction false} WorksCommute(a: seq<Work>, b: seq<Work>, m: Mem)
    requires IndependentSeqs(a, b)
    ensures RunWorks(a, RunWorks(b, m).mem).mem == RunWorks(b, RunWorks(a, m).mem).mem
    ensures RunWorks(a, RunWorks(b, m).mem).ok == RunWorks(a, m).ok
    ensures RunWorks(b, RunWorks(a, m).mem).ok == RunWorks(b, m).ok
    decreases |a|
  {
    if a != [] {
      assert forall y | y in b :: Independent(a[0], y);
      WorkCommutesWithWorks(a[0], b, m);
      WorksCommute(a[1..], b, Apply(a[0], m));
    }
  }

  /** Completes every queue of pending works, one queue after the other. Each
      queue stops at its own first failure; the others still run. */
  function Flush(q: seq<seq<Work>>, m: Mem): Result {
    if q == [] then
      Result(m, true)
    else
      var first := RunWorks(q[0], m);
      var rest := Flush(q[1..], first.mem);
      Result(rest.mem, first.ok && rest.ok)
  }

  ghost predicate PairwiseIndependent(q: seq<seq<Work>>) {
    forall i, j | 0 <= i < j < |q| :: IndependentSeqs(q[i], q[j])
  }

  lemma IndependentSymmetric(a: seq<Work>, b: seq<Work>)
    requires IndependentSeqs(a, b)
    ensures IndependentSeqs(b, a)
  {
    forall x, y | x in b && y in a ensures Independent(x, y) {
      assert Independent(y, x);
    }
  }

  /** Works independent of every queue may run before or after completing the
      queues. */
  lemma {:induction false} FlushCommutes(q: seq<seq<Work>>, ws: seq<Work>, m: Mem)
    requires forall i | 0 <= i < |q| :: IndependentSeqs(ws, q[i])
    ensures RunWorks(ws, Flush(q, m).mem).mem == Flush(q, RunWorks(ws, m).mem).mem
    ensures RunWorks(ws, Flush(q, m).mem).ok == RunWorks(ws, m).ok
    ensures Flush(q, RunWorks(ws, m).mem).ok == Flush(q, m).ok
    decreases |q|
  {
    if q != [] {
      WorksCommute(ws, q[0], m);
      forall i | 0 <= i < |q[1..]| ensures IndependentSeqs(ws, q[1..][i]) {
        assert q[1..][i] == q[i + 1];
      }
      FlushCommutes(q[1..], ws, RunWorks(q[0], m).mem);
    }
  }

  /** Any one queue may be completed first. */
  lemma {:induction false} FlushPullsFront(q: seq<seq<Work>>, i: nat, m: Mem)
    requires i < |q| && PairwiseIndependent(q)
    ensures Flush(q, m).mem == Flush(q[i := []], RunWorks(q[i], m).mem).mem
    ensures Flush(q, m).ok == (RunWorks(q[i], m).ok && Flush(q[i := []], RunWorks(q[i], m).mem).ok)
    decreases |q|
  {
    var m1 := RunWorks(q[i], m).mem;
    if i == 0 {
      assert q[0 := []][1..] == q[1..];
    } else {
      assert IndependentSeqs(q[0], q[i]);
      WorksCommute(q[0], q[i], m);
      forall a, b | 0 <= a < b < |q[1..]| ensures IndependentSeqs(q[1..][a], q[1..][b]) {
        assert q[1..][a] == q[a + 1] && q[1..][b] == q[b + 1];
      }
      FlushPullsFront(q[1..], i - 1, RunWorks(q[0], m).mem);
      assert q[i := []][1..] == q[1..][i - 1 := []];
    }
  }

  /** A work that succeeds at the head of some queue moves the memory forward
      without changing what completing all queues leads to; one that fails was
      going to fail anyway. */
  lemma FlushAbsorbsStep(q: seq<seq<Work>>, i: nat, m: Mem)
    requires i < |q| && q[i] != [] && PairwiseIndependent(q)
    ensures Succeeds(q[i][0], m) ==> Flush(q[i := q[i][1..]], Apply(q[i][0], m)) == Flush(q, m)
    ensures !Succeeds(q[i][0], m) ==> !Flush(q, m).ok
  {
    FlushPullsFront(q, i, m);
    if Succeeds(q[i][0], m) {
      var q' := q[i := q[i][1..]];
      forall a, b | 0 <= a < b < |q'| ensures IndependentSeqs(q'[a], q'[b]) {
        assert IndependentSeqs(q[a], q[b]);
      }
      FlushPullsFront(q', i, Apply(q[i][0], m));
      assert q'[i := []] == q[i := []];
    }
  }

  /** Adding a queue in an empty slot amounts to running it after the others. */
  lemma FlushAbsorbsSubmit(q: seq<seq<Work>>, i: nat, ws: seq<Work>, m: Mem)
    requires i < |q| && q[i] == [] && PairwiseIndependent(q)
    requires forall k | 0 <= k < |q| :: IndependentSeqs(ws, q[k])
    ensures Flush(q[i := ws], m).mem == RunWorks(ws, Flush(q, m).mem).mem
    ensures Flush(q[i := ws], m).ok == (Flush(q, m).ok && RunWorks(ws, Flush(q, m).mem).ok)
    ensures PairwiseIndependent(q[i := ws])
  {
    var q' := q[i := ws];
    forall a, b | 0 <= a < b < |q'| ensures IndependentSeqs(q'[a], q'[b]) {
      if a == i {
        assert IndependentSeqs(ws, q[b]);
      } else if b == i {
        assert IndependentSeqs(ws, q[a]);
        IndependentSymmetric(ws, q[a]);
      } else {
        assert IndependentSeqs(q[a], q[b]);
      }
    }
    FlushPullsFront(q', i, m);
    assert q'[i := []] == q;
    FlushCommutes(q, ws, m);
  }

  /** With every queue empty there is nothing left to complete. */
  lemma {:induction false} FlushOfNothing(q: seq<seq<Work>>, m: Mem)
    requires forall i | 0 <= i < |q| :: q[i] == []
    ensures Flush(q, m) == Result(m, true)
    decreases |q|
  {
    if q != [] {
      FlushOfNothing(q[1..], m);
    }
  }
}
