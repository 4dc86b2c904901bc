/** What the workflow engine promises: atomicity, recovery at every step boundary, and a
    trace that tells the story by itself. */
module WorkflowLaws {
  import opened WorkflowSpec
  import opened WorkflowEngine

  // -------------------------------------------------------------------- atomicity

  /** Along the run from w, each of the first k undos that succeeds takes any world that
      looks like the one after its step to one that looks like the one before it. For a
      step without undo this says that the step has no visible effect. */
  ghost predicate Reversible<W(!new)>(steps: seq<Step<W>>, w: W, k: nat, same: (W, W) -> bool)
    requires k <= |steps|
  {
    forall j: nat, u {:trigger steps[j].undo.Call(u)} :: j < k && same(u, After(steps, w, j + 1)) ==>
      var (v, rv) := steps[j].undo.Call(u); rv == 0 ==> same(v, After(steps, w, j))
  }

  /** Undoing steps k-1 .. j brings back the world before step j. */
  lemma {:induction false} UnwindRestores<W(!new)>(
      steps: seq<Step<W>>, w: W, u: W, k: nat, j: nat, same: (W, W) -> bool)
    requires j <= k <= |steps|
    requires Reversible(steps, w, k, same) && same(u, After(steps, w, k))
    requires !UndoFails(steps, u, k, j)
    ensures same(Unwound(steps, u, k, j), After(steps, w, j))
    decreases k - j
  {
    if j < k {
      assert UndoCode(steps, u, k, j) == 0;
      UnwindRestores(steps, w, u, k, j + 1, same);
    }
  }

  /** The workflow commits with every step's effect, or rolls back to a world that looks
      like the one it began in, or is FAILED because an undo returned non-zero. */
  lemma RunIsAtomic<W(!new)>(steps: seq<Step<W>>, w: W, same: (W, W) -> bool)
    requires var f := FirstFailure(steps, w);
             && Reversible(steps, w, f, same)
             && (f < |steps| ==> same(After(steps, w, f + 1), After(steps, w, f)))
    ensures match RunStatus(steps, w)
            case Committed => RunWorld(steps, w) == After(steps, w, |steps|)
                              && forall i :: 0 <= i < |steps| ==> RunCode(steps, w, i) == 0
            case RolledBack => same(RunWorld(steps, w), w)
            case Failed => FirstFailure(steps, w) < |steps|
                           && UndoFails(steps, After(steps, w, FirstFailure(steps, w) + 1), FirstFailure(steps, w), 0)
            case _ => false
  {
    var f := FirstFailure(steps, w);
    if f < |steps| && RunStatus(steps, w).RolledBack? {
      UnwindRestores(steps, w, After(steps, w, f + 1), f, 0, same);
    }
  }

  /** The contract asked of step authors: a failing run and a step without undo change
      nothing, and a successful undo of a successful run is its inverse. */
  ghost predicate Compensated<W(!new)>(steps: seq<Step<W>>) {
    forall i: nat, w {:trigger steps[i].run.Call(w)} :: i < |steps| ==>
      var (v, rv) := steps[i].run.Call(w);
      && (rv != 0 ==> v == w)
      && (rv == 0 && steps[i].undo.Null? ==> v == w)
      && (rv == 0 && steps[i].undo.Call(v).1 == 0 ==> steps[i].undo.Call(v).0 == w)
  }

  /** With compensated steps, from every world: all the effects or none of them. */
  lemma AllOrNothing<W(!new)>(steps: seq<Step<W>>, w: W)
    requires Compensated(steps)
    ensures RunStatus(steps, w).Committed? ==> RunWorld(steps, w) == After(steps, w, |steps|)
    ensures RunStatus(steps, w).RolledBack? ==> RunWorld(steps, w) == w
    ensures RunStatus(steps, w) in {Committed, RolledBack, Failed}
  {
    var f := FirstFailure(steps, w);
    var same := (u: W, v: W) => u == v;
    forall j: nat, u | j < f && same(u, After(steps, w, j + 1))
      ensures var (v, rv) := steps[j].undo.Call(u); rv == 0 ==> same(v, After(steps, w, j))
    {
      assert RunCode(steps, w, j) == 0;
      var _ := steps[j].run.Call(After(steps, w, j));
    }
    if f < |steps| { var _ := steps[f].run.Call(After(steps, w, f)); }
    RunIsAtomic(steps, w, same);
  }

  // ----------------------------------------------------------------- the undo chain

  /** The indices of a stretch of trace. */
  function Indices<W>(t: seq<Entry<W>>): seq<nat> {
    seq(|t|, p requires 0 <= p < |t| => t[p].ev.index)
  }

  /** The steps k-1, .., j that have an undo. */
  function Undoable<W>(steps: seq<Step<W>>, k: nat, j: nat): seq<nat>
    requires j <= k <= |steps|
    decreases k - j
  {
    if j == k then [] else Undoable(steps, k, j + 1) + (if steps[j].undo.Null? then [] else [j])
  }

  /** The undos that are called are those of the completed steps that have one ... */
  lemma {:induction false} UndosFollowSteps<W>(id: nat, steps: seq<Step<W>>, u: W, k: nat, j: nat)
    requires j <= k <= |steps|
    ensures Indices(UndoTrace(id, steps, u, k, j)) == Undoable(steps, k, j)
    decreases k - j
  {
    if j < k {
      UndosFollowSteps(id, steps, u, k, j + 1);
      var s, t := UndoTrace(id, steps, u, k, j + 1), UndoTrace(id, steps, u, k, j);
      assert steps[j].undo.Null? ==> t == s;
      assert !steps[j].undo.Null? ==> Indices(t) == Indices(s) + [j];
    }
  }

  /** ... each exactly once, in strictly falling order. */
  lemma {:induction false} UndoneOnceInReverse<W>(steps: seq<Step<W>>, k: nat, j: nat)
    requires j <= k <= |steps|
    ensures var t := Undoable(steps, k, j);
            && (forall p :: 0 <= p < |t| ==> j <= t[p] < k && !steps[t[p]].undo.Null?)
            && (forall p, q :: 0 <= p < q < |t| ==> t[p] > t[q])
            && (forall i :: j <= i < k && !steps[i].undo.Null? ==> i in t)
    decreases k - j
  {
    if j < k { UndoneOnceInReverse(steps, k, j + 1); }
  }

  /** An unwind fails exactly when some undo it calls returns non-zero. */
  lemma {:induction false} UndoFailsIff<W>(steps: seq<Step<W>>, u: W, k: nat, j: nat)
    requires j <= k <= |steps|
    ensures UndoFails(steps, u, k, j) <==>
            exists i :: j <= i < k && !steps[i].undo.Null? && UndoCode(steps, u, k, i) != 0
    decreases k - j
  {
    if j < k {
      UndoFailsIff(steps, u, k, j + 1);
      if UndoCode(steps, u, k, j) != 0 { assert !steps[j].undo.Null?; }
    }
  }

  /** An undo's record carries the code it returned, and says OK exactly if that is 0. */
  lemma {:induction false} UndoRecordsTell<W>(id: nat, steps: seq<Step<W>>, u: W, k: nat, j: nat, q: nat)
    requires j <= k <= |steps| && q < |UndoTrace(id, steps, u, k, j)|
    ensures var e := UndoTrace(id, steps, u, k, j)[q];
            && e.id == id && e.ev.index < k && e.ev.done == k && e.ev.status == RollingBack
            && e.ev.rv == UndoCode(steps, u, k, e.ev.index)
            && e.ev.kind == if e.ev.rv == 0 then UndoOk else UndoFail
    decreases k - j
  {
    if q < |UndoTrace(id, steps, u, k, j + 1)| { UndoRecordsTell(id, steps, u, k, j + 1, q); }
  }

  /** A run's records up to its completed steps: an intent before each step and an OK behind it,
      all with the run's id, while it is RUNNING. */
  lemma ForwardRecordsTell<W>(id: nat, steps: seq<Step<W>>, w: W, p: nat)
    requires p < 2 * FirstFailure(steps, w) + 1
    ensures var e := ForwardEntry(id, steps, w, p);
            && e.id == id && e.ev.status == Running && e.ev.rv == 0
            && (p == 0 ==> e.ev.kind == Begin && e.ev.index == |steps| && e.ev.done == 0 && e.world == w)
            && (p > 0 && p % 2 == 1 ==> e.ev.kind == Begin && e.ev.index == p / 2 && e.ev.done == p / 2)
            && (p > 0 && p % 2 == 0 ==> e.ev.kind == StepOk && e.ev.index == p / 2 - 1 && e.ev.done == p / 2 - 1)
  {}

  /** The record of the failing step carries the code it returned, and the last record tells how
      the unwind ended. */
  lemma FailureRecordsTell<W>(id: nat, steps: seq<Step<W>>, w: W)
    requires FirstFailure(steps, w) < |steps|
    ensures var f, t := FirstFailure(steps, w), RunTrace(id, steps, w);
            && 2 * f + 2 < |t|
            && t[2 * f + 2].id == id && t[2 * f + 2].ev == Event(f, StepFail, Running, f, RunCode(steps, w, f))
            && t[|t| - 1].id == id
            && t[|t| - 1].ev == if UndoFails(steps, After(steps, w, f + 1), f, 0)
                                then Event(|steps|, FailedEv, Failed, 0, -1)
                                else Event(|steps|, RolledBackEv, RolledBack, 0, 0)
  {
    var f := FirstFailure(steps, w);
    FailureLayout(id, steps, w);
    FailureRecord(id, steps, w, 2 * f + 2);
  }

  // --------------------------------------------------------------------- the grammar

  /** A reader of the trace. It knows the number of steps and nothing else. */
  datatype Reader =
    | Fresh
    | Between(next: nat)                  // steps below `next` are done
    | Inside(step: nat)                   // the intent of `step` is the last record
    | Undoing(below: nat, failed: bool)   // undo records so far are for steps >= below
    | Ended(status: Status)
    | Reject

  function Read(n: nat, r: Reader, e: Event): Reader {
    match (r, e.kind)
    case (Fresh, Begin) => if e.index == n then Between(0) else Reject
    case (Between(i), Begin) => if e.index == i < n then Inside(i) else Reject
    case (Between(i), Commit) => if i == n == e.index then Ended(Committed) else Reject
    case (Inside(i), StepOk) => if e.index == i then Between(i + 1) else Reject
    case (Inside(i), StepFail) => if e.index == i then Undoing(i, false) else Reject
    case (Undoing(b, bad), UndoOk) => if e.index < b then Undoing(e.index, bad) else Reject
    case (Undoing(b, bad), UndoFail) => if e.index < b then Undoing(e.index, true) else Reject
    case (Undoing(b, bad), RolledBackEv) => if !bad && e.index == n then Ended(RolledBack) else Reject
    case (Undoing(b, bad), FailedEv) => if bad && e.index == n then Ended(Failed) else Reject
    case _ => Reject
  }

  /** The reader's state behind the first p records of t. */
  function ReadTo<W>(n: nat, t: seq<Entry<W>>, p: nat): Reader
    requires p <= |t|
    decreases p
  {
    if p == 0 then Fresh else Read(n, ReadTo(n, t, p - 1), t[p - 1].ev)
  }

  lemma {:induction false} ForwardReads<W>(id: nat, steps: seq<Step<W>>, w: W, t: seq<Entry<W>>, k: nat)
    requires k <= |steps| && 2 * k + 1 <= |t|
    requires forall p :: 0 <= p < 2 * k + 1 ==> t[p] == ForwardEntry(id, steps, w, p)
    ensures ReadTo(|steps|, t, 2 * k + 1) == Between(k)
  {
    if k == 0 {
      assert t[0] == ForwardEntry(id, steps, w, 0);
      assert ReadTo(|steps|, t, 0) == Fresh;
    } else {
      ForwardReads(id, steps, w, t, k - 1);
      assert t[2 * k - 1] == Intent(id, steps, w, k - 1);
      assert ReadTo(|steps|, t, 2 * k) == Inside(k - 1);
      assert t[2 * k] == Outcome(id, steps, w, k - 1);
    }
  }

  ghost predicate HoldsAt<X>(t: seq<X>, from: nat, s: seq<X>) {
    from + |s| <= |t| && forall q :: 0 <= q < |s| ==> t[from + q] == s[q]
  }

  /** While undoing, the reader has seen a failure exactly when an undo has failed. */
  lemma {:induction false} UndoReads<W>(
      id: nat, steps: seq<Step<W>>, u: W, k: nat, j: nat, t: seq<Entry<W>>, from: nat)
    requires j <= k <= |steps| && HoldsAt(t, from, UndoTrace(id, steps, u, k, j))
    requires ReadTo(|steps|, t, from) == Undoing(k, false)
    ensures var r := ReadTo(|steps|, t, from + |UndoTrace(id, steps, u, k, j)|);
            r.Undoing? && r.below >= j && r.failed == UndoFails(steps, u, k, j)
    decreases k - j
  {
    if j < k {
      var s, all := UndoTrace(id, steps, u, k, j + 1), UndoTrace(id, steps, u, k, j);
      assert forall q :: 0 <= q < |s| ==> all[q] == s[q];
      assert HoldsAt(t, from, s);
      UndoReads(id, steps, u, k, j + 1, t, from);
      if !steps[j].undo.Null? {
        assert |all| == |s| + 1 && t[from + |s|] == all[|s|];
      }
    }
  }

  /** Every run's trace is in the grammar, and reading it yields the slot's terminal status. */
  lemma TraceTellsStatus<W>(id: nat, steps: seq<Step<W>>, w: W)
    ensures var t := RunTrace(id, steps, w); ReadTo(|steps|, t, |t|) == Ended(RunStatus(steps, w))
  {
    if FirstFailure(steps, w) < |steps| { FailedRunReads(id, steps, w); } else { CommittedRunReads(id, steps, w); }
  }

  lemma CommittedRunReads<W>(id: nat, steps: seq<Step<W>>, w: W)
    requires FirstFailure(steps, w) == |steps|
    ensures var t := RunTrace(id, steps, w); ReadTo(|steps|, t, |t|) == Ended(Committed)
  {
    var n, t := |steps|, RunTrace(id, steps, w);
    ForwardPart(id, steps, w);
    ForwardReads(id, steps, w, t, n);
    ReadNext(n, t, 2 * n + 1, Between(n), Ended(Committed));
  }

  lemma FailedRunReads<W>(id: nat, steps: seq<Step<W>>, w: W)
    requires FirstFailure(steps, w) < |steps|
    ensures var f, t := FirstFailure(steps, w), RunTrace(id, steps, w);
            ReadTo(|steps|, t, |t|)
            == Ended(if UndoFails(steps, After(steps, w, f + 1), f, 0) then Failed else RolledBack)
  {
    var f, t := FirstFailure(steps, w), RunTrace(id, steps, w);
    ForwardPart(id, steps, w);
    ForwardReads(id, steps, w, t, f);
    FailureLayout(id, steps, w);
    UnwindReads(id, steps, After(steps, w, f + 1), f, t);
  }

  lemma ReadNext<W>(n: nat, t: seq<Entry<W>>, p: nat, r: Reader, next: Reader)
    requires p < |t| && ReadTo(n, t, p) == r && Read(n, r, t[p].ev) == next
    ensures ReadTo(n, t, p + 1) == next
  {}

  /** t holds, behind the forward part, the failing step's two records, the undo records and
      the terminal record. */
  ghost predicate HasFailure<W>(id: nat, steps: seq<Step<W>>, u: W, f: nat, t: seq<Entry<W>>) {
    && f < |steps|
    && var undos := UndoTrace(id, steps, u, f, 0);
       && |t| == 2 * f + 4 + |undos|
       && t[2 * f + 1].ev == Event(f, Begin, Running, f, 0)
       && t[2 * f + 2].ev.kind == StepFail && t[2 * f + 2].ev.index == f && t[2 * f + 2].ev.done == f
       && t[2 * f + 2].world == u
       && HoldsAt(t, 2 * f + 3, undos)
       && t[2 * f + 3 + |undos|] == UnwindEnd(id, steps, u, f)
  }

  lemma Layout<X>(a: seq<X>, x: X, y: X, b: seq<X>, e: X)
    ensures var t := (a + [x, y]) + (b + [e]);
            && |t| == |a| + |b| + 3 && t[|a|] == x && t[|a| + 1] == y
            && HoldsAt(t, |a| + 2, b)
            && t[|a| + 2 + |b|] == e
  {}

  lemma FailureLayout<W>(id: nat, steps: seq<Step<W>>, w: W)
    requires FirstFailure(steps, w) < |steps|
    ensures var f, t := FirstFailure(steps, w), RunTrace(id, steps, w);
            && HasFailure(id, steps, After(steps, w, f + 1), f, t)
            && t[2 * f + 1] == Intent(id, steps, w, f)
  {
    var f := FirstFailure(steps, w);
    var u := After(steps, w, f + 1);
    Layout(ForwardTrace(id, steps, w, f), Intent(id, steps, w, f),
           Entry(id, Event(f, StepFail, Running, f, RunCode(steps, w, f)), u),
           UndoTrace(id, steps, u, f, 0), UnwindEnd(id, steps, u, f));
  }

  /** The record of the step that failed. */
  function FailEntry<W>(id: nat, steps: seq<Step<W>>, w: W, f: nat): Entry<W>
    requires f < |steps|
  {
    Entry(id, Event(f, StepFail, Running, f, RunCode(steps, w, f)), After(steps, w, f + 1))
  }

  /** Record p of a failing run, from the intent of the failing step on. */
  lemma FailureRecord<W>(id: nat, steps: seq<Step<W>>, w: W, p: nat)
    requires FirstFailure(steps, w) < |steps| && 2 * FirstFailure(steps, w) + 1 <= p < |RunTrace(id, steps, w)|
    ensures var f := FirstFailure(steps, w);
            var u := After(steps, w, f + 1);
            var undos := UndoTrace(id, steps, u, f, 0);
            RunTrace(id, steps, w)[p] ==
            if p == 2 * f + 1 then Intent(id, steps, w, f)
            else if p == 2 * f + 2 then FailEntry(id, steps, w, f)
            else if p < 2 * f + 3 + |undos| then undos[p - (2 * f + 3)]
            else UnwindEnd(id, steps, u, f)
  {
    var f := FirstFailure(steps, w);
    var u := After(steps, w, f + 1);
    var a, x, y := ForwardTrace(id, steps, w, f), Intent(id, steps, w, f), FailEntry(id, steps, w, f);
    var b, e := UndoTrace(id, steps, u, f, 0), UnwindEnd(id, steps, u, f);
    FailureTrace(id, steps, w);
    LayoutAt(RunTrace(id, steps, w), a, x, y, b, e, p);
  }

  lemma FailureTrace<W>(id: nat, steps: seq<Step<W>>, w: W)
    requires FirstFailure(steps, w) < |steps|
    ensures var f := FirstFailure(steps, w);
            var u := After(steps, w, f + 1);
            && |ForwardTrace(id, steps, w, f)| == 2 * f + 1
            && RunTrace(id, steps, w)
               == (ForwardTrace(id, steps, w, f) + [Intent(id, steps, w, f), FailEntry(id, steps, w, f)])
                  + (UndoTrace(id, steps, u, f, 0) + [UnwindEnd(id, steps, u, f)])
  {}

  lemma LayoutAt<X>(t: seq<X>, a: seq<X>, x: X, y: X, b: seq<X>, e: X, p: nat)
    requires t == (a + [x, y]) + (b + [e]) && |a| <= p < |t|
    ensures t[p] ==
            if p == |a| then x else if p == |a| + 1 then y
            else if p < |a| + 2 + |b| then b[p - |a| - 2] else e
  {}

  lemma UnwindReads<W>(id: nat, steps: seq<Step<W>>, u: W, f: nat, t: seq<Entry<W>>)
    requires HasFailure(id, steps, u, f, t)
    requires ReadTo(|steps|, t, 2 * f + 1) == Between(f)
    ensures ReadTo(|steps|, t, |t|) == Ended(if UndoFails(steps, u, f, 0) then Failed else RolledBack)
  {
    FailureRecordsRead(|steps|, t, f);
    UndoReads(id, steps, u, f, 0, t, 2 * f + 3);
    UnwindEndIs(id, steps, u, f);
    assert 2 * f + 3 + |UndoTrace(id, steps, u, f, 0)| == |t| - 1;
    assert t[|t| - 1].ev == UnwindEnd(id, steps, u, f).ev;
    LastRecordReads(|steps|, t, UndoFails(steps, u, f, 0));
  }

  lemma UnwindEndIs<W>(id: nat, steps: seq<Step<W>>, u: W, f: nat)
    requires f <= |steps|
    ensures UnwindEnd(id, steps, u, f).ev.index == |steps|
    ensures UnwindEnd(id, steps, u, f).ev.kind == if UndoFails(steps, u, f, 0) then FailedEv else RolledBackEv
  {}

  lemma FailureRecordsRead<W>(n: nat, t: seq<Entry<W>>, f: nat)
    requires f < n && 2 * f + 3 <= |t| && ReadTo(n, t, 2 * f + 1) == Between(f)
    requires t[2 * f + 1].ev == Event(f, Begin, Running, f, 0)
    requires t[2 * f + 2].ev.kind == StepFail && t[2 * f + 2].ev.index == f
    ensures ReadTo(n, t, 2 * f + 3) == Undoing(f, false)
  {
    ReadNext(n, t, 2 * f + 1, Between(f), Inside(f));
    ReadNext(n, t, 2 * f + 2, Inside(f), Undoing(f, false));
  }

  lemma LastRecordReads<W>(n: nat, t: seq<Entry<W>>, bad: bool)
    requires |t| > 0 && ReadTo(n, t, |t| - 1).Undoing? && ReadTo(n, t, |t| - 1).failed == bad
    requires t[|t| - 1].ev.index == n && t[|t| - 1].ev.kind == if bad then FailedEv else RolledBackEv
    ensures ReadTo(n, t, |t|) == Ended(if bad then Failed else RolledBack)
  {}

  lemma {:induction false} RejectSticks<W>(n: nat, t: seq<Entry<W>>, p: nat, q: nat)
    requires p <= q <= |t| && ReadTo(n, t, p).Reject?
    ensures ReadTo(n, t, q).Reject?
    decreases q - p
  {
    if p < q { RejectSticks(n, t, p + 1, q); }
  }

  /** No prefix of a run's trace is out of grammar. */
  lemma PrefixReads<W>(id: nat, steps: seq<Step<W>>, w: W, p: nat)
    requires p <= |RunTrace(id, steps, w)|
    ensures !ReadTo(|steps|, RunTrace(id, steps, w), p).Reject?
  {
    var t := RunTrace(id, steps, w);
    TraceTellsStatus(id, steps, w);
    if ReadTo(|steps|, t, p).Reject? { RejectSticks(|steps|, t, p, |t|); }
  }

  /** The records a run writes after its forward pass carry no further intent. */
  lemma {:induction false} UndosAreNotIntents<W>(id: nat, steps: seq<Step<W>>, u: W, k: nat, j: nat)
    requires j <= k <= |steps|
    ensures forall p :: 0 <= p < |UndoTrace(id, steps, u, k, j)| ==>
              UndoTrace(id, steps, u, k, j)[p].ev.kind in {UndoOk, UndoFail}
    decreases k - j
  {
    if j < k { UndosAreNotIntents(id, steps, u, k, j + 1); }
  }

  /** Behind record p the run is inside some step i: the steps before i have all completed,
      the world is the one step i was called in, and the next record is i's outcome. */
  ghost predicate IsIntentAt<W>(id: nat, steps: seq<Step<W>>, w: W, p: nat) {
    var t := RunTrace(id, steps, w);
    && p + 1 < |t|
    && var i := t[p].ev.index;
       && i <= FirstFailure(steps, w) && i < |steps|
       && t[..p + 1] == ForwardTrace(id, steps, w, i) + [Intent(id, steps, w, i)]
       && t[p + 1].ev.index == i
       && t[p + 1].ev.kind == (if i < FirstFailure(steps, w) then StepOk else StepFail)
  }

  /** A trace cut off right behind the intent of step i is an abort inside step i, and only
      that. */
  lemma IntentMeansInside<W>(id: nat, steps: seq<Step<W>>, w: W, p: nat)
    requires p < |RunTrace(id, steps, w)|
    requires var e := RunTrace(id, steps, w)[p].ev; e.kind.Begin? && e.index < |steps|
    ensures IsIntentAt(id, steps, w, p)
  {
    var f := FirstFailure(steps, w);
    ForwardPart(id, steps, w);
    if p < 2 * f + 1 {
      IntentInForwardPart(id, steps, w, p);
    } else {
      IntentBehindForwardPart(id, steps, w, p);
    }
  }

  /** Record p of a run, as long as it belongs to a completed step. */
  lemma ForwardRecord<W>(id: nat, steps: seq<Step<W>>, w: W, p: nat)
    requires p < 2 * FirstFailure(steps, w) + 1
    ensures p < |RunTrace(id, steps, w)| && RunTrace(id, steps, w)[p] == ForwardEntry(id, steps, w, p)
  {
    ForwardPart(id, steps, w);
    assert RunTrace(id, steps, w)[p] == ForwardTrace(id, steps, w, FirstFailure(steps, w))[p];
  }

  /** A run's trace begins with the records of its completed steps. */
  lemma ForwardPart<W>(id: nat, steps: seq<Step<W>>, w: W)
    ensures var t, fwd := RunTrace(id, steps, w), ForwardTrace(id, steps, w, FirstFailure(steps, w));
            |fwd| < |t| && t[..|fwd|] == fwd && forall p :: 0 <= p < |fwd| ==> t[p] == fwd[p]
  {}

  lemma IntentInForwardPart<W>(id: nat, steps: seq<Step<W>>, w: W, p: nat)
    requires p < 2 * FirstFailure(steps, w) + 1 <= |RunTrace(id, steps, w)|
    requires var e := RunTrace(id, steps, w)[p].ev; e.kind.Begin? && e.index < |steps|
    ensures IsIntentAt(id, steps, w, p)
  {
    var f, i := FirstFailure(steps, w), p / 2;
    var fwd := ForwardTrace(id, steps, w, f);
    ForwardPart(id, steps, w);
    assert p == 2 * i + 1 && fwd[p] == Intent(id, steps, w, i);
    assert fwd[..p] == ForwardTrace(id, steps, w, i);
    PrefixOfPrefix(RunTrace(id, steps, w), fwd, p);
  }

  lemma PrefixOfPrefix<X>(t: seq<X>, a: seq<X>, p: nat)
    requires p < |a| <= |t| && t[..|a|] == a
    ensures t[..p + 1] == a[..p] + [a[p]]
    ensures p + 1 < |a| ==> t[p + 1] == a[p + 1]
  {}

  lemma IntentBehindForwardPart<W>(id: nat, steps: seq<Step<W>>, w: W, p: nat)
    requires 2 * FirstFailure(steps, w) + 1 <= p < |RunTrace(id, steps, w)|
    requires var e := RunTrace(id, steps, w)[p].ev; e.kind.Begin? && e.index < |steps|
    ensures IsIntentAt(id, steps, w, p)
  {
    var f, t := FirstFailure(steps, w), RunTrace(id, steps, w);
    if f < |steps| {
      FailureLayout(id, steps, w);
      UndosAreNotIntents(id, steps, After(steps, w, f + 1), f, 0);
      ForwardPart(id, steps, w);
      assert t[2 * f + 3 + (p - (2 * f + 3))] == t[p];
      assert p == 2 * f + 1;
      assert t[..p + 1] == t[..p] + [t[p]];
    }
  }

  // ----------------------------------------------------------------------- recovery

  /** The world recovery leaves behind if the run is abandoned when `e` has been written. */
  function RecoveredFrom<W>(steps: seq<Step<W>>, e: Entry<W>): W
    requires e.ev.done <= |steps|
  {
    Unwound(steps, e.world, e.ev.done, 0)
  }

  /** Every undo that recovery would run from `e` succeeds. */
  predicate UndosSucceed<W>(steps: seq<Step<W>>, e: Entry<W>)
    requires e.ev.done <= |steps|
  {
    !UndoFails(steps, e.world, e.ev.done, 0)
  }

  /** Abandoned at a step boundary of the forward pass (at the begin record or at any
      intent), the slot recovers to the world the workflow began in. */
  lemma RecoveryFromBoundary<W(!new)>(id: nat, steps: seq<Step<W>>, w: W, i: nat, same: (W, W) -> bool)
    requires i <= FirstFailure(steps, w)
    requires Reversible(steps, w, i, same) && same(After(steps, w, i), After(steps, w, i))
    requires !UndoFails(steps, After(steps, w, i), i, 0)
    ensures same(Unwound(steps, After(steps, w, i), i, 0), w)
    ensures i < |steps| ==> same(RecoveredFrom(steps, Intent(id, steps, w, i)), w)
  {
    UnwindRestores(steps, w, After(steps, w, i), i, 0, same);
  }

  /** Undoing a step that is not in effect succeeds and is not visible. */
  ghost predicate Idempotent<W(!new)>(steps: seq<Step<W>>, w: W, k: nat, same: (W, W) -> bool)
    requires k <= |steps|
  {
    forall j: nat, m: nat, u {:trigger steps[j].undo.Call(u), After(steps, w, m)} ::
      m <= j < k && same(u, After(steps, w, m)) ==>
        var (v, rv) := steps[j].undo.Call(u); rv == 0 && same(v, After(steps, w, m))
  }

  /** The undos of steps k-1 .. i, run again where they are not in effect, change nothing. */
  lemma {:induction false} SecondUnwindIdle<W(!new)>(
      steps: seq<Step<W>>, w: W, u: W, k: nat, m: nat, i: nat, same: (W, W) -> bool)
    requires m <= i <= k <= |steps|
    requires Idempotent(steps, w, k, same) && same(u, After(steps, w, m))
    ensures same(Unwound(steps, u, k, i), After(steps, w, m)) && !UndoFails(steps, u, k, i)
    decreases k - i
  {
    if i < k {
      SecondUnwindIdle(steps, w, u, k, m, i + 1, same);
    }
  }

  lemma {:induction false} UnwindOnFrom<W(!new)>(
      steps: seq<Step<W>>, w: W, u: W, k: nat, m: nat, j: nat, same: (W, W) -> bool)
    requires j <= m <= k <= |steps|
    requires Reversible(steps, w, k, same) && same(Unwound(steps, u, k, m), After(steps, w, m))
    requires !UndoFails(steps, u, k, j)
    ensures same(Unwound(steps, u, k, j), After(steps, w, j))
    decreases m - j
  {
    if j < m {
      assert UndoCode(steps, u, k, j) == 0;
      UnwindOnFrom(steps, w, u, k, m, j + 1, same);
    }
  }

  /** Abandoned between two undos (steps k-1 .. m already undone, the cursor still at k),
      the slot recovers to the world the workflow began in: the undos that have run are
      run again, without effect. */
  lemma RecoveryFromUnwind<W(!new)>(steps: seq<Step<W>>, w: W, u: W, k: nat, m: nat, same: (W, W) -> bool)
    requires m <= k <= FirstFailure(steps, w)
    requires Reversible(steps, w, k, same) && Idempotent(steps, w, k, same)
    requires same(u, After(steps, w, k)) && !UndoFails(steps, u, k, m)
    requires !UndoFails(steps, Unwound(steps, u, k, m), k, 0)
    ensures same(Unwound(steps, Unwound(steps, u, k, m), k, 0), w)
  {
    var v := Unwound(steps, u, k, m);
    UnwindRestores(steps, w, u, k, m, same);
    SecondUnwindIdle(steps, w, v, k, m, m, same);
    UnwindOnFrom(steps, w, v, k, m, 0, same);
  }

  /** Undos tell worlds apart: one that does not look like the world behind its step is not
      taken to one that looks like the world before it. */
  ghost predicate Distinguishing<W(!new)>(steps: seq<Step<W>>, w: W, k: nat, same: (W, W) -> bool)
    requires k <= |steps|
  {
    forall j: nat, u {:trigger steps[j].undo.Call(u)} ::
      j < k && !same(u, After(steps, w, j + 1)) ==> !same(steps[j].undo.Call(u).0, After(steps, w, j))
  }

  /** Undoing steps i-1 .. j leads back to the world before step j from the right world only. */
  lemma {:induction false} UnwindTells<W(!new)>(
      steps: seq<Step<W>>, w: W, u: W, i: nat, j: nat, same: (W, W) -> bool)
    requires j <= i <= |steps|
    requires Reversible(steps, w, i, same) && Distinguishing(steps, w, i, same)
    requires !UndoFails(steps, u, i, j)
    ensures same(Unwound(steps, u, i, j), After(steps, w, j)) <==> same(u, After(steps, w, i))
    decreases i - j
  {
    if j < i {
      assert UndoCode(steps, u, i, j) == 0;
      UnwindTells(steps, w, u, i, j + 1, same);
      var _ := steps[j].undo.Call(Unwound(steps, u, i, j + 1));
    }
  }

  /** Abandoned behind the STEP_OK record of step i, where the effect is in place and the cursor
      does not count it yet, the slot recovers exactly when that effect is not visible. */
  lemma RecoveryBehindStepOk<W(!new)>(id: nat, steps: seq<Step<W>>, w: W, i: nat, same: (W, W) -> bool)
    requires i < |steps| && Reversible(steps, w, i, same) && Distinguishing(steps, w, i, same)
    requires UndosSucceed(steps, Outcome(id, steps, w, i))
    ensures same(RecoveredFrom(steps, Outcome(id, steps, w, i)), w)
            <==> same(After(steps, w, i + 1), After(steps, w, i))
  {
    UnwindTells(steps, w, After(steps, w, i + 1), i, 0, same);
  }

  /** With undos that tell worlds apart, recovery from any record at all brings back the world
      the workflow began in exactly when the record was written in a world that looks like the
      one behind the steps its cursor counts. So behind an undo it does exactly when what has
      been undone was not visible. */
  lemma RecoveryTells<W(!new)>(steps: seq<Step<W>>, w: W, e: Entry<W>, same: (W, W) -> bool)
    requires e.ev.done <= |steps| && UndosSucceed(steps, e)
    requires Reversible(steps, w, e.ev.done, same) && Distinguishing(steps, w, e.ev.done, same)
    ensures same(RecoveredFrom(steps, e), w) <==> same(e.world, After(steps, w, e.ev.done))
  {
    UnwindTells(steps, w, e.world, e.ev.done, 0, same);
  }

  /** The records behind which recovery needs the step's effect to be invisible. */
  predicate Uncounted<W>(steps: seq<Step<W>>, e: Entry<W>) { e.ev.kind.StepOk? && e.ev.index < |steps| }

  /** Recovery from any point of a run at which a record is written and the slot is not yet
      terminal. It brings back the world the workflow began in, except behind a STEP_OK record;
      there, with undos that tell worlds apart, it does exactly when that step's effect is not
      visible. Between two undos it needs undos that can be repeated. */
  lemma RecoveryFromRecord<W(!new)>(id: nat, steps: seq<Step<W>>, w: W, p: nat, same: (W, W) -> bool)
    requires p < |RunTrace(id, steps, w)|
    requires var e, f := RunTrace(id, steps, w)[p], FirstFailure(steps, w);
             && e.ev.status in {Running, RollingBack}
             && Reversible(steps, w, f, same)
             && (e.ev.status.RollingBack? ==> Idempotent(steps, w, f, same))
             && (e.ev.kind.StepOk? ==> Distinguishing(steps, w, f, same))
             && (forall i :: 0 <= i <= f ==> same(After(steps, w, i), After(steps, w, i)))
             && (f < |steps| ==> same(After(steps, w, f + 1), After(steps, w, f)))
             && (f < |steps| ==> !UndoFails(steps, After(steps, w, f + 1), f, 0))
    requires RunTrace(id, steps, w)[p].ev.done <= |steps| && UndosSucceed(steps, RunTrace(id, steps, w)[p])
    ensures var e := RunTrace(id, steps, w)[p];
            same(RecoveredFrom(steps, e), w)
            <==> (Uncounted(steps, e) ==>
                    same(After(steps, w, e.ev.index + 1), After(steps, w, e.ev.index)))
  {
    var f := FirstFailure(steps, w);
    ForwardPart(id, steps, w);
    if p < 2 * f + 1 {
      if RunTrace(id, steps, w)[p].ev.kind.StepOk? {
        assert RunTrace(id, steps, w)[p] == Outcome(id, steps, w, p / 2 - 1);
        RecoveryBehindStepOk(id, steps, w, p / 2 - 1, same);
      } else {
        RecoveryInForwardPart(id, steps, w, p, same);
      }
    } else if f < |steps| {
      BehindFailureNotOk(id, steps, w, p);
      RecoveryBehindFailure(id, steps, w, p, same);
    }
  }

  lemma BehindFailureNotOk<W>(id: nat, steps: seq<Step<W>>, w: W, p: nat)
    requires FirstFailure(steps, w) < |steps| && 2 * FirstFailure(steps, w) + 1 <= p < |RunTrace(id, steps, w)|
    ensures !RunTrace(id, steps, w)[p].ev.kind.StepOk?
  {
    var f := FirstFailure(steps, w);
    FailureRecord(id, steps, w, p);
    UndosAreNotIntents(id, steps, After(steps, w, f + 1), f, 0);
    UnwindEndIs(id, steps, After(steps, w, f + 1), f);
  }

  lemma RecoveryInForwardPart<W(!new)>(id: nat, steps: seq<Step<W>>, w: W, p: nat, same: (W, W) -> bool)
    requires p < |ForwardTrace(id, steps, w, FirstFailure(steps, w))|
    requires var e, f := ForwardTrace(id, steps, w, FirstFailure(steps, w))[p], FirstFailure(steps, w);
             && !e.ev.kind.StepOk? && e.ev.done <= |steps| && UndosSucceed(steps, e)
             && Reversible(steps, w, f, same)
             && forall i :: 0 <= i <= f ==> same(After(steps, w, i), After(steps, w, i))
    ensures same(RecoveredFrom(steps, ForwardTrace(id, steps, w, FirstFailure(steps, w))[p]), w)
  {
    var i := p / 2;
    assert same(After(steps, w, 0), After(steps, w, 0));
    if p > 0 {
      assert p == 2 * i + 1;
      RecoveryFromBoundary(id, steps, w, i, same);
    }
  }

  lemma {:induction false} UndoEntryWorld<W>(id: nat, steps: seq<Step<W>>, u: W, k: nat, j: nat, p: nat) returns (m: nat)
    requires j <= k <= |steps| && p < |UndoTrace(id, steps, u, k, j)|
    ensures j <= m < k
    ensures UndoTrace(id, steps, u, k, j)[p].world == Unwound(steps, u, k, m)
    ensures UndoTrace(id, steps, u, k, j)[p].ev.done == k && UndoTrace(id, steps, u, k, j)[p].ev.status.RollingBack?
    decreases k - j
  {
    var t := UndoTrace(id, steps, u, k, j + 1);
    if p < |t| { m := UndoEntryWorld(id, steps, u, k, j + 1, p); } else { m := j; }
  }

  lemma {:induction false} UndoFailsMonotone<W>(steps: seq<Step<W>>, u: W, k: nat, m: nat, j: nat)
    requires j <= m <= k <= |steps| && !UndoFails(steps, u, k, j)
    ensures !UndoFails(steps, u, k, m)
    decreases m - j
  {
    if j < m { UndoFailsMonotone(steps, u, k, m, j + 1); }
  }

  lemma RecoveryFromUndoRecord<W(!new)>(id: nat, steps: seq<Step<W>>, w: W, u: W, f: nat, q: nat, same: (W, W) -> bool)
    requires f <= FirstFailure(steps, w) && q < |UndoTrace(id, steps, u, f, 0)|
    requires var e := UndoTrace(id, steps, u, f, 0)[q]; e.ev.done <= |steps| && UndosSucceed(steps, e)
    requires Reversible(steps, w, f, same) && Idempotent(steps, w, f, same)
    requires same(u, After(steps, w, f)) && !UndoFails(steps, u, f, 0)
    ensures same(RecoveredFrom(steps, UndoTrace(id, steps, u, f, 0)[q]), w)
  {
    var m := UndoEntryWorld(id, steps, u, f, 0, q);
    UndoFailsMonotone(steps, u, f, m, 0);
    RecoveryFromUnwind(steps, w, u, f, m, same);
  }

  lemma RecoveryAtFailure<W(!new)>(steps: seq<Step<W>>, w: W, f: nat, e: Entry<W>, same: (W, W) -> bool)
    requires f <= |steps| && e.ev.done == f && UndosSucceed(steps, e)
    requires Reversible(steps, w, f, same) && same(e.world, After(steps, w, f))
    ensures same(RecoveredFrom(steps, e), w)
  {
    UnwindRestores(steps, w, e.world, f, 0, same);
  }

  lemma RecoveryBehindFailure<W(!new)>(id: nat, steps: seq<Step<W>>, w: W, p: nat, same: (W, W) -> bool)
    requires var f := FirstFailure(steps, w); f < |steps| && 2 * f + 1 <= p < |RunTrace(id, steps, w)|
    requires var e, f := RunTrace(id, steps, w)[p], FirstFailure(steps, w);
             && e.ev.status in {Running, RollingBack} && e.ev.done <= |steps| && UndosSucceed(steps, e)
             && Reversible(steps, w, f, same)
             && (e.ev.status.RollingBack? ==> Idempotent(steps, w, f, same))
             && same(After(steps, w, f), After(steps, w, f))
             && same(After(steps, w, f + 1), After(steps, w, f))
             && !UndoFails(steps, After(steps, w, f + 1), f, 0)
    ensures same(RecoveredFrom(steps, RunTrace(id, steps, w)[p]), w)
  {
    var f, e := FirstFailure(steps, w), RunTrace(id, steps, w)[p];
    var u := After(steps, w, f + 1);
    FailureRecord(id, steps, w, p);
    if p == 2 * f + 1 {
      RecoveryAtFailure(steps, w, f, Intent(id, steps, w, f), same);
    } else if p == 2 * f + 2 {
      RecoveryAtFailure(steps, w, f, FailEntry(id, steps, w, f), same);
    } else {
      var q := p - (2 * f + 3);
      assert e == UndoTrace(id, steps, u, f, 0)[q];
      var _ := UndoEntryWorld(id, steps, u, f, 0, q);
      RecoveryFromUndoRecord(id, steps, w, u, f, q, same);
    }
  }

  /** The window recovery does not cover: between a step's return and the advance of the
      cursor its effect is in place and its undo is not called. */
  lemma WindowBehindStepOk()
    ensures var steps := [Step("bump", Fn((x: int) => (x + 1, 0)), Fn((x: int) => (x - 1, 0)))];
            && Compensated(steps)
            && Reversible(steps, 0, 1, (a, b) => a == b) && Distinguishing(steps, 0, 1, (a, b) => a == b)
            && exists p :: 0 <= p < |RunTrace(1, steps, 0)| && RunTrace(1, steps, 0)[p].ev.kind.StepOk?
                 && RunTrace(1, steps, 0)[p].ev.done == 0 && RunTrace(1, steps, 0)[p].world == 1
                 && RecoveredFrom(steps, RunTrace(1, steps, 0)[p]) != 0
  {
    var steps := [Step("bump", Fn((x: int) => (x + 1, 0)), Fn((x: int) => (x - 1, 0)))];
    assert FirstFailure(steps, 0) == 1;
    assert RunTrace(1, steps, 0)[2] == ForwardTrace(1, steps, 0, 1)[2];
  }

  // --------------------------------------------------------------- the whole table

  ghost predicate TableOk<W>(slots: seq<Slot<W>>) {
    forall i :: 0 <= i < |slots| ==> SlotOk(slots[i])
  }

  /** What becomes of slot i: one that is RUNNING or ROLLING_BACK is FAILED if it has no steps or
      an undo fails in the world recovery has come to by then, and free otherwise; any other slot
      is left as it is. */
  lemma {:induction false} RecoveryOfSlot<W>(slots: seq<Slot<W>>, w: W, n: nat, i: nat)
    requires i < n <= |slots| && TableOk(slots)
    ensures var s, t := slots[i], Recovered(slots, w, n).slots[i];
            if s.status == Running || s.status == RollingBack then
              if s.steps == [] || UndoFails(s.steps, Recovered(slots, w, i).world, s.done, 0)
              then t.status == Failed && t.id == s.id && t.steps == s.steps
              else t == Slot(0, 0, Idle, [], 0)
            else t == s
  {
    if i < n - 1 { RecoveryOfSlot(slots, w, n - 1, i); }
  }

  /** After recovery no visited slot is RUNNING or ROLLING_BACK, and the call reports success
      exactly when none that was has become FAILED. */
  lemma {:induction false} RecoverySettles<W>(slots: seq<Slot<W>>, w: W, n: nat)
    requires n <= |slots| && TableOk(slots)
    ensures var r := Recovered(slots, w, n);
            && (forall i :: 0 <= i < n ==> r.slots[i].status != Running && r.slots[i].status != RollingBack)
            && (r.clean <==> forall i :: 0 <= i < n && (slots[i].status == Running || slots[i].status == RollingBack) ==>
                               r.slots[i].status != Failed)
  {
    forall i | 0 <= i < n
      ensures var t := Recovered(slots, w, n).slots[i]; t.status != Running && t.status != RollingBack
    {
      RecoveryOfSlot(slots, w, n, i);
    }
    if n > 0 {
      RecoverySettles(slots, w, n - 1);
      var q, r := Recovered(slots, w, n - 1), Recovered(slots, w, n);
      assert q.slots[n - 1] == slots[n - 1];
      assert forall i :: 0 <= i < n - 1 ==> r.slots[i] == q.slots[i];
    }
  }

  /** Slots that are neither RUNNING nor ROLLING_BACK do not matter. */
  lemma {:induction false} IdleRecovery<W>(slots: seq<Slot<W>>, w: W, n: nat)
    requires n <= |slots| && TableOk(slots)
    requires forall i :: 0 <= i < n ==> slots[i].status != Running && slots[i].status != RollingBack
    ensures Recovered(slots, w, n) == Recovery(slots, w, [], true)
  {
    if n > 0 { IdleRecovery(slots, w, n - 1); }
  }

  /** A table whose only busy slot was left when record e had been written, RUNNING or
      ROLLING_BACK: recovery leaves the world that the record's laws speak of, succeeds exactly
      when the undos do, and then frees the slot and touches no other. */
  lemma {:induction false} RecoveryOfOne<W>(slots: seq<Slot<W>>, i: nat, e: Entry<W>, n: nat)
    requires i < n <= |slots| && TableOk(slots)
    requires slots[i].status == e.ev.status && (e.ev.status == Running || e.ev.status == RollingBack)
    requires slots[i].steps != [] && slots[i].done == e.ev.done
    requires forall m :: 0 <= m < |slots| && m != i ==> slots[m].status != Running && slots[m].status != RollingBack
    ensures var r := Recovered(slots, e.world, n);
            && r.world == RecoveredFrom(slots[i].steps, e)
            && (r.clean <==> UndosSucceed(slots[i].steps, e))
            && (r.clean ==> r.slots == slots[i := Slot(0, 0, Idle, [], 0)])
            && r.trace == UnwindTrace(slots[i].id, slots[i].steps, e.world, e.ev.done)
  {
    if i == n - 1 {
      IdleRecovery(slots, e.world, i);
    } else {
      RecoveryOfOne(slots, i, e, n - 1);
    }
  }

  /** So a slot that was abandoned between two undos, ROLLING_BACK with steps k-1 .. m already
      undone, is restored and freed. */
  lemma RollingBackRecovers<W(!new)>(
      slots: seq<Slot<W>>, i: nat, base: W, u: W, m: nat, same: (W, W) -> bool)
    requires i < |slots| && TableOk(slots) && slots[i].status == RollingBack && slots[i].steps != []
    requires forall j :: 0 <= j < |slots| && j != i ==> slots[j].status != Running && slots[j].status != RollingBack
    requires m <= slots[i].done <= FirstFailure(slots[i].steps, base)
    requires Reversible(slots[i].steps, base, slots[i].done, same) && Idempotent(slots[i].steps, base, slots[i].done, same)
    requires same(u, After(slots[i].steps, base, slots[i].done)) && !UndoFails(slots[i].steps, u, slots[i].done, m)
    requires !UndoFails(slots[i].steps, Unwound(slots[i].steps, u, slots[i].done, m), slots[i].done, 0)
    ensures var r := Recovered(slots, Unwound(slots[i].steps, u, slots[i].done, m), |slots|);
            same(r.world, base) && r.clean && r.slots == slots[i := Slot(0, 0, Idle, [], 0)]
  {
    var s := slots[i];
    var e := Entry(s.id, Event(m, UndoOk, RollingBack, s.done, 0), Unwound(s.steps, u, s.done, m));
    RecoveryOfOne(slots, i, e, |slots|);
    RecoveryFromUnwind(s.steps, base, u, s.done, m, same);
  }

  /** Slot i was abandoned at a step boundary of a run that began in `base`, as far as its
      own part of the world, `same(i, ..)`, is concerned. */
  ghost predicate AtBoundary<W(!new)>(s: Slot<W>, i: nat, w: W, base: W, same: (nat, W, W) -> bool)
    requires SlotOk(s)
  {
    && s.steps != []
    && same(i, w, After(s.steps, base, s.done))
    && Reversible(s.steps, base, s.done, (u, v) => same(i, u, v))
  }

  /** No undo of one abandoned slot is visible to another. */
  ghost predicate Independent<W(!new)>(slots: seq<Slot<W>>, same: (nat, W, W) -> bool) {
    forall i: nat, m: nat, j: nat, u, x {:trigger slots[i].steps[j].undo.Call(u), same(m, u, x)} ::
      (i < |slots| && m < |slots| && i != m && Abandoned(slots[i]) && Abandoned(slots[m])
       && j < |slots[i].steps| && same(m, u, x)) ==>
        same(m, slots[i].steps[j].undo.Call(u).0, x)
  }

  lemma {:induction false} UnwindUnseen<W(!new)>(
      slots: seq<Slot<W>>, i: nat, m: nat, u: W, j: nat, x: W, same: (nat, W, W) -> bool)
    requires i < |slots| && m < |slots| && i != m && Abandoned(slots[i]) && Abandoned(slots[m])
    requires SlotOk(slots[i]) && j <= slots[i].done && Independent(slots, same) && same(m, u, x)
    ensures same(m, Unwound(slots[i].steps, u, slots[i].done, j), x)
    decreases slots[i].done - j
  {
    if j < slots[i].done { UnwindUnseen(slots, i, m, u, j + 1, x, same); }
  }

  /** A recovery that reports success gives every abandoned slot its part of the world back
      as it was when that slot's workflow began, however the runs were interleaved. */
  lemma {:induction false} RecoveryRestoresEach<W(!new)>(
      slots: seq<Slot<W>>, w: W, n: nat, bases: seq<W>, same: (nat, W, W) -> bool)
    requires n <= |slots| == |bases| && TableOk(slots) && Independent(slots, same)
    requires forall i :: 0 <= i < |slots| && Abandoned(slots[i]) ==> AtBoundary(slots[i], i, w, bases[i], same)
    requires Recovered(slots, w, n).clean
    ensures forall i :: 0 <= i < |slots| && Abandoned(slots[i]) ==>
              same(i, Recovered(slots, w, n).world,
                   if i < n then bases[i] else After(slots[i].steps, bases[i], slots[i].done))
  {
    if n > 0 {
      RecoveryRestoresEach(slots, w, n - 1, bases, same);
      var q, s := Recovered(slots, w, n - 1), slots[n - 1];
      if Abandoned(s) {
        assert AtBoundary(s, n - 1, w, bases[n - 1], same);
        UnwindRestores(s.steps, bases[n - 1], q.world, s.done, 0, (u, v) => same(n - 1, u, v));
        forall i: nat | i < |slots| && Abandoned(slots[i]) && i != n - 1
          ensures same(i, Unwound(s.steps, q.world, s.done, 0),
                       if i < n then bases[i] else After(slots[i].steps, bases[i], slots[i].done))
        {
          UnwindUnseen(slots, n - 1, i, q.world, 0,
                       if i < n then bases[i] else After(slots[i].steps, bases[i], slots[i].done), same);
        }
      }
    }
  }

  /** The world that the abandoned slots |slots|-1 .. i leave behind if they ran to their cursors
      one after another, in falling slot order, from w. */
  function LeftBehind<W>(slots: seq<Slot<W>>, w: W, i: nat): W
    requires i <= |slots| && forall m :: 0 <= m < |slots| ==> SlotOk(slots[m])
    decreases |slots| - i
  {
    if i == |slots| then w
    else
      var v, s := LeftBehind(slots, w, i + 1), slots[i];
      if Abandoned(s) then After(s.steps, v, s.done) else v
  }

  /** Slots that ran one after another in falling slot order need no independence: recovery
      takes them back in the reverse of the order in which they ran. */
  lemma {:induction false} RecoveryInReverse<W(!new)>(
      slots: seq<Slot<W>>, base: W, w: W, n: nat, same: (W, W) -> bool)
    requires n <= |slots| && TableOk(slots) && same(w, LeftBehind(slots, base, 0))
    requires forall i :: 0 <= i < |slots| && Abandoned(slots[i]) ==>
               slots[i].steps != [] && Reversible(slots[i].steps, LeftBehind(slots, base, i + 1), slots[i].done, same)
    requires Recovered(slots, w, n).clean
    ensures same(Recovered(slots, w, n).world, LeftBehind(slots, base, n))
  {
    if n > 0 {
      RecoveryInReverse(slots, base, w, n - 1, same);
      var q, s := Recovered(slots, w, n - 1), slots[n - 1];
      assert q.slots[n - 1] == s;
      if Abandoned(s) {
        UnwindRestores(s.steps, LeftBehind(slots, base, n), q.world, s.done, 0, same);
      }
    }
  }

  /** Every abandoned slot can be undone back to the world it found in the falling order, and
      its undos tell worlds apart. */
  ghost predicate Traceable<W(!new)>(slots: seq<Slot<W>>, base: W, same: (W, W) -> bool)
    requires TableOk(slots)
  {
    forall i :: 0 <= i < |slots| && Abandoned(slots[i]) ==>
      && slots[i].steps != []
      && Reversible(slots[i].steps, LeftBehind(slots, base, i + 1), slots[i].done, same)
      && Distinguishing(slots[i].steps, LeftBehind(slots, base, i + 1), slots[i].done, same)
  }

  /** And from no other world: a recovery that reports success restores exactly when the world it
      found looks as if the slots had run one after another in falling slot order. */
  lemma {:induction false} RecoveryExactly<W(!new)>(
      slots: seq<Slot<W>>, base: W, w: W, n: nat, same: (W, W) -> bool)
    requires n <= |slots| && TableOk(slots) && Traceable(slots, base, same) && Recovered(slots, w, n).clean
    ensures same(Recovered(slots, w, n).world, LeftBehind(slots, base, n)) <==> same(w, LeftBehind(slots, base, 0))
  {
    if n > 0 {
      RecoveryExactly(slots, base, w, n - 1, same);
      var q, s := Recovered(slots, w, n - 1), slots[n - 1];
      assert q.slots[n - 1] == s;
      if Abandoned(s) {
        UnwindTells(s.steps, LeftBehind(slots, base, n), q.world, s.done, 0, same);
      }
    }
  }

  function Negate(): Step<int> { Step("negate", Fn((x: int) => (-x, 0)), Fn((x: int) => (-x, 0))) }

  function Bump(): Step<int> { Step("bump", Fn((x: int) => (x + 1, 0)), Fn((x: int) => (x - 1, 0))) }

  /** Two slots for which it does not: slot 0 negated a counter and then slot 1 bumped it, and
      recovery takes the negation back first. */
  lemma RecoveryOrderMatters()
    ensures var slots := [Slot(1, 1, Running, [Negate()], 1), Slot(2, 1, Running, [Bump()], 1)];
            && Compensated([Negate()]) && Compensated([Bump()])
            && TableOk(slots) && Traceable(slots, 1, (a, b) => a == b)
            && After([Bump()], After([Negate()], 1, 1), 1) == 0 && LeftBehind(slots, 1, 0) == -2
            && Recovered(slots, 0, 2).clean && Recovered(slots, 0, 2).world == -1
  {
    var slots := [Slot(1, 1, Running, [Negate()], 1), Slot(2, 1, Running, [Bump()], 1)];
    assert Unwound([Negate()], 0, 1, 0) == 0 && Unwound([Bump()], 0, 1, 0) == -1;
    assert Recovered(slots, 0, 1).world == 0;
    assert After([Bump()], 1, 1) == 2 && After([Negate()], 2, 1) == -2;
    assert LeftBehind(slots, 1, 2) == 1;
    assert LeftBehind(slots, 1, 1) == 2;
  }
}
