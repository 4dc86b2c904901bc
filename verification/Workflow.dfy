/** The durable workflow engine: what a list of compensable steps means, and the trace
    that a run of it writes. */
module WorkflowSpec {

  const MAX_STEPS: nat := 8
  const MAX_ACTIVE: nat := 4

  /** A step callback, possibly absent. It maps the world it runs in to the next world and
      a return code, 0 for success. */
  datatype Callback<!W> = Null | Fn(f: W -> (W, int)) {
    function Call(w: W): (W, int) {
      if Null? then (w, 0) else f(w)
    }
  }

  datatype Step<!W> = Step(name: string, run: Callback<W>, undo: Callback<W>)

  datatype Status = Idle | Running | Committed | RollingBack | RolledBack | Failed

  datatype Kind = Begin | StepOk | StepFail | UndoOk | UndoFail | Commit | RolledBackEv | FailedEv

  /** One telemetry record: the step index (or the step count, for the workflow itself), the
      event, and the slot's status, undo cursor and return code when it was written. */
  datatype Event = Event(index: nat, kind: Kind, status: Status, done: nat, rv: int)

  /** An event together with the world at the moment it was written. */
  datatype Entry<W> = Entry(id: nat, ev: Event, world: W)

  // -------------------------------------------------------------- forward meaning

  /** The world after the first k steps have run. */
  function After<W>(steps: seq<Step<W>>, w: W, k: nat): W
    requires k <= |steps|
  {
    if k == 0 then w else steps[k - 1].run.Call(After(steps, w, k - 1)).0
  }

  function RunCode<W>(steps: seq<Step<W>>, w: W, i: nat): int
    requires i < |steps|
  {
    steps[i].run.Call(After(steps, w, i)).1
  }

  /** The first step at or after i whose run fails, or the number of steps. */
  function FirstFailure<W>(steps: seq<Step<W>>, w: W, i: nat := 0): (f: nat)
    requires i <= |steps|
    ensures i <= f <= |steps|
    ensures forall j :: i <= j < f ==> RunCode(steps, w, j) == 0
    ensures f < |steps| ==> RunCode(steps, w, f) != 0
    decreases |steps| - i
  {
    if i == |steps| || RunCode(steps, w, i) != 0 then i else FirstFailure(steps, w, i + 1)
  }

  // ------------------------------------------------------------- backward meaning

  /** The world after undoing steps k-1, k-2, .., j, starting from u. */
  function Unwound<W>(steps: seq<Step<W>>, u: W, k: nat, j: nat): W
    requires j <= k <= |steps|
    decreases k - j
  {
    if j == k then u else steps[j].undo.Call(Unwound(steps, u, k, j + 1)).0
  }

  function UndoCode<W>(steps: seq<Step<W>>, u: W, k: nat, j: nat): int
    requires j < k <= |steps|
  {
    steps[j].undo.Call(Unwound(steps, u, k, j + 1)).1
  }

  /** Some undo among steps k-1 .. j returns non-zero. */
  predicate UndoFails<W>(steps: seq<Step<W>>, u: W, k: nat, j: nat)
    requires j <= k <= |steps|
    decreases k - j
  {
    j < k && (UndoFails(steps, u, k, j + 1) || UndoCode(steps, u, k, j) != 0)
  }

  // -------------------------------------------------------------------- the trace

  function Intent<W>(id: nat, steps: seq<Step<W>>, w: W, i: nat): Entry<W>
    requires i < |steps|
  {
    Entry(id, Event(i, Begin, Running, i, 0), After(steps, w, i))
  }

  function Outcome<W>(id: nat, steps: seq<Step<W>>, w: W, i: nat): Entry<W>
    requires i < |steps|
  {
    Entry(id, Event(i, StepOk, Running, i, 0), After(steps, w, i + 1))
  }

  function ForwardEntry<W>(id: nat, steps: seq<Step<W>>, w: W, p: nat): Entry<W>
    requires p <= 2 * |steps|
  {
    if p == 0 then Entry(id, Event(|steps|, Begin, Running, 0, 0), w)
    else if p % 2 == 1 then Intent(id, steps, w, p / 2)
    else Outcome(id, steps, w, p / 2 - 1)
  }

  /** The workflow's begin record, then an intent and an OK record for each of k steps. */
  function ForwardTrace<W>(id: nat, steps: seq<Step<W>>, w: W, k: nat): (t: seq<Entry<W>>)
    requires k <= |steps|
    ensures |t| == 2 * k + 1
  {
    seq(2 * k + 1, p requires 0 <= p < 2 * k + 1 => ForwardEntry(id, steps, w, p))
  }

  lemma ForwardSnoc<W>(id: nat, steps: seq<Step<W>>, w: W, k: nat)
    requires k < |steps|
    ensures ForwardTrace(id, steps, w, k + 1)
            == ForwardTrace(id, steps, w, k) + [Intent(id, steps, w, k), Outcome(id, steps, w, k)]
  {}

  /** One record for each undo that exists among steps k-1 .. j. */
  function UndoTrace<W>(id: nat, steps: seq<Step<W>>, u: W, k: nat, j: nat): seq<Entry<W>>
    requires j <= k <= |steps|
    decreases k - j
  {
    if j == k then []
    else UndoTrace(id, steps, u, k, j + 1)
         + (if steps[j].undo.Null? then [] else
              var rv := UndoCode(steps, u, k, j);
              [Entry(id, Event(j, if rv != 0 then UndoFail else UndoOk, RollingBack, k, rv),
                     Unwound(steps, u, k, j))])
  }

  /** The terminal record of an unwind. */
  function UnwindEnd<W>(id: nat, steps: seq<Step<W>>, u: W, k: nat): Entry<W>
    requires k <= |steps|
  {
    Entry(id, if UndoFails(steps, u, k, 0) then Event(|steps|, FailedEv, Failed, 0, -1)
              else Event(|steps|, RolledBackEv, RolledBack, 0, 0),
          Unwound(steps, u, k, 0))
  }

  function UnwindTrace<W>(id: nat, steps: seq<Step<W>>, u: W, k: nat): seq<Entry<W>>
    requires k <= |steps|
  {
    UndoTrace(id, steps, u, k, 0) + [UnwindEnd(id, steps, u, k)]
  }

  /** The records up to the failing step f, whose run returned non-zero. */
  function FailureTrace<W>(id: nat, steps: seq<Step<W>>, w: W, f: nat): seq<Entry<W>>
    requires f < |steps|
  {
    ForwardTrace(id, steps, w, f)
    + [Intent(id, steps, w, f),
       Entry(id, Event(f, StepFail, Running, f, RunCode(steps, w, f)), After(steps, w, f + 1))]
  }

  /** Everything a run writes. */
  function RunTrace<W>(id: nat, steps: seq<Step<W>>, w: W): seq<Entry<W>> {
    var n, f := |steps|, FirstFailure(steps, w);
    if f == n then
      ForwardTrace(id, steps, w, n) + [Entry(id, Event(n, Commit, Committed, n, 0), After(steps, w, n))]
    else
      FailureTrace(id, steps, w, f) + UnwindTrace(id, steps, After(steps, w, f + 1), f)
  }

  function RunStatus<W>(steps: seq<Step<W>>, w: W): Status {
    var f := FirstFailure(steps, w);
    if f == |steps| then Committed
    else if UndoFails(steps, After(steps, w, f + 1), f, 0) then Failed
    else RolledBack
  }

  function RunWorld<W>(steps: seq<Step<W>>, w: W): W {
    var f := FirstFailure(steps, w);
    if f == |steps| then After(steps, w, f) else Unwound(steps, After(steps, w, f + 1), f, 0)
  }
}

/** The engine itself: a table of slots over a shared world. */
module WorkflowEngine {
  import opened WorkflowSpec

  datatype Slot<!W> = Slot(id: nat, owner: nat, status: Status, steps: seq<Step<W>>, done: nat)

  function Released<W>(): Slot<W> { Slot(0, 0, Idle, [], 0) }

  predicate Abandoned<W>(s: Slot<W>) { s.status.Running? || s.status.RollingBack? }

  /** A slot's undo cursor stays within its step list, a list has at most 8 steps, and an idle
      slot is blank. */
  ghost predicate SlotOk<W>(s: Slot<W>) {
    s.done <= |s.steps| <= MAX_STEPS && (s.status.Idle? ==> s == Released())
  }

  // ------------------------------------------------------------- recovery, as a fold

  datatype Recovery<!W> = Recovery(slots: seq<Slot<W>>, world: W, trace: seq<Entry<W>>, clean: bool)

  /** Recovery of slot i: an abandoned slot with steps is unwound, and freed if every undo
      succeeded; one without steps is marked; any other slot is left alone. */
  function RecoverSlot<W>(r: Recovery<W>, i: nat): Recovery<W>
    requires i < |r.slots| && SlotOk(r.slots[i])
  {
    var s := r.slots[i];
    if !Abandoned(s) then r
    else if s.steps == [] then r.(slots := r.slots[i := s.(status := Failed)], clean := false)
    else
      var t := r.(world := Unwound(s.steps, r.world, s.done, 0),
                  trace := r.trace + UnwindTrace(s.id, s.steps, r.world, s.done));
      if UndoFails(s.steps, r.world, s.done, 0)
      then t.(slots := r.slots[i := s.(status := Failed, done := 0)], clean := false)
      else t.(slots := r.slots[i := Released()])
  }

  /** The state after the slots below n have been visited in index order. */
  function Recovered<W>(slots: seq<Slot<W>>, w: W, n: nat): (r: Recovery<W>)
    requires n <= |slots| && forall i :: 0 <= i < |slots| ==> SlotOk(slots[i])
    ensures |r.slots| == |slots| && forall i :: n <= i < |slots| ==> r.slots[i] == slots[i]
  {
    if n == 0 then Recovery(slots, w, [], true)
    else RecoverSlot(Recovered(slots, w, n - 1), n - 1)
  }

  lemma Regroup<X>(a: seq<X>, b: seq<X>, c: seq<X>)
    ensures (a + b) + c == a + (b + c)
  {}

  /** Recovering a slot appends to the trace and can only clear the clean flag. */
  lemma RecoverSlotFrom<W>(r: Recovery<W>, i: nat, before: seq<Entry<W>>)
    requires i < |r.slots| && SlotOk(r.slots[i])
    ensures var s, t := RecoverSlot(Recovery(r.slots, r.world, before + r.trace, true), i), RecoverSlot(r, i);
            && t.slots == s.slots && t.world == s.world && s.trace == before + t.trace
            && t.clean == (r.clean && s.clean)
  {
    var s := r.slots[i];
    Regroup(before, r.trace, UnwindTrace(s.id, s.steps, r.world, s.done));
  }

  class Engine<W(!new)> {
    const table: array<Slot<W>>
    const takeId: W -> (W, nat)     // the kernel's transaction-id allocator
    var world: W
    ghost var trace: seq<Entry<W>>

    ghost predicate Valid()
      reads this, table
    {
      table.Length == MAX_ACTIVE && forall i :: 0 <= i < MAX_ACTIVE ==> SlotOk(table[i])
    }

    constructor (w: W, takeId: W -> (W, nat))
      ensures Valid() && fresh(table) && world == w && this.takeId == takeId && trace == []
      ensures forall i :: 0 <= i < MAX_ACTIVE ==> table[i] == Released()
    {
      table := new Slot<W>[MAX_ACTIVE](_ => Released());
      this.takeId := takeId;
      world := w;
      trace := [];
    }

    method ActiveCount() returns (n: nat)
      requires Valid()
      ensures n == |set i: nat | i < MAX_ACTIVE && !table[i].status.Idle?|
    {
      n := 0;
      ghost var seen: set<nat> := {};
      for i := 0 to MAX_ACTIVE
        invariant seen == set k: nat | k < i && !table[k].status.Idle?
        invariant n == |seen|
      {
        if !table[i].status.Idle? {
          n := n + 1;
          seen := seen + {i};
        }
      }
    }

    /** Claims the lowest idle slot, or returns -1 on a bad step list or a full table. */
    method Begin(steps: seq<Step<W>>, owner: nat) returns (wf: int)
      requires Valid()
      modifies this`world, table
      ensures Valid()
      ensures wf == -1 <==>
                || |steps| == 0 || |steps| > 8 || (exists i :: 0 <= i < |steps| && steps[i].run.Null?)
                || forall i :: 0 <= i < MAX_ACTIVE ==> !old(table[i]).status.Idle?
      ensures wf == -1 ==> world == old(world) && table[..] == old(table[..])
      ensures wf != -1 ==>
                && 0 <= wf < MAX_ACTIVE && old(table[wf]).status.Idle?
                && (forall i :: 0 <= i < wf ==> !old(table[i]).status.Idle?)
                && world == takeId(old(world)).0
                && table[..] == old(table[..])[wf := Slot(takeId(old(world)).1, owner, Running, steps, 0)]
    {
      if |steps| == 0 || |steps| > MAX_STEPS { return -1; }
      for i := 0 to |steps|
        invariant forall k :: 0 <= k < i ==> !steps[k].run.Null?
      {
        if steps[i].run.Null? { return -1; }
      }
      for i := 0 to MAX_ACTIVE
        invariant world == old(world) && table[..] == old(table[..])
        invariant forall k :: 0 <= k < i ==> !table[k].status.Idle?
      {
        if table[i].status.Idle? {
          var (w, id) := takeId(world);
          world := w;
          table[i] := Slot(id, owner, Running, steps, 0);
          return i;
        }
      }
      return -1;
    }

    method Release(wf: int)
      requires Valid() && -1 <= wf < MAX_ACTIVE
      modifies table
      ensures Valid()
      ensures table[..] == if wf == -1 then old(table[..]) else old(table[..])[wf := Released()]
    {
      if wf == -1 { return; }
      table[wf] := Released();
    }

    ghost method Emit(wf: nat, index: nat, kind: Kind, rv: int)
      requires Valid() && wf < MAX_ACTIVE
      modifies this`trace
      ensures trace == old(trace) + [Entry(table[wf].id, Event(index, kind, table[wf].status, table[wf].done, rv), world)]
    {
      trace := trace + [Entry(table[wf].id, Event(index, kind, table[wf].status, table[wf].done, rv), world)];
    }

    /** Calls the undo of step j and records its return code. */
    method UndoStep(wf: nat, j: nat) returns (code: int)
      requires Valid() && wf < MAX_ACTIVE && j < |table[wf].steps|
      modifies this`world, this`trace
      ensures (world, code) == table[wf].steps[j].undo.Call(old(world))
      ensures trace == old(trace) + [Entry(table[wf].id, Event(j, if code != 0 then UndoFail else UndoOk,
                                                               table[wf].status, table[wf].done, code), world)]
    {
      var (w, rv) := table[wf].steps[j].undo.Call(world);
      world := w;
      code := rv;
      if code != 0 {
        Emit(wf, j, UndoFail, code);
      } else {
        Emit(wf, j, UndoOk, 0);
      }
    }

    /** The undo chain. Its loop is bounded by the constant 8, not by the cursor. */
    method Unwind(wf: nat) returns (rv: int)
      requires Valid() && wf < MAX_ACTIVE
      modifies this`world, this`trace, table
      ensures Valid()
      ensures var s, u := old(table[wf]), old(world);
              var bad := UndoFails(s.steps, u, s.done, 0);
              && world == Unwound(s.steps, u, s.done, 0)
              && trace == old(trace) + UnwindTrace(s.id, s.steps, u, s.done)
              && table[..] == old(table[..])[wf := s.(status := if bad then Failed else RolledBack, done := 0)]
              && rv == if bad then -1 else 0
    {
      ghost var s, u := table[wf], world;
      var steps := table[wf].steps;
      var remaining := table[wf].done;
      var undoFailed := false;
      table[wf] := table[wf].(status := RollingBack);
      for k := 0 to MAX_STEPS
        invariant remaining == if k <= s.done then s.done - k else 0
        invariant Valid() && table[..] == old(table[..])[wf := s.(status := RollingBack)]
        invariant world == Unwound(s.steps, u, s.done, remaining)
        invariant undoFailed == UndoFails(s.steps, u, s.done, remaining)
        invariant trace == old(trace) + UndoTrace(s.id, s.steps, u, s.done, remaining)
      {
        if remaining == 0 { break; }
        remaining := remaining - 1;
        if steps[remaining].undo.Null? { continue; }
        ghost var before := trace;
        var code := UndoStep(wf, remaining);
        Regroup(old(trace), UndoTrace(s.id, s.steps, u, s.done, remaining + 1), trace[|before|..]);
        undoFailed := undoFailed || code != 0;
      }
      assert remaining == 0;
      rv := EndUnwind(wf, undoFailed);
      Regroup(old(trace), UndoTrace(s.id, s.steps, u, s.done, 0), [UnwindEnd(s.id, s.steps, u, s.done)]);
    }

    /** Clears the cursor and settles the slot's status. */
    method EndUnwind(wf: nat, undoFailed: bool) returns (rv: int)
      requires Valid() && wf < MAX_ACTIVE && table[wf].status.RollingBack?
      modifies this`trace, table
      ensures Valid() && rv == if undoFailed then -1 else 0
      ensures var s := old(table[wf]);
              && table[..] == old(table[..])[wf := s.(status := if undoFailed then Failed else RolledBack, done := 0)]
              && trace == old(trace)
                 + [Entry(s.id, if undoFailed then Event(|s.steps|, FailedEv, Failed, 0, -1)
                                else Event(|s.steps|, RolledBackEv, RolledBack, 0, 0), world)]
    {
      table[wf] := table[wf].(done := 0);
      if undoFailed {
        table[wf] := table[wf].(status := Failed);
        Emit(wf, |table[wf].steps|, FailedEv, -1);
        return -1;
      }
      table[wf] := table[wf].(status := RolledBack);
      Emit(wf, |table[wf].steps|, RolledBackEv, 0);
      return 0;
    }

    /** One step boundary: the intent record, the callback, its outcome record, the cursor. */
    method RunStep(wf: nat, i: nat) returns (code: int)
      requires Valid() && wf < MAX_ACTIVE && i < |table[wf].steps| && table[wf].done == i
      modifies this`world, this`trace, table
      ensures Valid()
      ensures var s := old(table[wf]);
              && (world, code) == s.steps[i].run.Call(old(world))
              && table[..] == old(table[..])[wf := s.(done := if code == 0 then i + 1 else i)]
              && trace == old(trace)
                 + [Entry(s.id, Event(i, Kind.Begin, s.status, i, 0), old(world)),
                    Entry(s.id, Event(i, if code == 0 then StepOk else StepFail, s.status, i, code), world)]
    {
      Emit(wf, i, Kind.Begin, 0);
      var (w', rv) := table[wf].steps[i].run.Call(world);
      world := w';
      code := rv;
      if code != 0 {
        Emit(wf, i, StepFail, code);
        return;
      }
      Emit(wf, i, StepOk, 0);
      table[wf] := table[wf].(done := table[wf].done + 1);
    }

    /** The forward pass: stops behind the last step or at the first failing one. */
    method RunForward(wf: nat) returns (code: int)
      requires Valid() && wf < MAX_ACTIVE && table[wf].status.Running? && table[wf].done == 0
      modifies this`world, this`trace, table
      ensures Valid()
      ensures var s, w := old(table[wf]), old(world);
              var f := FirstFailure(s.steps, w);
              && (code == 0 <==> f == |s.steps|)
              && world == After(s.steps, w, if code == 0 then f else f + 1)
              && table[..] == old(table[..])[wf := s.(done := f)]
              && trace == old(trace) + if code == 0 then ForwardTrace(s.id, s.steps, w, f)
                                       else FailureTrace(s.id, s.steps, w, f)
    {
      ghost var s, w := table[wf], world;
      var count := |table[wf].steps|;
      Emit(wf, count, Kind.Begin, 0);
      for i := 0 to count
        invariant Valid() && table[..] == old(table[..])[wf := s.(done := i)]
        invariant world == After(s.steps, w, i)
        invariant FirstFailure(s.steps, w) == FirstFailure(s.steps, w, i)
        invariant trace == old(trace) + ForwardTrace(s.id, s.steps, w, i)
      {
        ghost var before := trace;
        ForwardSnoc(s.id, s.steps, w, i);
        code := RunStep(wf, i);
        assert code == RunCode(s.steps, w, i);
        Regroup(old(trace), ForwardTrace(s.id, s.steps, w, i), trace[|before|..]);
        if code != 0 { return; }
      }
      return 0;
    }

    /** Runs a freshly begun slot to a terminal status. */
    method Run(wf: int) returns (rv: int)
      requires Valid() && -1 <= wf < MAX_ACTIVE
      requires wf != -1 && table[wf].status.Running? ==> table[wf].done == 0
      modifies this`world, this`trace, table
      ensures Valid()
      ensures wf == -1 || !old(table[wf]).status.Running? || old(table[wf]).steps == [] ==>
                rv == -1 && world == old(world) && trace == old(trace) && table[..] == old(table[..])
      ensures wf != -1 && old(table[wf]).status.Running? && old(table[wf]).steps != [] ==>
                var s, w := old(table[wf]), old(world);
                var status := RunStatus(s.steps, w);
                && world == RunWorld(s.steps, w)
                && trace == old(trace) + RunTrace(s.id, s.steps, w)
                && table[..] == old(table[..])[wf := s.(status := status,
                                                        done := if status.Committed? then |s.steps| else 0)]
                && rv == if status.Committed? then 0 else -1
    {
      if wf == -1 || table[wf].steps == [] || !table[wf].status.Running? { return -1; }
      ghost var s, w := table[wf], world;
      ghost var f := FirstFailure(s.steps, w);
      var count := |table[wf].steps|;
      var code := RunForward(wf);
      if code != 0 {
        var _ := Unwind(wf);
        Regroup(old(trace), FailureTrace(s.id, s.steps, w, f), UnwindTrace(s.id, s.steps, After(s.steps, w, f + 1), f));
        return -1;
      }
      table[wf] := table[wf].(status := Committed);
      Emit(wf, count, Commit, 0);
      Regroup(old(trace), ForwardTrace(s.id, s.steps, w, f), [Entry(s.id, Event(f, Commit, Committed, f, 0), world)]);
      return 0;
    }

    /** Visits every slot and reverses the abandoned ones. */
    method Recover() returns (rv: int)
      requires Valid()
      modifies this`world, this`trace, table
      ensures Valid()
      ensures var r := Recovered(old(table[..]), old(world), MAX_ACTIVE);
              && table[..] == r.slots && world == r.world && trace == old(trace) + r.trace
              && rv == if r.clean then 0 else -1
    {
      rv := 0;
      for i := 0 to MAX_ACTIVE
        invariant Valid()
        invariant var r := Recovered(old(table[..]), old(world), i);
                  && table[..] == r.slots && world == r.world && trace == old(trace) + r.trace
                  && rv == if r.clean then 0 else -1
      {
        RecoverSlotFrom(Recovered(old(table[..]), old(world), i), i, old(trace));
        var code := RecoverOne(i);
        if code != 0 { rv := -1; }
      }
    }

    /** Reverses slot i if it was abandoned: freed when clean, kept as FAILED otherwise. */
    method RecoverOne(i: nat) returns (rv: int)
      requires Valid() && i < MAX_ACTIVE
      modifies this`world, this`trace, table
      ensures Valid()
      ensures var r := RecoverSlot(Recovery(old(table[..]), old(world), old(trace), true), i);
              && table[..] == r.slots && world == r.world && trace == r.trace
              && rv == if r.clean then 0 else -1
    {
      if !table[i].status.Running? && !table[i].status.RollingBack? { return 0; }
      if table[i].steps == [] {
        table[i] := table[i].(status := Failed);
        return -1;
      }
      var code := Unwind(i);
      if code != 0 { return -1; }
      Release(i);
      return 0;
    }
  }
}
