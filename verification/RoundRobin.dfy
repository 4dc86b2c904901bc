/** The round-robin scheduler over the kernel task table. */
module RoundRobin {
  import opened TaskStates

  datatype Slot = Slot(id: nat, state: TaskState)

  predicate Runnable(s: TaskState) { s.Ready? || s.Running? }

  // ------------------------------------------------------------------ reference

  /** How many cursor advances lead from slot `from` to slot `to` of a ring of n: 1 to n. */
  function Distance(n: nat, from: nat, to: nat): nat
    requires from < n && to < n
  {
    if to > from then to - from else to + n - from
  }

  /** Where the scan starts: the code treats a cursor past the table as its last slot. */
  function Origin(n: nat, cursor: nat): nat
    requires n > 0
  {
    if cursor >= n then n - 1 else cursor
  }

  /** k is the runnable slot that the cursor meets first. */
  ghost predicate IsPick(states: seq<TaskState>, cursor: nat, k: nat) {
    && k < |states|
    && Runnable(states[k])
    && var from := Origin(|states|, cursor);
       forall j :: 0 <= j < |states| && Runnable(states[j]) ==>
         Distance(|states|, from, k) <= Distance(|states|, from, j)
  }

  lemma PickUnique(states: seq<TaskState>, cursor: nat, k: nat, m: nat)
    requires IsPick(states, cursor, k) && IsPick(states, cursor, m)
    ensures k == m
  {}

  /** The pick from a cursor within the table: a READY or RUNNING slot with none such after the
      cursor and before it, around the end of the table. */
  lemma PickIs(states: seq<TaskState>, cursor: nat, k: nat)
    requires cursor < |states| && k < |states|
    ensures IsPick(states, cursor, k) <==>
              && (states[k] == Ready || states[k] == Running)
              && forall j :: 0 <= j < |states| && (if k > cursor then cursor < j < k else j > cursor || j < k) ==>
                   states[j] != Ready && states[j] != Running
  {
    if IsPick(states, cursor, k) {
      forall j | 0 <= j < |states| && (if k > cursor then cursor < j < k else j > cursor || j < k)
        ensures states[j] != Ready && states[j] != Running
      {
        assert Distance(|states|, cursor, j) < Distance(|states|, cursor, k);
      }
    } else if Runnable(states[k]) {
      var j :| 0 <= j < |states| && Runnable(states[j]) && Distance(|states|, cursor, k) > Distance(|states|, cursor, j);
      assert if k > cursor then cursor < j < k else j > cursor || j < k;
    }
  }

  // ------------------------------------------------------------------- the code

  class Scheduler {
    var cursor: nat

    constructor ()
      ensures cursor == 0
    {
      cursor := 0;
    }

    /** Every RUNNING slot goes back to READY; nothing else changes. */
    method Yield(table: array<Slot>, n: nat)
      requires n <= table.Length
      modifies table
      ensures forall i :: 0 <= i < table.Length ==>
                table[i] == if i < n && old(table[i]).state.Running?
                            then old(table[i]).(state := Ready) else old(table[i])
    {
      for i := 0 to n
        invariant forall k :: 0 <= k < table.Length ==>
                    table[k] == if k < i && old(table[k]).state.Running?
                                then old(table[k]).(state := Ready) else old(table[k])
      {
        if table[i].state.Running? {
          table[i] := table[i].(state := Ready);
        }
      }
    }

    /** A schedule succeeds exactly when some slot was READY or RUNNING. It then runs the
        first such slot after the cursor, alone, and moves the cursor there. */
    method Schedule(table: array<Slot>, n: nat) returns (ok: bool, next: nat)
      requires n <= table.Length
      modifies this, table
      ensures ok <==> exists k :: 0 <= k < n && Runnable(old(table[k]).state)
      ensures ok ==> IsPick(old(States(table, n)), old(cursor), cursor) && cursor < n && next == table[cursor].id
      ensures !ok ==> cursor == (if n == 0 then old(cursor) else Origin(n, old(cursor)))
      ensures forall i :: 0 <= i < table.Length ==>
                table[i] == if i >= n then old(table[i])
                            else if ok && i == cursor then old(table[i]).(state := Running)
                            else if old(table[i]).state.Running? then old(table[i]).(state := Ready)
                            else old(table[i])
    {
      ok, next := false, 0;
      if n == 0 { return; }
      Yield(table, n);
      ghost var from := Origin(n, cursor);
      label scan:
      for checked := 0 to n
        invariant checked == 0 ==> cursor == old(cursor)
        invariant checked > 0 ==> cursor < n && Distance(n, from, cursor) == checked
        invariant forall j :: 0 <= j < n && Runnable(old(table[j]).state) ==> Distance(n, from, j) > checked
        invariant forall i :: 0 <= i < table.Length ==> table[i] == old@scan(table[i])
      {
        cursor := if cursor + 1 >= n then 0 else cursor + 1;
        if table[cursor].state.Ready? {
          table[cursor] := table[cursor].(state := Running);
          next := table[cursor].id;
          return true, next;
        }
      }
    }
  }

  ghost function States(table: array<Slot>, n: nat): seq<TaskState>
    requires n <= table.Length
    reads table
  {
    seq(n, i requires 0 <= i < n reads table => table[i].state)
  }

  lemma OneRunning(was: seq<TaskState>, now: seq<TaskState>, k: nat)
    requires |now| == |was| && k < |was|
    requires forall i :: 0 <= i < |was| ==>
               now[i] == if i == k then Running else if was[i].Running? then Ready else was[i]
    ensures forall i :: 0 <= i < |was| ==> (now[i].Running? <==> i == k)
    ensures forall i :: 0 <= i < |was| ==> (Runnable(now[i]) <==> Runnable(was[i]) || i == k)
  {}

  // ------------------------------------------------------------- bounded waiting

  /** One schedule brings the cursor strictly closer to any runnable slot it did not pick. */
  lemma CloserOrPicked(states: seq<TaskState>, cursor: nat, k: nat, j: nat)
    requires cursor < |states| && j < |states| && Runnable(states[j])
    requires IsPick(states, cursor, k)
    ensures k != j ==> Distance(|states|, k, j) < Distance(|states|, cursor, j)
  {}

  /** `cursors` is a run of schedules over a table of n slots. Before schedule i the other
      parties leave the table in `tables[i]`, whatever they please. */
  ghost predicate IsRun(n: nat, tables: seq<seq<TaskState>>, cursors: seq<nat>) {
    && |cursors| == |tables| + 1
    && cursors[0] < n
    && forall i {:trigger tables[i]} :: 0 <= i < |tables| ==>
         |tables[i]| == n && IsPick(tables[i], cursors[i], cursors[i + 1])
  }

  /** A slot that stays runnable is chosen within as many schedules as the cursor is
      steps away from it, hence within n, whatever happens to the other slots. */
  lemma {:induction false} BoundedWaiting(
      n: nat, tables: seq<seq<TaskState>>, cursors: seq<nat>, j: nat) returns (when: nat)
    requires IsRun(n, tables, cursors) && j < n
    requires |tables| >= Distance(n, cursors[0], j)
    requires forall i :: 0 <= i < |tables| ==> Runnable(tables[i][j])
    ensures when < Distance(n, cursors[0], j) <= n
    ensures cursors[when + 1] == j
    decreases |tables|
  {
    assert |tables[0]| == n;
    CloserOrPicked(tables[0], cursors[0], cursors[1], j);
    if cursors[1] == j {
      when := 0;
    } else {
      var rest, later := tables[1..], cursors[1..];
      assert forall i :: 0 <= i < |rest| ==> rest[i] == tables[i + 1] && later[i] == cursors[i + 1];
      var w := BoundedWaiting(n, rest, later, j);
      when := w + 1;
    }
  }
}
