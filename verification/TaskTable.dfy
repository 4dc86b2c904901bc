/** The append-only task table and the bounded walks over its lineage. */
module TaskTable {
  import opened TaskStates
  import opened Widths
  import opened KernelSpec
  import opened KernelLaws

  const NIBBLE_MAX: nat := 15

  function AtMost15(n: nat): nat { if n < 15 then n else 15 }

  /** How many of the first k tasks, other than task i, share its parent. */
  ghost function Siblings(tasks: seq<Task>, i: nat, k: nat): nat
    requires i < |tasks| && k <= |tasks|
  {
    if k == 0 then 0
    else Siblings(tasks, i, k - 1) + if k - 1 != i && tasks[k - 1].parent == tasks[i].parent then 1 else 0
  }

  lemma {:induction false} SiblingsGrow(tasks: seq<Task>, i: nat, j: nat, k: nat)
    requires i < |tasks| && j <= k <= |tasks|
    ensures Siblings(tasks, i, j) <= Siblings(tasks, i, k)
  {
    if j < k { SiblingsGrow(tasks, i, j, k - 1); }
  }

  /** They are as many as there are such tasks. */
  lemma {:induction false} SiblingsAre(tasks: seq<Task>, i: nat, k: nat)
    requires i < |tasks| && k <= |tasks|
    ensures Siblings(tasks, i, k) == |set j: nat | j < k && j != i && tasks[j].parent == tasks[i].parent|
  {
    if k > 0 {
      SiblingsAre(tasks, i, k - 1);
      var was := set j: nat | j < k - 1 && j != i && tasks[j].parent == tasks[i].parent;
      var now := set j: nat | j < k && j != i && tasks[j].parent == tasks[i].parent;
      assert now == if k - 1 != i && tasks[k - 1].parent == tasks[i].parent then was + {k - 1} else was;
    }
  }

  class Table {
    const slots: array<Task>
    const stacks: nat             // where the kernel stacks begin
    var count: nat
    var nextId: Word
    var current: nat              // a slot: the running task is always in the table

    ghost predicate Valid()
      reads this, slots
    {
      && slots.Length == MAX_TASKS && 0 < count <= MAX_TASKS && current < count
      && nextId == count + 1 && stacks + 8 * STACK_SIZE < 0x1_0000_0000
      && Lineage(slots[..count])
    }

    ghost function Tasks(): seq<Task>
      requires count <= slots.Length
      reads this, slots
    {
      slots[..count]
    }

    /** The top of a slot's kernel stack; 0 beyond the runnable ones. */
    function StackTop(slot: nat): Word
      requires stacks + 8 * STACK_SIZE < 0x1_0000_0000
    {
      if slot >= MAX_RUNNABLE then 0 else stacks + (slot + 1) * STACK_SIZE
    }

    constructor (base: nat)
      requires base + 8 * STACK_SIZE < 0x1_0000_0000
      ensures Valid() && fresh(slots) && current == 0 && count == 1 && stacks == base
      ensures Tasks() == [Task(1, NO_PARENT, 0xF, 0, 0, StackTop(0), Running)]
    {
      stacks := base;
      slots := new Task[MAX_TASKS](_ => Task(0, 0, 0, 0, 0, 0, Ready));
      nextId := 1;
      count := 0;
      current := 0;
      new;
      var id := AllocateId();
      slots[0] := Task(id, NO_PARENT, 0xF, 0, 0, StackTop(0), Running);
      count := 1;
      assert TaskOk(slots[..count], 0);
    }

    /** Ids count up from 1; 0 is never given out, even when the counter wraps. */
    method AllocateId() returns (id: Word)
      requires nextId != 0
      modifies `nextId
      ensures id == old(nextId) && nextId != 0
      ensures nextId == if old(nextId) == 0xFFFFFFFF then 1 else old(nextId) + 1
    {
      id := nextId;
      nextId := if nextId == 0xFFFFFFFF then 1 else nextId + 1;
    }

    /** Task ids are slots plus one. */
    method Find(id: Word) returns (slot: int)
      requires Valid()
      ensures slot == if 1 <= id <= count then id - 1 else -1
    {
      if id == 0 { return -1; }
      for i := 0 to count
        invariant id > i
      {
        assert TaskOk(slots[..count], i);
        if slots[i].id == id { return i; }
      }
      return -1;
    }

    method CreateTask(domain: Word, caps: bv32, priority: int) returns (rv: int)
      requires Valid()
      modifies this, slots
      ensures Valid() && current == old(current)
      ensures var n, me := old(count), old(slots[current]);
              && rv == (if n >= MAX_TASKS then -3 else if domain != me.domain && !MayCross(me.caps) then -4 else 0)
              && Tasks() == if rv == 0
                            then old(Tasks()) + [NewTask(n, me, domain, caps, priority, StackTop(n))]
                            else old(Tasks())
    {
      if count >= MAX_TASKS { return -3; }
      var me := slots[current];
      if domain != me.domain && !MayCross(me.caps) { return -4; }
      Install(NewTask(count, me, domain, caps, priority, StackTop(count)), caps);
      return 0;
    }

    /** Puts a child of the current task into the next slot. */
    method Install(t: Task, ghost caps: bv32)
      requires Valid() && count < MAX_TASKS && t.id == count + 1 && t.parent == slots[current].id
      requires t.caps == caps & slots[current].caps
      requires t.domain == slots[current].domain || MayCross(slots[current].caps)
      modifies this, slots
      ensures Valid() && current == old(current) && count == old(count) + 1 && Tasks() == old(Tasks()) + [t]
    {
      ghost var was := slots[..count];
      Extended(was, t, current, caps);
      var slot := count;
      count := count + 1;
      var id := AllocateId();
      slots[slot] := t.(id := id);
      assert slots[..count] == was + [t];
    }

    method SetState(slot: nat, state: TaskState)
      requires Valid() && slot < count
      modifies slots
      ensures Valid() && Tasks() == old(Tasks())[slot := old(Tasks())[slot].(state := state)]
    {
      ghost var was := slots[..count];
      slots[slot] := slots[slot].(state := state);
      assert slots[..count] == was[slot := was[slot].(state := state)];
      forall i | 0 <= i < count ensures TaskOk(slots[..count], i) { assert TaskOk(was, i); }
    }

    /** Hops from a task to the root, saturating at 15. */
    method LineageDepth(slot: nat) returns (depth: nat)
      requires Valid() && slot < count
      ensures depth == AtMost15(Depth(Tasks(), slot))
    {
      ghost var tasks := slots[..count];
      assert TaskOk(tasks, slot);
      depth := 0;
      var pid := slots[slot].parent;
      for guard := 0 to MAX_TASKS
        invariant depth >= guard && (guard < MAX_TASKS ==> depth < NIBBLE_MAX)
        invariant (pid == NO_PARENT || 1 <= pid <= count)
        invariant AtMost15(Depth(tasks, slot)) == AtMost15(depth + if pid == NO_PARENT then 0 else 1 + Depth(tasks, pid - 1))
      {
        if pid == NO_PARENT { return depth; }
        depth := depth + 1;
        if depth >= NIBBLE_MAX { return NIBBLE_MAX; }
        var parent := Find(pid);
        assert TaskOk(tasks, parent);
        pid := slots[parent].parent;
      }
      return NIBBLE_MAX;
    }

    /** Other tasks with the same parent, saturating at 15. */
    method SiblingCount(slot: nat) returns (n: nat)
      requires Valid() && slot < count
      ensures n == AtMost15(Siblings(Tasks(), slot, count))
    {
      ghost var tasks := slots[..count];
      var parent := slots[slot].parent;
      n := 0;
      for i := 0 to count
        invariant n == Siblings(tasks, slot, i) && n < NIBBLE_MAX
      {
        if i == slot { continue; }
        if slots[i].parent == parent {
          n := n + 1;
          if n >= NIBBLE_MAX {
            SiblingsGrow(tasks, slot, i + 1, count);
            return NIBBLE_MAX;
          }
        }
      }
    }
  }

  lemma Extended(tasks: seq<Task>, t: Task, p: nat, caps: bv32)
    requires Lineage(tasks) && p < |tasks|
    requires t.id == |tasks| + 1 && t.parent == tasks[p].id && t.caps == caps & tasks[p].caps
    requires t.domain == tasks[p].domain || MayCross(tasks[p].caps)
    ensures Lineage(tasks + [t])
  {
    assert TaskOk(tasks, p);
    forall i | 0 <= i < |tasks| + 1 ensures TaskOk(tasks + [t], i) {
      if i < |tasks| {
        assert TaskOk(tasks, i);
        OldTaskOk(tasks, t, i);
      } else {
        NewTaskOk(tasks, t, p, caps);
      }
    }
  }
}
