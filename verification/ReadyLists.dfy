/** task.c: the five intrusive ready lists, and the operations that enqueue, dequeue, pop and choose. */
module ReadyLists {
  import opened Words
  import opened Seqs
  import opened DLists
  import opened Sched

  /** TASK_INFO.  Id, priority and stack are set once, when the task is created. */
  class TaskInfo {
    const taskId: nat
    const priority: nat
    const stkBottom: Word
    var next: TaskInfo?
    var prev: TaskInfo?
    var status: Status
    var context: Word
    var pgtbase: Word

    constructor (taskId: nat, priority: nat, stkBottom: Word, context: Word)
      ensures this.taskId == taskId && this.priority == priority && this.stkBottom == stkBottom
      ensures this.context == context && status == Ready && pgtbase == 0 && next == null && prev == null
    {
      this.taskId, this.priority, this.stkBottom := taskId, priority, stkBottom;
      this.context, status, pgtbase := context, Ready, 0;
      next, prev := null, null;
    }
  }

  ghost predicate Numbered(tasks: seq<TaskInfo>) {
    forall i :: 0 <= i < |tasks| ==> tasks[i].taskId == i
  }

  ghost function Nexts(tasks: seq<TaskInfo>): (nx: seq<TaskInfo?>)
    reads tasks`next
    ensures |nx| == |tasks| && forall i :: 0 <= i < |tasks| ==> nx[i] == tasks[i].next
  {
    if tasks == [] then [] else [tasks[0].next] + Nexts(tasks[1..])
  }

  ghost function Prevs(tasks: seq<TaskInfo>): (pv: seq<TaskInfo?>)
    reads tasks`prev
    ensures |pv| == |tasks| && forall i :: 0 <= i < |tasks| ==> pv[i] == tasks[i].prev
  {
    if tasks == [] then [] else [tasks[0].prev] + Prevs(tasks[1..])
  }

  ghost predicate List(tasks: seq<TaskInfo>, ids: seq<nat>, head: TaskInfo?)
    reads tasks`next, tasks`prev
  {
    Anchored(tasks, Nexts(tasks), Prevs(tasks), null, ids, head)
  }

  method SetNext(ghost tasks: seq<TaskInfo>, task: TaskInfo, next: TaskInfo?)
    requires Numbered(tasks) && task.taskId < |tasks| && task == tasks[task.taskId]
    modifies task`next
    ensures Nexts(tasks) == old(Nexts(tasks))[task.taskId := next] && Prevs(tasks) == old(Prevs(tasks))
  {
    hide Nexts, Prevs;
    task.next := next;
  }

  method SetPrev(ghost tasks: seq<TaskInfo>, task: TaskInfo, prev: TaskInfo?)
    requires Numbered(tasks) && task.taskId < |tasks| && task == tasks[task.taskId]
    modifies task`prev
    ensures Prevs(tasks) == old(Prevs(tasks))[task.taskId := prev] && Nexts(tasks) == old(Nexts(tasks))
  {
    hide Nexts, Prevs;
    task.prev := prev;
  }

  /** The links of tasks outside ids are what they were. */
  twostate predicate OthersKept(tasks: seq<TaskInfo>, ids: seq<nat>)
    reads tasks`next, tasks`prev
  {
    forall i :: 0 <= i < |tasks| && i !in ids ==>
      tasks[i].next == old(tasks[i].next) && tasks[i].prev == old(tasks[i].prev)
  }

  method ListEnd(ghost tasks: seq<TaskInfo>, ghost ids: seq<nat>, head: TaskInfo) returns (end: TaskInfo)
    requires ids != [] && List(tasks, ids, head)
    ensures ids[|ids| - 1] < |tasks| && end == tasks[ids[|ids| - 1]]
  {
    hide Linked, Nexts, Prevs;
    end := head;
    ghost var k := 0;
    LinkedNext(tasks, Nexts(tasks), Prevs(tasks), null, ids, head, 0);
    while end.next != null
      invariant 0 <= k < |ids| && ids[k] < |tasks| && end == tasks[ids[k]]
      invariant k + 1 < |ids| ==> ids[k + 1] < |tasks|
      invariant end.next == if k + 1 < |ids| then tasks[ids[k + 1]] else null
      decreases |ids| - k
    {
      end := end.next;
      k := k + 1;
      LinkedNext(tasks, Nexts(tasks), Prevs(tasks), null, ids, head, k);
    }
  }

  /** task_enqueue on one list: returns the head, which is new when the list was empty. */
  method Append(ghost tasks: seq<TaskInfo>, ghost ids: seq<nat>, head: TaskInfo?, task: TaskInfo) returns (h: TaskInfo)
    requires Numbered(tasks) && List(tasks, ids, head) && NoDup(ids)
    requires task.taskId < |tasks| && task == tasks[task.taskId] && task.taskId !in ids
    modifies tasks`next, tasks`prev
    ensures List(tasks, ids + [task.taskId], h) && OthersKept(tasks, ids + [task.taskId])
  {
    hide Linked, Nexts, Prevs, NoDup;
    ghost var nx, pv := Nexts(tasks), Prevs(tasks);
    HeadIsNil(tasks, nx, pv, null, ids, head);
    if head == null {
      SetNext(tasks, task, null);
      SetPrev(tasks, task, null);
      SingleNode(tasks, Nexts(tasks), Prevs(tasks), null, task.taskId);
      assert ids + [task.taskId] == [task.taskId];
      return task;
    }
    var end := ListEnd(tasks, ids, head);
    LinkedAppend(tasks, nx, pv, null, ids, head, task.taskId);
    SetNext(tasks, end, task);
    SetPrev(tasks, task, end);
    SetNext(tasks, task, null);
    assert ids[|ids| - 1] in ids;
    h := head;
  }

  /** task_dequeue on one non-empty list: the second task becomes the head. */
  method RemoveFirst(ghost tasks: seq<TaskInfo>, ghost ids: seq<nat>, head: TaskInfo) returns (h: TaskInfo?)
    requires Numbered(tasks) && List(tasks, ids, head) && NoDup(ids) && ids != []
    modifies tasks`next, tasks`prev
    ensures ids[0] < |tasks| && head == tasks[ids[0]]
    ensures List(tasks, ids[1..], h) && OthersKept(tasks, ids)
  {
    hide Linked, Nexts, Prevs, NoDup, Without;
    ghost var nx, pv := Nexts(tasks), Prevs(tasks);
    LinkedNext(tasks, nx, pv, null, ids, head, 0);
    if head.next == null {
      NoNodes<TaskInfo?>(tasks, nx, pv, null);
      return null;
    }
    h := head.next;
    RemoveHead(tasks, nx, pv, null, ids, head);
    WithoutAt(ids, 0);
    assert ids[..0] + ids[1..] == ids[1..];
    SetPrev(tasks, h, null);
    SetNext(tasks, head, null);
    assert ids[0] in ids && ids[1] in ids;
  }

  /** task_pop on one non-empty list: a task with a successor stays where it is. */
  method RemoveLastOnly(ghost tasks: seq<TaskInfo>, ghost ids: seq<nat>, head: TaskInfo, task: TaskInfo)
    returns (h: TaskInfo?)
    requires Numbered(tasks) && List(tasks, ids, head) && NoDup(ids) && ids != []
    requires task.taskId in ids && task.taskId < |tasks| && task == tasks[task.taskId]
    modifies tasks`next, tasks`prev
    ensures List(tasks, Pop(ids, task.taskId), h) && OthersKept(tasks, ids)
  {
    hide Linked, Nexts, Prevs, NoDup, Without;
    ghost var nx, pv := Nexts(tasks), Prevs(tasks);
    ghost var k :| 0 <= k < |ids| && ids[k] == task.taskId;
    LinkedNext(tasks, nx, pv, null, ids, head, k);
    LinkedNext(tasks, nx, pv, null, ids, head, 0);
    if task.next != null {
      NotLast(ids, k);
      return head;
    }
    assert k == |ids| - 1;
    if head.next == null {
      assert Pop(ids, task.taskId) == [];
      NoNodes<TaskInfo?>(tasks, nx, pv, null);
      return null;
    }
    var prev := task.prev;
    RemoveLast(tasks, nx, pv, null, ids, head);
    WithoutAt(ids, k);
    assert ids[..k] + ids[k + 1..] == Pop(ids, task.taskId);
    SetNext(tasks, prev, null);
    SetNext(tasks, task, null);
    SetPrev(tasks, task, null);
    assert ids[k] in ids && ids[k - 1] in ids;
    assert Nexts(tasks) == nx[ids[k - 1] := null];
    h := head;
  }

  lemma NotLast(ids: seq<nat>, k: nat)
    requires NoDup(ids) && k < |ids| - 1
    ensures Pop(ids, ids[k]) == ids
  {
  }

  /** What is known of list p, its head included. */
  ghost predicate QueueOk(tasks: seq<TaskInfo>, ids: seq<nat>, head: TaskInfo?, p: nat)
    reads tasks`next, tasks`prev
  {
    && NoDup(ids) && List(tasks, ids, head)
    && (forall i :: 0 <= i < |ids| ==> ids[i] < |tasks| && tasks[ids[i]].priority == p)
  }

  /** A list of another priority is not touched by link changes among ids. */
  lemma OtherQueue(tasks: seq<TaskInfo>, nx: seq<TaskInfo?>, pv: seq<TaskInfo?>, nx': seq<TaskInfo?>, pv': seq<TaskInfo?>,
                   touched: seq<nat>, p: nat, ids: seq<nat>, head: TaskInfo?, q: nat)
    requires Anchored(tasks, nx, pv, null, ids, head) && p != q
    requires forall i :: 0 <= i < |ids| ==> ids[i] < |tasks| && tasks[ids[i]].priority == q
    requires forall i :: 0 <= i < |touched| ==> touched[i] < |tasks| && tasks[touched[i]].priority == p
    requires |nx'| == |pv'| == |tasks|
    requires forall i :: 0 <= i < |tasks| && i !in touched ==> nx'[i] == nx[i] && pv'[i] == pv[i]
    ensures Anchored(tasks, nx', pv', null, ids, head)
  {
    LinkedFrame(tasks, nx, pv, nx', pv', null, ids, head);
  }

  class ReadyLists {
    /** task_ready_list. */
    const heads: array<TaskInfo?>

    /** Every TASK_INFO created so far, by task id, and the lists as task ids. */
    ghost var tasks: seq<TaskInfo>
    ghost var ready: Queues

    ghost predicate Valid()
      reads this, heads, tasks`next, tasks`prev
    {
      && heads.Length == MAXNUM_PRIORITY && Numbered(tasks)
      && forall p :: 0 <= p < MAXNUM_PRIORITY ==> QueueOk(tasks, ready[p], heads[p], p)
    }

    ghost function StatusFn(): nat -> Status
      reads this`tasks, tasks`status
    {
      var s := Statuses(tasks);
      (t: nat) => if t < |s| then s[t] else Terminate
    }

    /** task_init. */
    constructor ()
      ensures Valid() && fresh(heads) && tasks == [] && ready == [[], [], [], [], []]
    {
      hide Nexts, Prevs;
      heads := new TaskInfo?[5](_ => null);
      tasks, ready := [], [[], [], [], [], []];
    }

    /** The other four lists after a change to list p. */
    ghost method KeepOthers(nx: seq<TaskInfo?>, pv: seq<TaskInfo?>, touched: seq<nat>, p: nat)
      requires heads.Length == MAXNUM_PRIORITY && p < MAXNUM_PRIORITY
      requires |nx| == |pv| == |tasks|
      requires forall q :: 0 <= q < MAXNUM_PRIORITY && q != p ==>
                 && NoDup(ready[q]) && Anchored(tasks, nx, pv, null, ready[q], heads[q])
                 && (forall i :: 0 <= i < |ready[q]| ==> ready[q][i] < |tasks| && tasks[ready[q][i]].priority == q)
      requires forall i :: 0 <= i < |touched| ==> touched[i] < |tasks| && tasks[touched[i]].priority == p
      requires forall i :: 0 <= i < |tasks| && i !in touched ==> tasks[i].next == nx[i] && tasks[i].prev == pv[i]
      ensures forall q :: 0 <= q < MAXNUM_PRIORITY && q != p ==> QueueOk(tasks, ready[q], heads[q], q)
    {
      hide Nexts, Prevs, Anchored, NoDup;
      forall q | 0 <= q < MAXNUM_PRIORITY && q != p
        ensures QueueOk(tasks, ready[q], heads[q], q)
      {
        OtherQueue(tasks, nx, pv, Nexts(tasks), Prevs(tasks), touched, p, ready[q], heads[q], q);
      }
    }

    /** The new head of list p, which the record of the lists follows. */
    method SetHead(p: nat, h: TaskInfo?, ghost ids: seq<nat>)
      requires heads.Length == MAXNUM_PRIORITY && Numbered(tasks) && p < MAXNUM_PRIORITY
      requires forall q :: 0 <= q < MAXNUM_PRIORITY && q != p ==> QueueOk(tasks, ready[q], heads[q], q)
      requires QueueOk(tasks, ids, h, p)
      modifies heads, this`ready
      ensures Valid() && ready == old(ready)[p := ids]
    {
      hide QueueOk, Numbered;
      heads[p] := h;
      ready := ready[p := ids];
    }

    /** task_enqueue. */
    method Enqueue(task: TaskInfo)
      requires Valid() && task.priority < MAXNUM_PRIORITY
      requires task.taskId < |tasks| && task == tasks[task.taskId] && task.taskId !in ready[task.priority]
      modifies heads, this`ready, tasks`next, tasks`prev
      ensures Valid() && tasks == old(tasks)
      ensures ready == Sched.Enqueue(old(ready), task.priority, task.taskId)
    {
      hide Nexts, Prevs, Linked, NoDup;
      var p := task.priority;
      ghost var nx, pv, ids := Nexts(tasks), Prevs(tasks), ready[p];
      assert QueueOk(tasks, ids, heads[p], p);
      var h := Append(tasks, ids, heads[p], task);
      KeepOthers(nx, pv, ids + [task.taskId], p);
      AppendedNoDup(ids, task.taskId);
      SetHead(p, h, ids + [task.taskId]);
    }

    /** task_dequeue. */
    method Dequeue(p: nat) returns (task: TaskInfo)
      requires Valid() && p < MAXNUM_PRIORITY && ready[p] != []
      modifies heads, this`ready, tasks`next, tasks`prev
      ensures Valid() && tasks == old(tasks)
      ensures ready == Sched.Dequeue(old(ready), p)
      ensures old(ready)[p][0] < |tasks| && task == tasks[old(ready)[p][0]] && task.priority == p
    {
      hide Nexts, Prevs, Linked, NoDup;
      ghost var nx, pv, ids := Nexts(tasks), Prevs(tasks), ready[p];
      assert QueueOk(tasks, ids, heads[p], p);
      HeadIsNil(tasks, nx, pv, null, ids, heads[p]);
      task := heads[p];
      var h := RemoveFirst(tasks, ids, task);
      KeepOthers(nx, pv, ids, p);
      TailUntouched(ids);
      SetHead(p, h, ids[1..]);
    }

    /** task_pop: silently leaves a task that has a successor on its list. */
    method TaskPop(task: TaskInfo)
      requires Valid() && task.priority < MAXNUM_PRIORITY
      requires task.taskId < |tasks| && task == tasks[task.taskId] && task.taskId in ready[task.priority]
      modifies heads, this`ready, tasks`next, tasks`prev
      ensures Valid() && tasks == old(tasks)
      ensures ready == old(ready)[task.priority := Pop(old(ready)[task.priority], task.taskId)]
    {
      hide Nexts, Prevs, Linked, NoDup, Pop, Statuses;
      var p := task.priority;
      ghost var nx, pv, ids := Nexts(tasks), Prevs(tasks), ready[p];
      assert QueueOk(tasks, ids, heads[p], p);
      HeadIsNil(tasks, nx, pv, null, ids, heads[p]);
      var h := RemoveLastOnly(tasks, ids, heads[p], task);
      KeepOthers(nx, pv, ids, p);
      PoppedNoDup(ids, task.taskId);
      SetHead(p, h, Pop(ids, task.taskId));
    }

    /** The search of choose_task. */
    method FirstReady() returns (i: nat)
      requires Valid() && Pick(ready, StatusFn(), 0) < MAXNUM_PRIORITY
      ensures i == Pick(ready, StatusFn(), 0) && NoDup(ready[i])
    {
      hide Nexts, Prevs, Linked, NoDup;
      i := 0;
      ghost var target := Pick(ready, StatusFn(), 0);
      while i < MAXNUM_PRIORITY
        invariant 0 <= i <= target && Pick(ready, StatusFn(), i) == target
        decreases MAXNUM_PRIORITY - i
      {
        assert QueueOk(tasks, ready[i], heads[i], i);
        HeadIsNil(tasks, Nexts(tasks), Prevs(tasks), null, ready[i], heads[i]);
        if heads[i] != null && heads[i].status == Ready {
          break;
        }
        i := i + 1;
      }
    }

    /** choose_task. */
    method ChooseTask() returns (task: TaskInfo)
      requires Valid() && Pick(ready, StatusFn(), 0) < MAXNUM_PRIORITY
      modifies heads, this`ready, tasks`next, tasks`prev, tasks`status
      ensures Valid() && tasks == old(tasks)
      ensures var p := Pick(old(ready), old(StatusFn()), 0);
              && ready == Rotate(old(ready), p)
              && old(ready)[p][0] < |tasks| && task == tasks[old(ready)[p][0]] && task.priority == p
      ensures forall t :: 0 <= t < |tasks| ==>
                tasks[t].status == if t == task.taskId then Running else old(tasks[t].status)
      ensures task.taskId == old(ready)[Pick(old(ready), old(StatusFn()), 0)][0]
    {
      hide Nexts, Prevs, Linked, NoDup, Anchored, Pick;
      var i := FirstReady();
      task := Dequeue(i);
      task.status := Running;
      NotOnTail(old(ready), i);
      Enqueue(task);
    }

    /** A new TASK_INFO, on no list yet. */
    ghost method Register(task: TaskInfo)
      requires Valid() && task.taskId == |tasks| && task !in tasks
      modifies this`tasks
      ensures Valid() && tasks == old(tasks) + [task] && ready == old(ready)
    {
      hide Linked, NoDup;
      ghost var before := tasks;
      tasks := tasks + [task];
      forall p | 0 <= p < MAXNUM_PRIORITY
        ensures QueueOk(tasks, ready[p], heads[p], p)
      {
        assert QueueOk(before, ready[p], heads[p], p);
        Extended(before, task, ready[p], heads[p]);
      }
    }
  }

  ghost function Statuses(tasks: seq<TaskInfo>): (s: seq<Status>)
    reads tasks`status
    ensures |s| == |tasks| && forall i :: 0 <= i < |tasks| ==> s[i] == tasks[i].status
  {
    if tasks == [] then [] else [tasks[0].status] + Statuses(tasks[1..])
  }

  lemma AppendedNoDup(ids: seq<nat>, t: nat)
    requires NoDup(ids) && t !in ids
    ensures NoDup(ids + [t])
  {
  }

  lemma PoppedNoDup(ids: seq<nat>, t: nat)
    requires NoDup(ids)
    ensures NoDup(Pop(ids, t)) && |Pop(ids, t)| <= |ids|
    ensures forall i :: 0 <= i < |Pop(ids, t)| ==> Pop(ids, t)[i] == ids[i]
  {
  }

  lemma NotOnTail(q: Queues, p: nat)
    requires p < MAXNUM_PRIORITY && q[p] != [] && NoDup(q[p])
    ensures q[p][0] !in q[p][1..]
    ensures Sched.Enqueue(Sched.Dequeue(q, p), p, q[p][0]) == Rotate(q, p)
  {
    TailUntouched(q[p]);
  }

  lemma Extended(tasks: seq<TaskInfo>, task: TaskInfo, ids: seq<nat>, head: TaskInfo?)
    requires List(tasks, ids, head)
    ensures List(tasks + [task], ids, head)
  {
    hide Nexts, Prevs;
    var more := tasks + [task];
    assert forall i :: 0 <= i < |tasks| ==> more[i] == tasks[i];
  }
}
