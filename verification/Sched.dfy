/** task.c at the level of values: the five ready lists as sequences of task ids, and the operations on them. */
module Sched {
  const MAXNUM_PRIORITY: nat := 5
  const LOWEST_PRIORITY: nat := 4

  type Queues = q: seq<seq<nat>> | |q| == MAXNUM_PRIORITY witness [[], [], [], [], []]

  datatype Status = Running | Ready | Terminate

  /** task_enqueue. */
  function Enqueue(q: Queues, p: nat, t: nat): Queues
    requires p < MAXNUM_PRIORITY
  {
    q[p := q[p] + [t]]
  }

  /** task_dequeue on a non-empty list. */
  function Dequeue(q: Queues, p: nat): Queues
    requires p < MAXNUM_PRIORITY && q[p] != []
  {
    q[p := q[p][1..]]
  }

  /** task_pop: takes a task off its list only when that task is the last one there. */
  function Pop(l: seq<nat>, t: nat): seq<nat> {
    if l != [] && l[|l| - 1] == t then l[..|l| - 1] else l
  }

  /** The list that the loop of choose_task stops at, starting from p: non-empty with a READY head; 5 if none is. */
  function Pick(q: Queues, status: nat -> Status, p: nat): (r: nat)
    requires p <= MAXNUM_PRIORITY
    ensures p <= r <= MAXNUM_PRIORITY
    ensures r < MAXNUM_PRIORITY ==> q[r] != [] && status(q[r][0]) == Ready
    ensures forall i :: p <= i < r ==> q[i] == [] || status(q[i][0]) != Ready
    decreases MAXNUM_PRIORITY - p
  {
    if p == MAXNUM_PRIORITY then p
    else if q[p] != [] && status(q[p][0]) == Ready then p
    else Pick(q, status, p + 1)
  }

  /** choose_task moves the head of list p to its tail. */
  function Rotate(q: Queues, p: nat): Queues
    requires p < MAXNUM_PRIORITY && q[p] != []
  {
    q[p := q[p][1..] + [q[p][0]]]
  }

  /** The task is on the tail of its list, so that nothing follows it. */
  predicate IsTail(l: seq<nat>, t: nat) {
    l != [] && l[|l| - 1] == t
  }
}
