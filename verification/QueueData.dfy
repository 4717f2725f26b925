/** The queue as a value: what it holds, its capacity and its four statistics
    counters, with the sequential operations of the unsynchronised baseline. */
module QueueData {
  import opened Wrappers

  datatype QueueState = QueueState(
    items: seq<int>, maxCount: nat,
    addAttempts: nat, getAttempts: nat, addCount: nat, getCount: nat)

  function Fresh(maxCount: nat): QueueState {
    QueueState([], maxCount, 0, 0, 0, 0)
  }

  predicate Full(q: QueueState) {
    |q.items| == q.maxCount
  }

  function CountAddAttempt(q: QueueState): QueueState {
    q.(addAttempts := q.addAttempts + 1)
  }

  function CountGetAttempt(q: QueueState): QueueState {
    q.(getAttempts := q.getAttempts + 1)
  }

  /** Link a new node at the back and count the success. */
  function Append(q: QueueState, v: int): QueueState {
    q.(items := q.items + [v], addCount := q.addCount + 1)
  }

  /** Unlink the front node and count the success. */
  function DropFirst(q: QueueState): QueueState
    requires q.items != []
  {
    q.(items := q.items[1..], getCount := q.getCount + 1)
  }

  /** The whole non-blocking add of the baseline: new state and return code. */
  function BaselineAdd(q: QueueState, v: int): (QueueState, bool) {
    var q1 := CountAddAttempt(q);
    if Full(q1) then (q1, false) else (Append(q1, v), true)
  }

  /** The whole non-blocking get of the baseline: new state and value, if any. */
  function BaselineGet(q: QueueState): (QueueState, Option<int>) {
    var q1 := CountGetAttempt(q);
    if q1.items == [] then (q1, None) else (DropFirst(q1), Some(q1.items[0]))
  }
}
