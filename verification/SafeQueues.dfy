/** The thread-safe queue between relay threads: two bounded first-in-first-out classes, one with priority. Each method
    body runs under the queue's lock, so it is one atomic step. */
module SafeQueues {
  import opened Runs

  const QUEUE_MAX: nat := 10000

  datatype Queue<T> = Queue(normal: seq<T>, priority: seq<T>) {
    predicate Empty() {
      normal == [] && priority == []
    }

    function Enqueue(x: T): Queue<T> {
      if |normal| >= QUEUE_MAX then this else this.(normal := normal + [x])
    }

    function EnqueuePriority(x: T): Queue<T> {
      if |priority| >= QUEUE_MAX then this else this.(priority := priority + [x])
    }

    /** The item `dequeue` hands out next. */
    function Front(): T
      requires !Empty()
    {
      if priority != [] then priority[0] else normal[0]
    }

    function Dequeue(): Queue<T>
      requires !Empty()
    {
      if priority != [] then this.(priority := priority[1..]) else this.(normal := normal[1..])
    }
  }

  class SafeQueue<T> {
    var q: seq<T>
    var qPriority: seq<T>

    function Value(): Queue<T>
      reads this
    {
      Queue(q, qPriority)
    }

    constructor ()
      ensures Value() == Queue([], [])
    {
      q, qPriority := [], [];
    }

    method Enqueue(t: T)
      modifies this
      ensures Value() == old(Value()).Enqueue(t)
    {
      if q != [] {
        var size := |q|;
        if size >= QUEUE_MAX {
          return;
        }
      }
      q := q + [t];
    }

    method EnqueuePriority(t: T)
      modifies this
      ensures Value() == old(Value()).EnqueuePriority(t)
    {
      if qPriority != [] {
        var size := |qPriority|;
        if size >= QUEUE_MAX {
          return;
        }
      }
      qPriority := qPriority + [t];
    }

    /** What `dequeue` does once it is not blocked any more. */
    method Dequeue() returns (val: T)
      requires !Value().Empty()
      modifies this
      ensures val == old(Value()).Front() && Value() == old(Value()).Dequeue()
    {
      if qPriority != [] {
        val := qPriority[0];
        qPriority := qPriority[1..];
      } else {
        val := q[0];
        q := q[1..];
      }
    }

    method IsEmpty() returns (r: bool)
      ensures r <==> Value().Empty()
    {
      r := q == [] && qPriority == [];
    }

    method Size() returns (n: nat)
      ensures n == |q| + |qPriority|
      ensures n == 0 <==> Value().Empty()
    {
      n := |q| + |qPriority|;
    }
  }

  // ---------------------------------------------------------------- runs

  datatype Op<T> = Put(x: T) | PutPriority(x: T) | Get

  /** A queue with what went in and came out of each class, and the items handed out in order. */
  datatype Ledger<T> = Ledger(
    queue: Queue<T>,
    accepted: seq<T>, acceptedPriority: seq<T>,
    delivered: seq<T>, deliveredPriority: seq<T>)

  /** One operation: a put at the limit is dropped, and a get on an empty queue blocks, changing nothing. */
  function Step<T>(l: Ledger<T>, op: Op<T>): Ledger<T> {
    var q := l.queue;
    match op
    case Put(x) =>
      if |q.normal| >= QUEUE_MAX then l
      else l.(queue := q.Enqueue(x), accepted := l.accepted + [x])
    case PutPriority(x) =>
      if |q.priority| >= QUEUE_MAX then l
      else l.(queue := q.EnqueuePriority(x), acceptedPriority := l.acceptedPriority + [x])
    case Get =>
      if q.Empty() then l
      else if q.priority != [] then l.(queue := q.Dequeue(), deliveredPriority := l.deliveredPriority + [q.Front()])
      else l.(queue := q.Dequeue(), delivered := l.delivered + [q.Front()])
  }

  function Run<T>(ops: seq<Op<T>>): Ledger<T> {
    After(Step, Ledger(Queue([], []), [], [], [], []), ops)
  }

  /** Over every run, each class hands out a prefix of what it accepted, in order, and holds the rest; and neither class
      outgrows its limit. */
  lemma {:induction false} RunConserves<T>(ops: seq<Op<T>>)
    ensures var l := Run(ops);
            && l.accepted == l.delivered + l.queue.normal
            && l.acceptedPriority == l.deliveredPriority + l.queue.priority
            && |l.queue.normal| <= QUEUE_MAX && |l.queue.priority| <= QUEUE_MAX
  {
    if ops != [] {
      RunConserves(ops[..|ops| - 1]);
    }
  }

  /** An item of the normal class is handed out only once every priority item accepted so far has been. */
  lemma NormalYields<T>(ops: seq<Op<T>>, k: nat)
    requires k < |ops|
    ensures var was, now := Run(ops[..k]), Run(ops[..k + 1]);
            now.delivered != was.delivered ==> was.deliveredPriority == was.acceptedPriority
  {
    RunConserves(ops[..k]);
    assert ops[..k + 1][..k] == ops[..k];
  }

  /** An item is refused only when its class holds the limit, which takes that many accepted items more than delivered
      ones. */
  lemma RefusedAtLimit<T>(ops: seq<Op<T>>, k: nat)
    requires k < |ops| && !ops[k].Get? && Run(ops[..k + 1]) == Run(ops[..k])
    ensures var l := Run(ops[..k]);
            if ops[k].Put? then |l.accepted| == |l.delivered| + QUEUE_MAX
            else |l.acceptedPriority| == |l.deliveredPriority| + QUEUE_MAX
  {
    RunConserves(ops[..k]);
    assert ops[..k + 1][..k] == ops[..k];
    var l := Run(ops[..k]);
    assert Run(ops[..k + 1]) == Step(l, ops[k]);
    assert |l.accepted + [ops[k].x]| == |l.accepted| + 1
        && |l.acceptedPriority + [ops[k].x]| == |l.acceptedPriority| + 1;
  }
}
