/** The bounded queue between the stream and the consumer. */
module BoundedBuffering {
  import opened Wire

  datatype Policy = Block | DropNewestExplicit

  datatype Queue<T> = Queue(capacity: nat, policy: Policy, items: seq<T>, highWater: nat, dropped: nat, waits: nat)

  function Max(a: nat, b: nat): nat { if a < b then b else a }

  function Append<T>(q: Queue<T>, item: T): Queue<T> {
    q.(items := q.items + [item], highWater := Max(q.highWater, |q.items| + 1))
  }

  /** What a put without waiting does: accept, or count a drop or a wait and refuse. */
  function TryPut<T>(q: Queue<T>, item: T): Queue<T> {
    if |q.items| < q.capacity then Append(q, item)
    else if q.policy.DropNewestExplicit? then q.(dropped := q.dropped + 1)
    else q.(waits := q.waits + 1)
  }

  class BoundedBuffer<T> {
    const capacity: nat
    const policy: Policy
    var items: seq<T>
    var highWater: nat
    var dropped: nat
    var waits: nat

    constructor (capacity: nat, policy: Policy)
      requires capacity >= 1
      ensures State() == Queue(capacity, policy, [], 0, 0, 0)
    {
      this.capacity, this.policy := capacity, policy;
      items, highWater, dropped, waits := [], 0, 0, 0;
    }

    function State(): Queue<T>
      reads this
    {
      Queue(capacity, policy, items, highWater, dropped, waits)
    }

    method Put(item: T) returns (accepted: bool)
      modifies this
      ensures accepted <==> |old(items)| < capacity
      ensures State() == TryPut(old(State()), item)
    {
      if |items| >= capacity {
        if policy.DropNewestExplicit? {
          dropped := dropped + 1;
        } else {
          waits := waits + 1;
        }
        return false;
      }
      items := items + [item];
      if |items| > highWater {
        highWater := |items|;
      }
      return true;
    }

    /** Refused, with nothing changed, when the queue is still full. */
    method ForcePut(item: T) returns (ok: bool)
      modifies this
      ensures ok <==> |old(items)| < capacity
      ensures State() == if ok then Append(old(State()), item) else old(State())
    {
      if |items| >= capacity {
        return false;
      }
      items := items + [item];
      if |items| > highWater {
        highWater := |items|;
      }
      return true;
    }

    method CountWait()
      modifies this
      ensures State() == old(State()).(waits := old(waits) + 1)
    {
      waits := waits + 1;
    }

    method Take() returns (item: Option<T>)
      modifies this
      ensures old(items) == [] ==> item == None && State() == old(State())
      ensures old(items) != [] ==> item == Some(old(items)[0]) && State() == old(State()).(items := old(items)[1..])
    {
      if items == [] {
        return None;
      }
      item := Some(items[0]);
      items := items[1..];
    }
  }

  // ----- offering a list of items to an empty queue

  function PutAll<T>(q: Queue<T>, offered: seq<T>): Queue<T> {
    if offered == [] then q else TryPut(PutAll(q, offered[..|offered| - 1]), offered[|offered| - 1])
  }

  function Smaller(a: nat, b: nat): nat { if a <= b then a else b }

  /** The first items up to the capacity are queued; every other is counted once, as a drop or as a wait by policy. */
  lemma {:induction false} OffersAreCounted<T>(capacity: nat, policy: Policy, offered: seq<T>)
    ensures var q := PutAll(Queue(capacity, policy, [], 0, 0, 0), offered);
            var kept := Smaller(capacity, |offered|);
            && q.capacity == capacity && q.policy == policy && q.items == offered[..kept] && q.highWater == kept
            && q.dropped == (if policy.DropNewestExplicit? then |offered| - kept else 0)
            && q.waits == (if policy.Block? then |offered| - kept else 0)
  {
    if offered != [] {
      var n := |offered| - 1;
      OffersAreCounted(capacity, policy, offered[..n]);
      if n < capacity {
        assert offered[..n] + [offered[n]] == offered == offered[..n + 1];
        assert offered[..n][..n] == offered[..n];
      } else {
        assert offered[..n][..capacity] == offered[..capacity];
      }
    }
  }
}
