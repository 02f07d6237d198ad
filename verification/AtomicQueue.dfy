/** The locked FIFO of `AtomicQueue.cpp`. Each method body is one lock section. */
module AtomicQueues {

  class AtomicQueue<T> {
    /** The private `std::queue`, front first. */
    var items: seq<T>
    /** The flag readers consult without taking the lock. */
    var isQueueEmpty: bool

    /** Holds whenever the lock is free: the flag tells the truth. */
    ghost predicate Valid()
      reads this
    {
      isQueueEmpty == (items == [])
    }

    constructor ()
      ensures Valid() && items == []
    {
      items := [];
      isQueueEmpty := true;
    }

    method Push(val: T)
      requires Valid()
      modifies this
      ensures Valid() && items == old(items) + [val]
    {
      items := items + [val];
      isQueueEmpty := false;
    }

    /** `requires` is the assertion in the source. */
    method Front() returns (val: T)
      requires Valid() && items != []
      ensures val == items[0]
    {
      val := items[0];
    }

    method Pop() returns (isEmpty: bool)
      requires Valid() && items != []
      modifies this
      ensures Valid() && items == old(items)[1..] && isEmpty == (items == [])
    {
      items := items[1..];
      isEmpty := items == [];
      isQueueEmpty := isEmpty;
    }

    method PopIntoQueue() returns (queue: seq<T>)
      requires Valid()
      modifies this
      ensures Valid() && queue == old(items) && items == []
    {
      queue := [];
      while items != []
        invariant queue + items == old(items)
        decreases |items|
      {
        queue := queue + [items[0]];
        items := items[1..];
      }
      isQueueEmpty := true;
    }

    /** Reads the flag, not the queue. */
    method Empty() returns (empty: bool)
      requires Valid()
      ensures empty <==> items == []
    {
      empty := isQueueEmpty;
    }
  }
}
