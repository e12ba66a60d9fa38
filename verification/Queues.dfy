/** The blocking queue that connects the threads, one lock-protected operation at a time. */
module Queues {
  class LBQueue<T> {
    var items: seq<T>

    constructor ()
      ensures items == []
    {
      items := [];
    }

    method WaitPush(item: T)
      modifies this
      ensures items == old(items) + [item]
    {
      items := items + [item];
    }

    /** Waits until there is an item; the caller resumes in a state that has one. */
    method WaitPop() returns (item: T)
      requires items != []
      modifies this
      ensures [item] + items == old(items)
    {
      item := items[0];
      items := items[1..];
    }

    /** After the wait has ended: the front item, or, on a timeout, nothing, with `item` kept. */
    method TryPop(item: T) returns (ok: bool, result: T)
      modifies this
      ensures ok <==> old(items) != []
      ensures if ok then [result] + items == old(items) else result == item && items == old(items)
    {
      if items == [] {
        return false, item;
      }
      ok, result := true, items[0];
      items := items[1..];
    }
  }
}
