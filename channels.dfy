/** The embassy synchronisation primitives the tasks talk through: a
    bounded FIFO `Channel` and a single-slot `Signal`. Waiting and
    wake-up are not modelled; only what each call does to the stored
    values is. */
module Channels {
  import opened Base

  /** An embassy `Channel<_, T, N>`: a FIFO holding at most `capacity` values. */
  class Fifo<T> {
    var items: seq<T>
    const capacity: nat

    ghost predicate Valid()
      reads this
    {
      |items| <= capacity
    }

    constructor(capacity: nat)
      ensures Valid() && items == [] && this.capacity == capacity
    {
      this.capacity := capacity;
      items := [];
    }

    /** `try_send`: never waits. A full channel is left as it is and the
        value comes back as `TrySendError::Full`. */
    method TrySend(x: T) returns (r: Result<(), T>)
      requires Valid()
      modifies this
      ensures Valid()
      ensures r.Ok? <==> |old(items)| < capacity
      ensures r.Ok? ==> items == old(items) + [x]
      ensures r.Err? ==> items == old(items) && r.error == x
    {
      if |items| < capacity {
        items := items + [x];
        r := Ok(());
      } else {
        r := Err(x);
      }
    }

    /** `try_receive`: the oldest value, if there is one. */
    method TryReceive() returns (r: Option<T>)
      requires Valid()
      modifies this
      ensures Valid()
      ensures old(items) == [] ==> r == None && items == []
      ensures old(items) != [] ==> r == Some(old(items)[0]) && items == old(items)[1..]
    {
      if items == [] {
        r := None;
      } else {
        r := Some(items[0]);
        items := items[1..];
      }
    }
  }

  /** An embassy `Signal<_, T>`: one slot, overwritten by every signal.
      `history` records every value signalled, in order, whether or not
      it was taken before being overwritten. */
  class SignalSlot<T> {
    var slot: Option<T>
    ghost var history: seq<T>

    constructor()
      ensures slot == None && history == []
    {
      slot := None;
      history := [];
    }

    /** `signal`: replaces whatever value was still pending. */
    method Signal(x: T)
      modifies this
      ensures slot == Some(x)
      ensures history == old(history) + [x]
    {
      slot := Some(x);
      history := history + [x];
    }

    /** `try_take`: the pending value, if any, leaving the slot empty. */
    method TryTake() returns (r: Option<T>)
      modifies this
      ensures r == old(slot) && slot == None
      ensures history == old(history)
    {
      r := slot;
      slot := None;
    }
  }
}
