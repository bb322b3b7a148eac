/**
 * The monitor through which workers share tasks. Each critical section is a method; what it does
 * to the condition variable is its result. The store behind it is a first-in first-out queue.
 */
module Synchronizer {
  /** What happens to the threads waiting on the condition variable. */
  datatype Wake = Nobody | One | Everybody

  /** One pass through a get: an item, the end, or a wait on the condition variable, after which get tries again. */
  datatype Got<+T> = Item(value: T) | Ended | MustWait

  /** The monitor's state. */
  datatype Shared<T> = Shared(pledges: int, closed: bool, queue: seq<T>)

  function Without<T>(queue: seq<T>, position: nat): seq<T>
    requires position < |queue|
  {
    queue[..position] + queue[position + 1..]
  }

  /** An attempt to get, with the store handing out the item at some position. */
  function Attempt<T>(s: Shared<T>, position: nat, pledge: bool): (Shared<T>, Got<T>, Wake)
    requires s.queue != [] ==> position < |s.queue|
  {
    if s.queue != [] then
      (Shared(if pledge then s.pledges + 1 else s.pledges, s.closed, Without(s.queue, position)),
       Item(s.queue[position]), Nobody)
    else if s.pledges == 0 || s.closed then (s, Ended, Everybody)
    else (s, MustWait, Nobody)
  }

  function Written<T>(s: Shared<T>, v: T): (Shared<T>, Wake) { (s.(queue := s.queue + [v]), One) }

  function Pledged<T>(s: Shared<T>): Shared<T> { s.(pledges := s.pledges + 1) }

  function Unpledged<T>(s: Shared<T>): (Shared<T>, Wake) {
    (s.(pledges := s.pledges - 1), if s.pledges == 1 then Everybody else Nobody)
  }

  function Failed<T>(s: Shared<T>): (Shared<T>, Wake) { (s.(closed := true), Everybody) }

  class Synchronizer<T> {
    var pledges: int
    var closed: bool
    var queue: seq<T>

    ghost function State(): Shared<T> reads this { Shared(pledges, closed, queue) }

    constructor ()
      ensures State() == Shared(0, false, [])
    {
      pledges, closed, queue := 0, false, [];
    }

    method TryGet(pledge: bool) returns (r: Got<T>, wake: Wake)
      modifies this
      ensures (State(), r, wake) == Attempt(old(State()), 0, pledge)
    {
      if queue != [] {
        assert Without(queue, 0) == queue[1..];
        r, wake := Item(queue[0]), Nobody;
        queue := queue[1..];
        if pledge { pledges := pledges + 1; }
      } else if pledges == 0 || closed {
        r, wake := Ended, Everybody;
      } else {
        r, wake := MustWait, Nobody;
      }
    }

    method Write(v: T) returns (wake: Wake)
      modifies this
      ensures (State(), wake) == Written(old(State()), v)
    {
      queue := queue + [v];
      wake := One;
    }

    method MakePledge()
      modifies this
      ensures State() == Pledged(old(State()))
    {
      pledges := pledges + 1;
    }

    method EndPledge() returns (wake: Wake)
      modifies this
      ensures (State(), wake) == Unpledged(old(State()))
    {
      pledges := pledges - 1;
      wake := if pledges == 0 then Everybody else Nobody;
    }

    method Fail() returns (wake: Wake)
      modifies this
      ensures (State(), wake) == Failed(old(State()))
    {
      closed := true;
      wake := Everybody;
    }
  }

  // ---------------------------------------------------------------- sequences of critical sections

  datatype Section<T> = Take(pledge: bool) | Put(v: T) | Open | Close | Abandon

  /** The state after some critical sections, and the items they took from the store, in order. */
  function After<T>(s: Shared<T>, sections: seq<Section<T>>): (Shared<T>, seq<T>) {
    if sections == [] then (s, [])
    else
      var (s', taken) := After(s, sections[..|sections| - 1]);
      match sections[|sections| - 1]
      case Take(pledge) =>
        var (s'', got, _) := Attempt(s', 0, pledge);
        (s'', if got.Item? then taken + [got.value] else taken)
      case Put(v) => (Written(s', v).0, taken)
      case Open => (Pledged(s'), taken)
      case Close => (Unpledged(s').0, taken)
      case Abandon => (Failed(s').0, taken)
  }

  function Puts<T>(sections: seq<Section<T>>): seq<T> {
    if sections == [] then []
    else
      var last := sections[|sections| - 1];
      Puts(sections[..|sections| - 1]) + if last.Put? then [last.v] else []
  }

  /** First in, first out: what was taken and then what is still there is what was there and then what was put. */
  lemma {:induction false} FirstInFirstOut<T>(s: Shared<T>, sections: seq<Section<T>>)
    ensures var (s', taken) := After(s, sections); taken + s'.queue == s.queue + Puts(sections)
  {
    if sections != [] {
      var before := sections[..|sections| - 1];
      FirstInFirstOut(s, before);
      var (s', taken) := After(s, before);
      if sections[|sections| - 1].Take? && s'.queue != [] {
        assert s'.queue == [s'.queue[0]] + Without(s'.queue, 0);
        assert taken + s'.queue == (taken + [s'.queue[0]]) + Without(s'.queue, 0);
      }
      if sections[|sections| - 1].Put? {
        var v := sections[|sections| - 1].v;
        assert taken + (s'.queue + [v]) == (taken + s'.queue) + [v];
        assert s.queue + (Puts(before) + [v]) == (s.queue + Puts(before)) + [v];
      }
    }
  }
}
