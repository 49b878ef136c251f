/** uart_byte_fifo.sv: a synchronous ring buffer, proved to be a bounded queue. */
module ByteFifo {

  predicate PopFires<T>(queue: seq<T>, popReady: bool) {
    queue != [] && popReady
  }

  predicate PushReady<T>(queue: seq<T>, depth: nat, popReady: bool) {
    |queue| < depth || PopFires(queue, popReady)
  }

  predicate PushFires<T>(queue: seq<T>, depth: nat, pushValid: bool, popReady: bool) {
    pushValid && PushReady(queue, depth, popReady)
  }

  /** One clock of the bounded queue: a clear wins over everything, otherwise the head may leave and a new
      element may join, also both at once when the queue is full. */
  function Next<T>(queue: seq<T>, depth: nat, clear: bool, pushValid: bool, data: T, popReady: bool): seq<T> {
    var kept := if PopFires(queue, popReady) then queue[1..] else queue;
    var joined := if PushFires(queue, depth, pushValid, popReady) then [data] else [];
    if clear then [] else kept + joined
  }

  /** `push_data` is only looked at when a push is offered. */
  lemma NextIgnoresData<T>(queue: seq<T>, depth: nat, clear: bool, d: T, e: T, popReady: bool)
    ensures Next(queue, depth, clear, false, d, popReady) == Next(queue, depth, clear, false, e, popReady)
  {
  }

  /** Position i of a circle of n places, for i below 2 * n. */
  function Wrap(i: nat, n: nat): nat
    requires i < 2 * n
  {
    if i < n then i else i - n
  }

  /** The elements of a ring buffer, oldest first. */
  function Ring<T>(mem: seq<T>, rd: nat, level: nat): (q: seq<T>)
    requires rd < |mem| && level <= |mem|
    ensures |q| == level
    ensures forall i :: 0 <= i < level ==> q[i] == mem[Wrap(rd + i, |mem|)]
  {
    seq(level, i requires 0 <= i < level => mem[Wrap(rd + i, |mem|)])
  }

  /** Writing the free slot behind the newest element appends. */
  lemma RingPush<T>(mem: seq<T>, rd: nat, level: nat, data: T)
    requires rd < |mem| && level < |mem|
    ensures Ring(mem[Wrap(rd + level, |mem|) := data], rd, level + 1) == Ring(mem, rd, level) + [data]
  {
  }

  /** Advancing the read pointer drops the oldest element. */
  lemma RingPop<T>(mem: seq<T>, rd: nat, level: nat)
    requires rd < |mem| && 0 < level <= |mem|
    ensures Ring(mem, Wrap(rd + 1, |mem|), level - 1) == Ring(mem, rd, level)[1..]
    ensures Ring(mem, rd, level)[0] == mem[rd]
  {
  }

  class Fifo<T(0)> {
    const depth: nat
    const mem: array<T>
    var wrPtr: nat
    var rdPtr: nat
    var level: nat

    ghost predicate Valid()
      reads this, mem
    {
      && depth >= 1 && mem.Length == depth
      && rdPtr < depth && level <= depth
      && wrPtr == Wrap(rdPtr + level, depth)
    }

    ghost function Contents(): (q: seq<T>)
      requires Valid()
      reads this, mem
      ensures |q| == level
    {
      Ring(mem[..], rdPtr, level)
    }

    constructor (depth: nat)
      requires depth >= 1
      ensures Valid() && fresh(mem) && this.depth == depth && Contents() == []
    {
      this.depth := depth;
      mem := new T[depth];
      wrPtr, rdPtr, level := 0, 0, 0;
    }

    function Empty(): (r: bool)
      requires Valid()
      reads this, mem
      ensures r == (Contents() == [])
    {
      level == 0
    }

    function Full(): (r: bool)
      requires Valid()
      reads this, mem
      ensures r == (|Contents()| == depth)
    {
      level == depth
    }

    /** `push_ready`: a full buffer still accepts when its head leaves in the same clock. */
    function CanPush(popReady: bool): (r: bool)
      requires Valid()
      reads this, mem
      ensures r == PushReady(Contents(), depth, popReady)
    {
      !Full() || (!Empty() && popReady)
    }

    /** `pop_data`: whatever the read pointer shows, the oldest element when there is one. */
    function PopData(): (x: T)
      requires Valid()
      reads this, mem
      ensures Contents() != [] ==> x == Contents()[0]
    {
      mem[rdPtr]
    }

    method Step(clear: bool, pushValid: bool, data: T, popReady: bool)
      requires Valid()
      modifies this, mem
      ensures Valid() && Contents() == Next(old(Contents()), depth, clear, pushValid, data, popReady)
    {
      var popFire := !Empty() && popReady;
      var pushFire := pushValid && CanPush(popReady);
      if clear {
        wrPtr, rdPtr, level := 0, 0, 0;
      } else {
        if popFire {
          Pop();
        }
        if pushFire {
          Push(data);
        }
      }
    }

    /** `pop_fire`: the read pointer moves on. */
    method Pop()
      requires Valid() && Contents() != []
      modifies this
      ensures Valid() && Contents() == old(Contents())[1..]
    {
      RingPop(mem[..], rdPtr, level);
      rdPtr := if rdPtr == depth - 1 then 0 else rdPtr + 1;
      level := level - 1;
    }

    /** `push_fire`: the write pointer's slot is filled. */
    method Push(data: T)
      requires Valid() && |Contents()| < depth
      modifies this, mem
      ensures Valid() && Contents() == old(Contents()) + [data]
    {
      RingPush(mem[..], rdPtr, level, data);
      ghost var before := mem[..];
      mem[wrPtr] := data;
      assert mem[..] == before[wrPtr := data];
      wrPtr := if wrPtr == depth - 1 then 0 else wrPtr + 1;
      level := level + 1;
    }
  }
}
