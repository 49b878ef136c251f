/** intf.cpp: the testbench side of the core's two byte streams, against the core itself.

    A bench sees the clock level and owns three pins; every other input of the core is the world's, one value a
    clock, settled before the low phase ends. Reads happen at the end of a time step, so a read in the low phase
    sees the wires that the next rising edge will act on. */
module Handshake {
  import opened UartFormat
  import opened UartCore
  import opened Conservation
  import UartTx
  import ByteFifo
  import RtsTight

  ghost predicate Steady(world: nat -> CoreIn, p: Params) {
    forall k :: world(k).baudInc < p.Modulus()
  }

  /** No receive FIFO clear from clock `first` of the run on. */
  predicate NoRxClear(run: seq<CoreIn>, first: nat) {
    forall k :: first <= k < |run| ==> !run[k].rxClear
  }

  /** The bytes taken over the transmit stream. */
  function Accepted(p: Params, run: seq<CoreIn>): seq<Byte> {
    TxLogOf(p, run).accepted
  }

  /** The records handed over on the receive stream. */
  function Popped(p: Params, run: seq<CoreIn>): seq<Record> {
    RxLogOf(p, run).popped
  }

  lemma LogSnoc(p: Params, run: seq<CoreIn>, x: CoreIn)
    ensures Run(p, run + [x]) == Next(p, Run(p, run), x)
    ensures Accepted(p, run + [x])
         == Accepted(p, run) + if Accepts(p, Run(p, run), x) then [x.txData] else []
    ensures Popped(p, run + [x])
         == Popped(p, run) + if Pops(Run(p, run), x) then [Run(p, run).rxQueue[0]] else []
  {
    hide Next, TxByteReady, TxInput;
    assert (run + [x])[..|run|] == run;
  }

  function RxHead(p: Params, run: seq<CoreIn>): Option<Record> {
    var q := Run(p, run).rxQueue;
    if q == [] then None else Some(q[0])
  }

  /** Without a pop or a clear the head of the receive queue stays where it is. */
  lemma HeadStays(p: Params, run: seq<CoreIn>, x: CoreIn)
    requires RxHead(p, run).Some? && !x.rxReady && !x.rxClear
    ensures RxHead(p, run + [x]) == RxHead(p, run)
  {
    assert (run + [x])[..|run|] == run;
  }

  /** One more look at an empty queue. */
  lemma RunExtends(p: Params, was: seq<CoreIn>, run: seq<CoreIn>, first: nat)
    requires first <= |was| && |run| == |was| + 1 && run[..|was|] == was
    requires forall k :: first <= k < |was| ==> RxHead(p, was[..k]).None?
    requires RxHead(p, was).None?
    ensures forall k :: first <= k < |run| ==> RxHead(p, run[..k]).None?
  {
    hide RxHead;
    forall k | first <= k < |run|
      ensures RxHead(p, run[..k]).None?
    {
      if k < |was| {
        assert run[..k] == was[..k];
      }
    }
  }

  predicate AtMostOneMore<T(==)>(before: seq<T>, after: seq<T>) {
    after == before || (|after| == |before| + 1 && after[..|before|] == before)
  }

  /** In clock k of the run the byte was offered and the core was not ready. */
  predicate Refused(p: Params, run: seq<CoreIn>, k: nat, data: Byte)
    requires k < |run|
  {
    run[k].txValid && run[k].txData == data && !TxByteReady(p, Run(p, run[..k]), run[k])
  }

  lemma RefusedNext(p: Params, was: seq<CoreIn>, x: CoreIn, data: Byte, first: nat)
    requires forall k :: first <= k < |was| ==> Refused(p, was, k, data)
    requires x.txValid && x.txData == data && !TxByteReady(p, Run(p, was), x)
    ensures forall k :: first <= k < |was| + 1 ==> Refused(p, was + [x], k, data)
  {
    hide TxByteReady, Run;
    forall k | first <= k < |was| + 1
      ensures Refused(p, was + [x], k, data)
    {
      assert (was + [x])[..k] == if k < |was| then was[..k] else was;
      assert k < |was| ==> Refused(p, was, k, data);
    }
  }

  /** A clear in the first clock is a clear of the run. */
  lemma ClearsBefore(was: seq<CoreIn>, mid: seq<CoreIn>, run: seq<CoreIn>)
    requires |mid| <= |run| && run[..|mid|] == mid
    requires mid == was || (|mid| == |was| + 1 && mid[..|was|] == was)
    ensures mid != was && mid[|was|].rxClear ==> !NoRxClear(run, |was|)
  {
    if mid != was {
      assert run[..|mid|][|was|] == run[|was|];
    }
  }

  class Bench {
    const core: Core
    const world: nat -> CoreIn
    var clocks: nat
    var high: bool
    var txValid: bool
    var txData: Byte
    var rxReady: bool
    ghost var run: seq<CoreIn>

    ghost predicate Valid()
      reads this, core, core.Repr()
    {
      && this !in core.Repr()
      && core.Valid()
      && Steady(world, core.p)
      && clocks == |run|
      && core.View() == Run(core.p, run)
    }

    function Inputs(): CoreIn
      reads this
    {
      world(clocks).(txValid := txValid, txData := txData, rxReady := rxReady)
    }

    /** `tx_byte_ready`. */
    method TxByteReadyOut() returns (r: bool)
      requires Valid()
      ensures Valid() && r == TxByteReady(core.p, Run(core.p, run), Inputs())
    {
      hide UartTx.Next, ByteFifo.Next, Run, TxStart;
      var txStart := core.Wires(Inputs());
      r := core.txFifo.CanPush(txStart) && !Inputs().txClear;
    }

    /** The record, if any, that the next rising edge removes. */
    ghost function Leaving(): seq<Record>
      reads this, core
    {
      var v := Run(core.p, run);
      if Pops(v, Inputs()) then [v.rxQueue[0]] else []
    }

    /** The byte, if any, that the next rising edge takes. */
    ghost function Entering(): seq<Byte>
      reads this, core
    {
      if Accepts(core.p, Run(core.p, run), Inputs()) then [txData] else []
    }

    /** The rising edge: the core steps on what the pins show. */
    method Rise()
      requires Valid()
      modifies this`clocks, this`high, this`run, core.Repr()
      ensures Valid() && high
      ensures run == old(run) + [old(Inputs())]
      ensures Accepted(core.p, run) == Accepted(core.p, old(run)) + old(Entering())
      ensures Popped(core.p, run) == Popped(core.p, old(run)) + old(Leaving())
    {
      hide Next, Run, Core.Valid, Core.View, TxByteReady, TxLogOf, RxLogOf;
      ghost var x := Inputs();
      LogSnoc(core.p, run, x);
      core.Step(Inputs());
      run := run + [x];
      clocks, high := clocks + 1, true;
    }

    constructor (p: Params, world: nat -> CoreIn)
      requires p.Valid() && Steady(world, p)
      ensures Valid() && core.p == p && this.world == world && run == [] && !high
      ensures !txValid && txData == ZERO_BYTE && !rxReady
      ensures fresh(core.Repr())
    {
      core := new Core(p);
      this.world := world;
      clocks, high, txValid, txData, rxReady, run := 0, false, false, ZERO_BYTE, false, [];
    }

    /** `clock(1, 0)`: from the low phase the next falling edge lies behind a rising one. */
    method Fall()
      requires Valid()
      modifies this`clocks, this`high, this`run, core.Repr()
      ensures Valid() && !high
      ensures run == if old(high) then old(run) else old(run) + [old(Inputs())]
      ensures Accepted(core.p, run) == Accepted(core.p, old(run)) + if old(high) then [] else old(Entering())
      ensures Popped(core.p, run) == Popped(core.p, old(run)) + if old(high) then [] else old(Leaving())
    {
      hide Next, Run, Core.Valid, Core.View, Accepted, Popped, Accepts, Pops, Core.Repr;
      if !high {
        Rise();
      }
      high := false;
    }

    /** The byte that is taken before a call that starts with the valid pin high gets to lower it. */
    ghost function StrayByte(): seq<Byte>
      reads this, core
    {
      if high then [] else Entering()
    }

    /** `try_push_tx_byte`: the byte is taken exactly once when the call reports it accepted and never
        otherwise; a refusal has offered it for the whole timeout. */
    method TryPush(data: Byte, timeout: nat) returns (accepted: bool)
      requires Valid()
      modifies this`clocks, this`high, this`run, this`txValid, this`txData, core.Repr()
      ensures Valid() && !txValid && !high
      ensures Accepted(core.p, run)
           == Accepted(core.p, old(run)) + old(StrayByte()) + if accepted then [data] else []
      ensures !accepted ==>
                && |run| == |old(run)| + timeout + (if old(high) then 0 else 1)
                && forall k :: |run| - timeout <= k < |run| ==> Refused(core.p, run, k, data)
    {
      hide Accepted, Popped, Run, Core.View, Core.Valid, TxByteReady, Next, Pops, Core.Repr, Refused;
      ghost var before := Accepted(core.p, run) + StrayByte();
      ghost var offset := if high then 0 else 1;
      accepted := false;
      Fall();
      ghost var first := |run|;
      txValid, txData := false, data;
      txValid := true;
      var cycle := 0;
      while cycle < timeout
        invariant Valid() && txValid && txData == data && !accepted && !high
        invariant 0 <= cycle <= timeout && |run| == |old(run)| + offset + cycle
        invariant Accepted(core.p, run) == before
        invariant first == |run| - cycle && forall k :: first <= k < |run| ==> Refused(core.p, run, k, data)
      {
        ghost var was, x := run, Inputs();
        var readyForEdge := TxByteReadyOut();
        Rise();
        if readyForEdge {
          accepted := true;
          break;
        }
        RefusedNext(core.p, was, x, data, first);
        Fall();
        cycle := cycle + 1;
      }
      if high {
        Fall();
      }
      txValid, txData := false, data;
    }

    /** `rx_byte_valid` and the data and flag outputs, None when not valid. */
    method RxByteOut() returns (r: Option<Record>)
      requires Valid()
      ensures Valid() && r == RxHead(core.p, run)
    {
      hide Next, Run;
      if core.rxFifo.Empty() {
        r := None;
      } else {
        var x := core.rxFifo.PopData();
        r := Some(x);
      }
    }

    /** What leaves on its own before a call that starts with the ready pin high gets to lower it. */
    ghost function Stray(): seq<Record>
      reads this, core
    {
      if high then [] else Leaving()
    }

    /** `pop_rx_byte`: a call removes exactly the one record it reports, and none when it times out, which takes
        `timeout` looks at an empty queue. A receive FIFO clear during the call may take the record seen, or one
        behind it; the call then removes at most one. */
    method PopRx(timeout: nat) returns (rec: Option<Record>)
      requires Valid()
      modifies this`clocks, this`high, this`run, this`rxReady, core.Repr()
      ensures Valid() && !rxReady
      ensures timeout == 0 ==> rec.None?
      ensures rec.None? ==> Popped(core.p, run) == Popped(core.p, old(run)) + old(Stray())
      ensures rec.Some? ==> AtMostOneMore(Popped(core.p, old(run)) + old(Stray()), Popped(core.p, run))
      ensures rec.Some? && NoRxClear(run, |old(run)|) ==>
                Popped(core.p, run) == Popped(core.p, old(run)) + old(Stray()) + [rec.value]
      ensures rec.None? ==>
                && |run| == |old(run)| + timeout + (if old(high) then 0 else 1)
                && forall k :: |run| - timeout <= k < |run| ==> RxHead(core.p, run[..k]).None?
    {
      hide Accepted, Popped, Run, RxHead, Core.View, Core.Valid, Next, Accepts, Core.Repr;
      ghost var before := Popped(core.p, run) + Stray();
      Fall();
      ghost var first := |run|;
      rxReady := false;
      rec := None;
      var cycle := 0;
      while cycle < timeout
        invariant Valid() && !rxReady && rec.None?
        invariant Popped(core.p, run) == before
        invariant 0 <= cycle <= timeout && |run| == first + cycle
        invariant forall k :: first <= k < |run| ==> RxHead(core.p, run[..k]).None?
      {
        rec := RxByteOut();
        if rec.Some? {
          break;
        }
        ghost var was := run;
        Rise();
        RunExtends(core.p, was, run, first);
        cycle := cycle + 1;
      }
      if rec.Some? {
        Acknowledge(rec.value);
      }
    }

    /** The part of `pop_rx_byte` after a record has been seen. */
    method Acknowledge(seen: Record)
      requires Valid() && !rxReady && RxHead(core.p, run) == Some(seen)
      modifies this`clocks, this`high, this`run, this`rxReady, core.Repr()
      ensures Valid() && !rxReady && |run| >= |old(run)|
      ensures AtMostOneMore(Popped(core.p, old(run)), Popped(core.p, run))
      ensures NoRxClear(run, |old(run)|) ==> Popped(core.p, run) == Popped(core.p, old(run)) + [seen]
    {
      hide Accepted, Popped, Run, Core.View, Core.Valid, Next, Accepts, Core.Repr;
      if !Inputs().rxClear {
        HeadStays(core.p, run, Inputs());
      }
      ghost var was := run;
      Fall();
      ghost var mid := run;
      rxReady := true;
      Rise();
      ClearsBefore(was, mid, run);
      Fall();
      rxReady := false;
    }

    /** `set_rx_ready`. */
    method SetRxReady(ready: bool)
      requires Valid()
      modifies this`clocks, this`high, this`run, this`rxReady, core.Repr()
      ensures Valid() && !high && rxReady == ready
      ensures run == if old(high) then old(run) else old(run) + [old(Inputs())]
    {
      hide Accepted, Popped, Run, Core.View, Core.Valid, Next, Accepts, Core.Repr, Pops;
      Fall();
      rxReady := ready;
    }
  }

  // ---- A record lost ----

  /** Runs after which a record waits, with nothing pushed or taken before. */
  predicate RecordWaits(p: Params, xs: seq<CoreIn>) {
    && Run(p, xs).rxQueue != []
    && forall i :: 0 <= i < |xs| ==>
         !xs[i].txValid && xs[i].txData == ZERO_BYTE && !xs[i].rxReady && xs[i].baudInc < p.Modulus()
  }

  /** They exist for every core that can receive at all. */
  lemma RecordCanWait(p: Params) returns (xs: seq<CoreIn>)
    requires p.Valid() && p.accWidth >= 1
    ensures RecordWaits(p, xs) && xs != [] && Popped(p, xs) == []
  {
    xs := RtsTight.Breaks(p, 1);
    hide Run, RtsTight.Decoded;
    RtsTight.HeldFills(p, xs);
    RtsTight.SomeQueued(p, xs);
    assert xs != [] by {
      if xs == [] {
        RunNil(p);
      }
    }
    NothingPopped(p, xs);
  }

  lemma {:induction false} NothingPopped(p: Params, xs: seq<CoreIn>)
    requires forall i :: 0 <= i < |xs| ==> !xs[i].rxReady
    ensures Popped(p, xs) == []
    decreases |xs|
  {
    if xs != [] {
      NothingPopped(p, xs[..|xs| - 1]);
    }
  }

  /** A bench driven through such a run. */
  method Replay(p: Params, xs: seq<CoreIn>) returns (b: Bench)
    requires p.Valid() && xs != [] && RecordWaits(p, xs)
    ensures b.Valid() && fresh(b) && fresh(b.core) && fresh(b.core.Repr())
    ensures b.core.p == p && b.run == xs && b.high
  {
    hide Run, Core.View, Core.Valid, Next, TxByteReady, Accepted, Popped;
    var last := xs[|xs| - 1];
    b := new Bench(p, k => if 0 <= k < |xs| then xs[k] else last);
    for i := 0 to |xs|
      invariant b.Valid() && b.core.p == p && fresh(b) && fresh(b.core) && fresh(b.core.Repr())
      invariant b.run == xs[..i] && !b.txValid && b.txData == ZERO_BYTE && !b.rxReady && b.high == (i > 0)
      invariant b.world == (k => if 0 <= k < |xs| then xs[k] else last)
    {
      hide Core.Repr, Bench.Valid;
      assert b.Inputs() == xs[i];
      b.Rise();
    }
    assert b.run == xs;
  }

  /** After any such run, `set_rx_ready(true)` and then `pop_rx_byte`: the record that waited is gone, and with
      a timeout of 0 the call reports none. */
  method LoseRecord(p: Params, xs: seq<CoreIn>) returns (b: Bench, rec: Option<Record>)
    requires p.Valid() && xs != [] && RecordWaits(p, xs)
    ensures b.Valid() && rec.None?
    ensures Popped(p, b.run) == Popped(p, xs) + [Run(p, xs).rxQueue[0]]
  {
    hide Popped, Run, Core.View, Core.Valid, Next, TxByteReady, Accepted, Bench.Valid, Core.Repr;
    b := Replay(p, xs);
    b.SetRxReady(true);
    rec := b.PopRx(0);
  }
}
