/** Byte conservation of the core: what enters either FIFO leaves it once, in order, or is accounted for. */
module Conservation {
  import opened UartFormat
  import opened UartCore
  import UartTx
  import UartRx
  import ByteFifo
  import Ledger

  // ---- Transmit side ----

  /** What an observer of the TX side has written down: bytes taken over the byte stream, bytes that started on
      the serializer, bytes waiting at a clear that did not start in that clock, and done pulses. */
  datatype TxLog = TxLog(accepted: seq<Byte>, launched: seq<Byte>, discarded: seq<Byte>, done: nat)

  predicate Accepts(p: Params, v: CoreView, x: CoreIn) {
    x.txValid && TxByteReady(p, v, x)
  }

  function NextTxLog(p: Params, v: CoreView, x: CoreIn, log: TxLog): TxLog {
    var input := TxInput(p, v, x);
    var starts := UartTx.Launches(v.tx, input);
    var waiting := if starts && v.txQueue != [] then v.txQueue[1..] else v.txQueue;
    TxLog(if Accepts(p, v, x) then log.accepted + [x.txData] else log.accepted,
          if starts then log.launched + [input.data] else log.launched,
          if x.txClear then log.discarded + waiting else log.discarded,
          if Next(p, v, x).tx.done then log.done + 1 else log.done)
  }

  function TxLogOf(p: Params, xs: seq<CoreIn>): TxLog
    decreases |xs|
  {
    if xs == [] then TxLog([], [], [], 0)
    else
      var ys := xs[..|xs| - 1];
      NextTxLog(p, Run(p, ys), xs[|xs| - 1], TxLogOf(p, ys))
  }

  function TxBook(p: Params, xs: seq<CoreIn>): Ledger.Book
    decreases |xs|
  {
    if xs == [] then Ledger.EMPTY
    else
      var ys, x := xs[..|xs| - 1], xs[|xs| - 1];
      var v := Run(p, ys);
      Ledger.Next(TxBook(p, ys), p.txDepth, x.txClear, Accepts(p, v, x), TxStart(p, v, x))
  }

  /** A push is offered exactly as if only accepted bytes were offered. */
  lemma OfferedIsAccepted(p: Params, v: CoreView, x: CoreIn)
    ensures NextTxQueue(p, v, x)
         == ByteFifo.Next(v.txQueue, p.txDepth, x.txClear, Accepts(p, v, x) && !x.txClear, x.txData,
                          TxStart(p, v, x))
    ensures Accepts(p, v, x) ==> ByteFifo.PushReady(v.txQueue, p.txDepth, TxStart(p, v, x)) && !x.txClear
  {
  }

  /** A FIFO pop and a serializer launch are the same event, with the same byte. */
  lemma StartIsLaunch(p: Params, v: CoreView, x: CoreIn)
    ensures UartTx.Launches(v.tx, TxInput(p, v, x)) == ByteFifo.PopFires(v.txQueue, TxStart(p, v, x))
    ensures TxStart(p, v, x) ==> TxInput(p, v, x).data == v.txQueue[0]
  {
  }

  /** TX conservation: on any run from reset, every accepted byte is, exactly once, launched, discarded by a
      clear or still queued; launched and queued bytes keep the order of acceptance; none is dropped. */
  lemma {:induction false} TxConservation(p: Params, xs: seq<CoreIn>)
    ensures var log := TxLogOf(p, xs);
            Ledger.Describes(TxBook(p, xs), log.accepted, Run(p, xs).txQueue, log.launched, [], log.discarded)
    decreases |xs|
  {
    if xs != [] {
      var ys, x := xs[..|xs| - 1], xs[|xs| - 1];
      var v, log, book := Run(p, ys), TxLogOf(p, ys), TxBook(p, ys);
      TxConservation(p, ys);
      OfferedIsAccepted(p, v, x);
      StartIsLaunch(p, v, x);
      Ledger.NextDescribes(book, log.accepted, v.txQueue, log.launched, [], log.discarded,
                           p.txDepth, x.txClear, Accepts(p, v, x), x.txData, TxStart(p, v, x));
      TxLogStep(p, v, x, log);
      hide Ledger.Describes, ByteFifo.Next, Ledger.Next, TxStart, Accepts, TxInput, NextTxLog;
    } else {
      EmptyBook<Byte>();
    }
  }

  lemma TxLogStep(p: Params, v: CoreView, x: CoreIn, log: TxLog)
    ensures var pops := ByteFifo.PopFires(v.txQueue, TxStart(p, v, x));
            var new' := if Accepts(p, v, x) then [x.txData] else [];
            var log' := NextTxLog(p, v, x, log);
            && log'.accepted == log.accepted + new'
            && log'.launched == log.launched + (if pops then [v.txQueue[0]] else [])
            && log'.discarded == log.discarded + (if x.txClear then (if pops then v.txQueue[1..] else v.txQueue) + new'
                                                  else [])
  {
    StartIsLaunch(p, v, x);
    OfferedIsAccepted(p, v, x);
  }

  lemma EmptyBook<T>()
    ensures Ledger.Describes<T>(Ledger.EMPTY, [], [], [], [], [])
  {
  }

  /** Done pulses are the launches minus the character still being serialized. */
  lemma {:induction false} DoneCount(p: Params, xs: seq<CoreIn>)
    ensures var log := TxLogOf(p, xs);
            |log.launched| == log.done + (if UartTx.Ready(Run(p, xs).tx) then 0 else 1)
    decreases |xs|
  {
    if xs != [] {
      DoneCount(p, xs[..|xs| - 1]);
    }
  }

  // ---- Receive side ----

  /** What an observer of the RX side has written down: records completed by the decoder, records handed over
      on the byte stream, records whose arrival raised `event_rx_overrun`, and records lost to a clear. */
  datatype RxLog = RxLog(decoded: seq<Record>, popped: seq<Record>, overrun: seq<Record>, discarded: seq<Record>)

  predicate Pops(v: CoreView, x: CoreIn) {
    RxByteValid(v) && x.rxReady
  }

  function NextRxLog(p: Params, v: CoreView, x: CoreIn, log: RxLog): RxLog {
    var arrived := UartRx.Pulse(v.rx.out);
    var waiting := if Pops(v, x) then v.rxQueue[1..] else v.rxQueue;
    RxLog(log.decoded + arrived,
          if Pops(v, x) then log.popped + [v.rxQueue[0]] else log.popped,
          if Overrun(p, v, x) then log.overrun + arrived else log.overrun,
          if x.rxClear then log.discarded + waiting + arrived else log.discarded)
  }

  function RxLogOf(p: Params, xs: seq<CoreIn>): RxLog
    decreases |xs|
  {
    if xs == [] then RxLog([], [], [], [])
    else
      var ys := xs[..|xs| - 1];
      NextRxLog(p, Run(p, ys), xs[|xs| - 1], RxLogOf(p, ys))
  }

  function RxBook(p: Params, xs: seq<CoreIn>): Ledger.Book
    decreases |xs|
  {
    if xs == [] then Ledger.EMPTY
    else
      var ys, x := xs[..|xs| - 1], xs[|xs| - 1];
      Ledger.Next(RxBook(p, ys), p.rxDepth, x.rxClear, RxArrives(Run(p, ys)), x.rxReady)
  }

  /** RX conservation: on any run from reset, every decoded record, flags and byte together, is exactly once
      popped, still queued, reported by an overrun event or discarded by a clear; popped and queued records
      keep the order of arrival. */
  lemma {:induction false} RxConservation(p: Params, xs: seq<CoreIn>)
    ensures var log := RxLogOf(p, xs);
            Ledger.Describes(RxBook(p, xs), log.decoded, Run(p, xs).rxQueue, log.popped, log.overrun, log.discarded)
    decreases |xs|
  {
    if xs != [] {
      var ys, x := xs[..|xs| - 1], xs[|xs| - 1];
      var v, log, book := Run(p, ys), RxLogOf(p, ys), RxBook(p, ys);
      RxConservation(p, ys);
      var record := if v.rx.out.Some? then v.rx.out.value else UartRx.CLEAN;
      Ledger.NextDescribes(book, log.decoded, v.rxQueue, log.popped, log.overrun, log.discarded,
                           p.rxDepth, x.rxClear, RxArrives(v), record, x.rxReady);
      RxLogStep(p, v, x, log, record);
      hide Ledger.Describes, ByteFifo.Next, Ledger.Next, NextRxLog;
    } else {
      EmptyBook<Record>();
    }
  }

  lemma RxLogStep(p: Params, v: CoreView, x: CoreIn, log: RxLog, record: Record)
    requires v.rx.out.Some? ==> record == v.rx.out.value
    ensures var pops := ByteFifo.PopFires(v.rxQueue, x.rxReady);
            var room := ByteFifo.PushReady(v.rxQueue, p.rxDepth, x.rxReady);
            var rest := if pops then v.rxQueue[1..] else v.rxQueue;
            var new' := if RxArrives(v) then [record] else [];
            var log' := NextRxLog(p, v, x, log);
            && log'.decoded == log.decoded + new'
            && log'.popped == log.popped + (if pops then [v.rxQueue[0]] else [])
            && log'.overrun == log.overrun + (if !x.rxClear && !room then new' else [])
            && log'.discarded == log.discarded + (if x.rxClear then rest + new' else [])
  {
    var rest := if Pops(v, x) then v.rxQueue[1..] else v.rxQueue;
    assert log.discarded + rest + UartRx.Pulse(v.rx.out) == log.discarded + (rest + UartRx.Pulse(v.rx.out));
  }

  /** Nothing lost: without clears or overruns the popped records are a prefix of the decoded ones. */
  lemma RxPrefix(p: Params, xs: seq<CoreIn>)
    requires RxLogOf(p, xs).overrun == [] && RxLogOf(p, xs).discarded == []
    ensures RxLogOf(p, xs).decoded == RxLogOf(p, xs).popped + Run(p, xs).rxQueue
  {
    RxConservation(p, xs);
    var log := RxLogOf(p, xs);
    Ledger.NothingLost(RxBook(p, xs), log.decoded, Run(p, xs).rxQueue, log.popped);
  }

  /** Nothing lost: without clears the launched bytes are a prefix of the accepted ones. */
  lemma TxPrefix(p: Params, xs: seq<CoreIn>)
    requires TxLogOf(p, xs).discarded == []
    ensures TxLogOf(p, xs).accepted == TxLogOf(p, xs).launched + Run(p, xs).txQueue
  {
    TxConservation(p, xs);
    var log := TxLogOf(p, xs);
    Ledger.NothingLost(TxBook(p, xs), log.accepted, Run(p, xs).txQueue, log.launched);
  }
}
