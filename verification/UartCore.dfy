/** uart_core.sv: the glue that wires the synchronizer, baud generator, decoder, serializer, FIFOs and the
    optional flow control into one core. */
module UartCore {
  import opened UartFormat
  import Arithmetic
  import BaudGen
  import RxSync
  import UartRx
  import UartTx
  import ByteFifo
  import FlowCtrl

  datatype Params = Params(
    accWidth: nat,
    oversample: nat,
    rxDepth: nat,
    txDepth: nat,
    hasRtsCts: bool,
    rtsActiveLow: bool,
    ctsActiveLow: bool,
    deassertLevel: nat,
    assertLevel: nat)
  {
    /** The depths the RTL can elaborate. */
    predicate Valid() {
      rxDepth >= 1 && txDepth >= 1
    }

    function Modulus(): (m: nat)
      ensures m >= 1
    {
      Arithmetic.Pow2(accWidth)
    }

    function Ratio(): (r: nat)
      ensures r >= 1
    {
      BaudGen.Ratio(oversample)
    }
  }

  datatype CoreIn = CoreIn(
    rxPin: bool,
    ctsPin: bool,
    enable: bool,
    rxEnable: bool,
    txEnable: bool,
    baudInc: nat,
    cfg: Config,
    hwFlow: bool,
    rxClear: bool,
    txClear: bool,
    txValid: bool,
    txData: Byte,
    rxReady: bool)

  datatype CoreView = CoreView(
    baud: BaudGen.BaudView,
    sync: RxSync.SyncView,
    rx: UartRx.RxView,
    tx: UartTx.TxView,
    rxQueue: seq<Record>,
    txQueue: seq<Byte>,
    flow: Option<FlowCtrl.FlowView>)

  function Reset(p: Params): CoreView {
    CoreView(BaudGen.RESET, RxSync.RESET, UartRx.RESET, UartTx.RESET, [], [],
             if p.hasRtsCts then Some(FlowCtrl.Reset(p.ctsActiveLow)) else None)
  }

  // ---- The wires of the top level ----

  predicate OsTick(p: Params, v: CoreView) {
    BaudGen.OsTick(p.Modulus(), v.baud)
  }

  predicate BaudTick(p: Params, v: CoreView) {
    BaudGen.BaudTick(p.Modulus(), p.Ratio(), v.baud)
  }

  predicate StartAllowed(p: Params, v: CoreView, x: CoreIn) {
    v.flow.None? || FlowCtrl.StartAllowed(v.flow.value, p.ctsActiveLow, x.hwFlow)
  }

  predicate LaunchWanted(v: CoreView, x: CoreIn) {
    x.enable && x.txEnable && v.txQueue != [] && UartTx.Ready(v.tx)
  }

  /** `tx_start`, which is also the pop of the TX FIFO. */
  predicate TxStart(p: Params, v: CoreView, x: CoreIn) {
    LaunchWanted(v, x) && StartAllowed(p, v, x) && BaudTick(p, v)
  }

  predicate CtsBlocked(p: Params, v: CoreView, x: CoreIn) {
    v.flow.Some? && x.hwFlow && LaunchWanted(v, x) && !FlowCtrl.CtsRaw(v.flow.value, p.ctsActiveLow)
  }

  predicate TxByteReady(p: Params, v: CoreView, x: CoreIn) {
    ByteFifo.PushReady(v.txQueue, p.txDepth, TxStart(p, v, x)) && !x.txClear
  }

  /** CTS decides a launch: with flow control on and the synchronized pin at its inactive level, `cts_blocked` is up
      exactly when both enables, a waiting byte and an idle serializer ask for one; a launch is a wanted one, on a
      baud tick, that is not blocked. */
  lemma LaunchExact(p: Params, v: CoreView, x: CoreIn)
    ensures TxStart(p, v, x) <==> LaunchWanted(v, x) && BaudTick(p, v) && !CtsBlocked(p, v, x)
    ensures CtsBlocked(p, v, x) <==>
              && v.flow.Some? && x.hwFlow && v.flow.value.c2 == p.ctsActiveLow
              && x.enable && x.txEnable && v.txQueue != [] && v.tx.rest == []
  {
  }

  /** `tx_byte_ready` and CTS: two CTS levels give a different ready exactly when a full queue would launch. */
  lemma ReadyFollowsCts(p: Params, v: CoreView, x: CoreIn, f: FlowCtrl.FlowView, g: FlowCtrl.FlowView)
    requires FlowCtrl.CtsRaw(f, p.ctsActiveLow) && !FlowCtrl.CtsRaw(g, p.ctsActiveLow)
    ensures TxByteReady(p, v.(flow := Some(f)), x) != TxByteReady(p, v.(flow := Some(g)), x)
       <==> x.hwFlow && LaunchWanted(v, x) && BaudTick(p, v) && |v.txQueue| >= p.txDepth && !x.txClear
  {
    hide OsTick;
  }

  predicate RxArrives(v: CoreView) {
    v.rx.out.Some?
  }

  predicate RxByteValid(v: CoreView) {
    v.rxQueue != []
  }

  predicate Overrun(p: Params, v: CoreView, x: CoreIn) {
    RxArrives(v) && !x.rxClear && !ByteFifo.PushReady(v.rxQueue, p.rxDepth, x.rxReady)
  }

  predicate RtsActive(v: CoreView, x: CoreIn) {
    v.flow.Some? && FlowCtrl.RtsActive(v.flow.value, x.enable, x.rxEnable, x.hwFlow)
  }

  function TxInput(p: Params, v: CoreView, x: CoreIn): UartTx.TxIn {
    UartTx.TxIn(x.enable, x.txEnable, x.cfg, BaudTick(p, v), TxStart(p, v, x),
                if v.txQueue != [] then v.txQueue[0] else ZERO_BYTE)
  }

  function RxInput(p: Params, v: CoreView, x: CoreIn): UartRx.RxIn {
    UartRx.RxIn(x.enable, x.rxEnable, x.cfg, OsTick(p, v), v.sync.s2)
  }

  function FlowInput(v: CoreView, x: CoreIn): FlowCtrl.FlowIn {
    FlowCtrl.FlowIn(x.enable, x.rxEnable, x.hwFlow, x.ctsPin, |v.rxQueue|)
  }

  function NextRxQueue(p: Params, v: CoreView, x: CoreIn): seq<Record> {
    var arrives := RxArrives(v) && !x.rxClear;
    var record := if v.rx.out.Some? then v.rx.out.value else UartRx.CLEAN;
    ByteFifo.Next(v.rxQueue, p.rxDepth, x.rxClear, arrives, record, x.rxReady)
  }

  function NextTxQueue(p: Params, v: CoreView, x: CoreIn): seq<Byte> {
    ByteFifo.Next(v.txQueue, p.txDepth, x.txClear, x.txValid && !x.txClear, x.txData, TxStart(p, v, x))
  }

  /** One clock of the whole core. */
  function Next(p: Params, v: CoreView, x: CoreIn): CoreView {
    CoreView(
      BaudGen.Next(v.baud, x.enable, x.baudInc),
      RxSync.Next(v.sync, x.rxPin),
      UartRx.Next(p.oversample, v.rx, RxInput(p, v, x)),
      UartTx.Next(v.tx, TxInput(p, v, x)),
      NextRxQueue(p, v, x),
      NextTxQueue(p, v, x),
      if v.flow.Some? then Some(FlowCtrl.Next(v.flow.value, p.assertLevel, p.deassertLevel, FlowInput(v, x)))
      else None)
  }

  /** The core after a run of clocks from reset. */
  function Run(p: Params, xs: seq<CoreIn>): CoreView
    decreases |xs|
  {
    if xs == [] then Reset(p) else Next(p, Run(p, xs[..|xs| - 1]), xs[|xs| - 1])
  }

  lemma RunNil(p: Params)
    ensures Run(p, []) == Reset(p)
  {
  }

  lemma RunSnoc(p: Params, xs: seq<CoreIn>, x: CoreIn)
    ensures Run(p, xs + [x]) == Next(p, Run(p, xs), x)
  {
    hide Next;
    assert (xs + [x])[..|xs|] == xs;
  }

  // ---- Single clocks, on pins ----

  /** RTS without runtime flow control follows the enables. */
  lemma RtsWithoutFlow(v: CoreView, x: CoreIn)
    requires v.flow.Some? && !x.hwFlow
    ensures RtsActive(v, x) <==> x.enable && x.rxEnable
  {
  }

  /** RTS in the clock after x, under flow control: inactive after a disabled receiver, active after flow control
      was off, and otherwise by hysteresis on the receive level. */
  lemma RtsNextClock(p: Params, v: CoreView, x: CoreIn, y: CoreIn)
    requires v.flow.Some? && y.hwFlow
    ensures !x.enable || !x.rxEnable ==> !RtsActive(Next(p, v, x), y)
    ensures x.enable && x.rxEnable && !x.hwFlow ==> RtsActive(Next(p, v, x), y)
    ensures x.enable && x.rxEnable && x.hwFlow && RtsActive(v, x) ==>
              (RtsActive(Next(p, v, x), y) <==> |v.rxQueue| < p.deassertLevel)
    ensures x.enable && x.rxEnable && x.hwFlow && !RtsActive(v, x) ==>
              (RtsActive(Next(p, v, x), y) <==> |v.rxQueue| <= p.assertLevel)
  {
    hide UartRx.Next, UartTx.Next, NextRxQueue, NextTxQueue;
  }

  /** The CTS pin acts three clocks later: an active-low pin permits when low, an active-high one when high. */
  lemma CtsPinActs(p: Params, v: CoreView, x: CoreIn, y: CoreIn, z: CoreIn, u: CoreIn)
    requires v.flow.Some? && u.hwFlow
    ensures var w := Next(p, Next(p, Next(p, v, x), y), z);
            StartAllowed(p, w, u) <==> (if p.ctsActiveLow then !x.ctsPin else x.ctsPin)
  {
    hide UartRx.Next, UartTx.Next, NextRxQueue, NextTxQueue;
  }

  /** The CTS level a run ends with, k clocks back: the pin, or the active level before it has been seen. */
  function CtsBack(p: Params, xs: seq<CoreIn>, k: nat): bool {
    if k < |xs| then xs[|xs| - 1 - k].ctsPin else !p.ctsActiveLow
  }

  lemma {:induction false} CtsStages(p: Params, xs: seq<CoreIn>)
    requires p.hasRtsCts
    ensures var f := Run(p, xs).flow;
            && f.Some? && f.value.c0 == CtsBack(p, xs, 0) && f.value.c1 == CtsBack(p, xs, 1)
            && f.value.c2 == CtsBack(p, xs, 2)
    decreases |xs|
  {
    hide UartRx.Next, UartTx.Next, BaudGen.Next, NextRxQueue, NextTxQueue, FlowCtrl.NextRts;
    if xs != [] {
      CtsStages(p, xs[..|xs| - 1]);
    }
  }

  /** From reset on, under flow control, a launch is allowed in the first three clocks and then exactly when the
      CTS pin was active three clocks ago. */
  lemma CtsFromReset(p: Params, xs: seq<CoreIn>, u: CoreIn)
    requires p.hasRtsCts && u.hwFlow
    ensures StartAllowed(p, Run(p, xs), u) <==>
              |xs| < 3 || (if p.ctsActiveLow then !xs[|xs| - 3].ctsPin else xs[|xs| - 3].ctsPin)
  {
    CtsStages(p, xs);
    hide Run;
  }

  /** Any clock with the core disabled puts the baud generator back to its reset state, and there is no tick. */
  lemma DisabledGenerator(p: Params, v: CoreView, x: CoreIn)
    requires !x.enable
    ensures Next(p, v, x).baud == Reset(p).baud && !OsTick(p, Next(p, v, x)) && !BaudTick(p, Next(p, v, x))
  {
    hide UartRx.Next, UartTx.Next, NextRxQueue, NextTxQueue;
  }

  /** A receiver that is off in every clock starts nothing and publishes nothing, whatever the line shows. */
  lemma {:induction false} DisabledReceiver(p: Params, xs: seq<CoreIn>)
    requires forall i :: 0 <= i < |xs| ==> !xs[i].enable || !xs[i].rxEnable
    ensures Run(p, xs).rx.phase.Hunting? && !RxArrives(Run(p, xs)) && Run(p, xs).rxQueue == []
    decreases |xs|
  {
    if xs != [] {
      DisabledReceiver(p, xs[..|xs| - 1]);
      hide UartTx.Next, NextTxQueue;
    }
  }

  /** An enabled, armed receiver starts on a low line, with the format of that clock; a falling edge seen while it
      is off is lost. */
  lemma StartOfCharacter(p: Params, v: CoreView, x: CoreIn)
    requires v.rx.phase == UartRx.Hunting(true) && !v.sync.s2
    ensures Next(p, v, x).rx.phase == if x.enable && x.rxEnable then UartRx.Sampling(Latch(x.cfg), 0, [])
                                      else UartRx.Hunting(false)
  {
    hide UartTx.Next, NextRxQueue, NextTxQueue, Latch;
  }

  // ---- CTS reaches tx_byte_ready ----

  /** A core with one-element queues and a tick in every second clock. */
  const TINY := Params(1, 1, 1, 1, true, true, true, 0, 0)

  function Sending(ctsPin: bool, txValid: bool): CoreIn {
    CoreIn(true, ctsPin, true, false, true, 1, Config(DATA_8, STOP_1, PARITY_NONE), true, false, false, txValid,
           ZERO_BYTE, false)
  }

  /** Three quiet clocks and a push. */
  function SendingRun(ctsPin: bool): seq<CoreIn> {
    [Sending(ctsPin, false), Sending(ctsPin, false), Sending(ctsPin, false), Sending(ctsPin, true)]
  }

  ghost predicate TinyAt(v: CoreView, n: nat, ctsPin: bool) {
    && v.baud == BaudGen.BaudView(if n == 0 then 0 else n - 1, n) && v.tx == UartTx.RESET
    && v.flow.Some? && (n >= 1 ==> v.flow.value.c0 == ctsPin) && (n >= 2 ==> v.flow.value.c1 == ctsPin)
    && (n >= 3 ==> v.flow.value.c2 == ctsPin)
  }

  lemma TinyStep(v: CoreView, n: nat, ctsPin: bool, txValid: bool)
    requires TinyAt(v, n, ctsPin) && n < 4 && v.txQueue == []
    ensures var w := Next(TINY, v, Sending(ctsPin, txValid));
            TinyAt(w, n + 1, ctsPin) && w.txQueue == if txValid then [ZERO_BYTE] else []
  {
    hide UartRx.Next;
  }

  /** Two runs that differ in the CTS pin alone: with CTS active (low) the full queue is ready, without it is not. */
  lemma ReadyShowsCts(ctsPin: bool)
    ensures TxByteReady(TINY, Run(TINY, SendingRun(ctsPin)), Sending(ctsPin, true)) <==> !ctsPin
  {
    hide Run, TinyAt, TxByteReady;
    TinyRun(ctsPin);
    ReadyAtTick(Run(TINY, SendingRun(ctsPin)), ctsPin);
  }

  lemma TinyRun(ctsPin: bool)
    ensures var v := Run(TINY, SendingRun(ctsPin)); TinyAt(v, 4, ctsPin) && v.txQueue == [ZERO_BYTE]
  {
    hide Run, Next;
    var a, b := Sending(ctsPin, false), Sending(ctsPin, true);
    RunNil(TINY);
    assert TinyAt(Reset(TINY), 0, ctsPin);
    hide TinyAt;
    TinyStep(Run(TINY, []), 0, ctsPin, false);
    RunSnoc(TINY, [], a);
    TinyStep(Run(TINY, [] + [a]), 1, ctsPin, false);
    RunSnoc(TINY, [] + [a], a);
    TinyStep(Run(TINY, [] + [a] + [a]), 2, ctsPin, false);
    RunSnoc(TINY, [] + [a] + [a], a);
    TinyStep(Run(TINY, [] + [a] + [a] + [a]), 3, ctsPin, true);
    RunSnoc(TINY, [] + [a] + [a] + [a], b);
    assert [] + [a] + [a] + [a] + [b] == SendingRun(ctsPin);
  }

  lemma ReadyAtTick(v: CoreView, ctsPin: bool)
    requires TinyAt(v, 4, ctsPin) && v.txQueue == [ZERO_BYTE]
    ensures TxByteReady(TINY, v, Sending(ctsPin, true)) <==> !ctsPin
  {
    assert Arithmetic.Pow2(1) == 2;
  }

  class Core {
    const p: Params
    const sync: RxSync.Synchronizer
    const baud: BaudGen.BaudGenerator
    const rx: UartRx.Decoder
    const tx: UartTx.Serializer
    const rxFifo: ByteFifo.Fifo<Record>
    const txFifo: ByteFifo.Fifo<Byte>
    const flow: FlowCtrl.FlowController?

    ghost function Repr(): set<object> {
      {sync, baud, rx, tx, rxFifo, rxFifo.mem, txFifo, txFifo.mem} + (if flow != null then {flow} else {})
    }

    ghost predicate Valid()
      reads this, Repr()
    {
      && p.Valid()
      && rxFifo.mem as object != txFifo.mem
      && rxFifo as object != txFifo
      && sync.Valid()
      && baud.Valid() && baud.accWidth == p.accWidth && baud.oversample == p.oversample
      && rx.Valid() && rx.oversample == p.oversample
      && tx.Valid()
      && rxFifo.Valid() && rxFifo.depth == p.rxDepth
      && txFifo.Valid() && txFifo.depth == p.txDepth
      && (flow != null) == p.hasRtsCts
      && (flow != null ==>
            && flow.Valid()
            && flow.ctsActiveLow == p.ctsActiveLow && flow.rtsActiveLow == p.rtsActiveLow
            && flow.assertLevel == p.assertLevel && flow.deassertLevel == p.deassertLevel)
    }

    ghost function View(): CoreView
      requires Valid()
      reads this, Repr()
    {
      CoreView(baud.View(), sync.View(), rx.View(), tx.View(), rxFifo.Contents(), txFifo.Contents(),
               if flow != null then Some(flow.View()) else None)
    }

    constructor (p: Params)
      requires p.Valid()
      ensures Valid() && fresh(Repr()) && this.p == p && View() == Reset(p)
    {
      hide ByteFifo.Fifo.Contents, ByteFifo.Fifo.Valid, UartRx.Decoder.View, UartRx.Decoder.Valid;
      hide UartTx.Serializer.Valid, UartTx.Serializer.View, BaudGen.BaudGenerator.Valid, BaudGen.BaudGenerator.View;
      hide RxSync.Synchronizer.Valid, RxSync.Synchronizer.View, FlowCtrl.FlowController.Valid, FlowCtrl.FlowController.View;
      hide FlowCtrl.Reset;
      this.p := p;
      var s := new RxSync.Synchronizer();
      var b := new BaudGen.BaudGenerator(p.accWidth, p.oversample);
      var r := new UartRx.Decoder(p.oversample);
      var t := new UartTx.Serializer();
      var rf := new ByteFifo.Fifo<Record>(p.rxDepth);
      var tf := new ByteFifo.Fifo<Byte>(p.txDepth);
      sync, baud, rx, tx, rxFifo, txFifo := s, b, r, t, rf, tf;
      if p.hasRtsCts {
        var f := new FlowCtrl.FlowController(p.rtsActiveLow, p.ctsActiveLow, p.deassertLevel, p.assertLevel);
        flow := f;
      } else {
        flow := null;
      }
    }

    /** All wires are read from the old registers before any register changes. */
    method Step(x: CoreIn)
      requires Valid() && x.baudInc < p.Modulus()
      modifies Repr()
      ensures Valid() && View() == Next(p, old(View()), x)
    {
      hide UartRx.Next, UartTx.Next, ByteFifo.Next, BaudGen.Next, RxSync.Next, FlowCtrl.Next;
      hide ByteFifo.Fifo.Contents, ByteFifo.Fifo.Valid, UartRx.Decoder.View, UartRx.Registers.Valid;
      hide UartTx.Serializer.Valid, UartTx.Serializer.View, BaudGen.BaudGenerator.Valid, BaudGen.BaudGenerator.View;
      hide RxSync.Synchronizer.Valid, RxSync.Synchronizer.View, FlowCtrl.FlowController.Valid, FlowCtrl.FlowController.View;
      hide TxStart, UartRx.Decoder.Valid;
      var txStart := Wires(x);
      var rxValid, rxRecord := rx.CharValid(), rx.CharRecord();
      var rxLevel := rxFifo.level;
      ByteFifo.NextIgnoresData(rxFifo.Contents(), p.rxDepth, x.rxClear, rxRecord, UartRx.CLEAN, x.rxReady);
      StepEngines(x, txStart);
      StepFifos(x, rxValid, rxRecord, txStart);
      if flow != null {
        flow.Step(FlowCtrl.FlowIn(x.enable, x.rxEnable, x.hwFlow, x.ctsPin, rxLevel));
      }
    }

    /** `tx_start`, read off the sub-modules. */
    method Wires(x: CoreIn) returns (txStart: bool)
      requires Valid()
      ensures txStart == TxStart(p, View(), x)
    {
      hide UartRx.Next, UartTx.Next, ByteFifo.Next, BaudGen.Next, RxSync.Next, FlowCtrl.Next;
      hide ByteFifo.Fifo.Contents, ByteFifo.Fifo.Valid, UartRx.Decoder.View, UartRx.Registers.Valid;
      hide UartTx.Serializer.Valid, UartTx.Serializer.View, BaudGen.BaudGenerator.Valid;
      var launchWanted := x.enable && x.txEnable && !txFifo.Empty() && tx.ReadyForStart();
      var allowed := true;
      if flow != null {
        allowed := flow.TxStartAllowed(x.hwFlow);
      }
      txStart := launchWanted && allowed && baud.BaudTickOut();
    }

    /** `uart_rts_o`, with and without flow control: whoever reads the pin in the configured polarity reads
        `rts_active`. */
    method UartRtsO(x: CoreIn) returns (pin: bool)
      requires Valid()
      ensures (if p.rtsActiveLow then !pin else pin) == RtsActive(View(), x)
    {
      hide UartRx.Next, UartTx.Next, ByteFifo.Next, BaudGen.Next, RxSync.Next, FlowCtrl.Next;
      hide ByteFifo.Fifo.Contents, ByteFifo.Fifo.Valid, UartRx.Decoder.View, UartRx.Registers.Valid;
      hide UartTx.Serializer.Valid, UartTx.Serializer.View, BaudGen.BaudGenerator.Valid;
      pin := p.rtsActiveLow;
      if flow != null {
        pin := flow.UartRtsO(x.enable, x.rxEnable, x.hwFlow);
      }
    }

    method StepEngines(x: CoreIn, txStart: bool)
      requires Valid() && x.baudInc < p.Modulus() && txStart == TxStart(p, View(), x)
      modifies sync, baud, rx, tx
      ensures Valid()
      ensures sync.View() == RxSync.Next(old(sync.View()), x.rxPin)
      ensures baud.View() == BaudGen.Next(old(baud.View()), x.enable, x.baudInc)
      ensures rx.View() == UartRx.Next(p.oversample, old(rx.View()), RxInput(p, old(View()), x))
      ensures tx.View() == UartTx.Next(old(tx.View()), TxInput(p, old(View()), x))
    {
      hide UartRx.Next, UartTx.Next, ByteFifo.Next, BaudGen.Next, RxSync.Next, FlowCtrl.Next;
      hide ByteFifo.Fifo.Contents, ByteFifo.Fifo.Valid, UartRx.Decoder.View, UartRx.Registers.Valid;
      hide UartTx.Serializer.Valid, UartTx.Serializer.View, BaudGen.BaudGenerator.Valid;
      var baudTick, osTick := baud.BaudTickOut(), baud.OversampleTickOut();
      var rxLine, txData := sync.RxSyncO(), txFifo.PopData();
      UartTx.NextIgnoresData(tx.View(), TxInput(p, View(), x), txData);
      sync.Step(x.rxPin);
      baud.Step(x.enable, x.baudInc);
      rx.Step(UartRx.RxIn(x.enable, x.rxEnable, x.cfg, osTick, rxLine));
      tx.Step(UartTx.TxIn(x.enable, x.txEnable, x.cfg, baudTick, txStart, txData));
    }

    method StepFifos(x: CoreIn, rxValid: bool, rxRecord: Record, txStart: bool)
      requires Valid()
      modifies rxFifo, rxFifo.mem, txFifo, txFifo.mem
      ensures Valid()
      ensures rxFifo.Contents() == ByteFifo.Next(old(rxFifo.Contents()), p.rxDepth, x.rxClear,
                                                 rxValid && !x.rxClear, rxRecord, x.rxReady)
      ensures txFifo.Contents() == ByteFifo.Next(old(txFifo.Contents()), p.txDepth, x.txClear,
                                                 x.txValid && !x.txClear, x.txData, txStart)
    {
      hide UartRx.Next, UartTx.Next, ByteFifo.Next, BaudGen.Next, RxSync.Next, FlowCtrl.Next;
      hide ByteFifo.Fifo.Contents, ByteFifo.Fifo.Valid, UartRx.Decoder.View, UartRx.Registers.Valid;
      hide UartTx.Serializer.Valid, UartTx.Serializer.View, BaudGen.BaudGenerator.Valid;
      rxFifo.Step(x.rxClear, rxValid && !x.rxClear, rxRecord, x.rxReady);
      txFifo.Step(x.txClear, x.txValid && !x.txClear, x.txData, txStart);
    }
  }
}
