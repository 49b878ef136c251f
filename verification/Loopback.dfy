/** Lossless loopback: with `uart_tx_o` wired to `uart_rx_i`, every launched byte is received, whatever the
    baud increment does from clock to clock. */
module Loopback {
  import opened UartFormat
  import opened UartCore
  import BaudGen
  import RxSync
  import UartTx
  import UartRx
  import Conservation

  /** One clock of the loopback bench: the line is wired back, the receiver is enabled and the format fixed.
      TX enable, flow control, clears, both byte streams and the increment are free in every clock. */
  predicate Wired(p: Params, cfg: Config, v: CoreView, x: CoreIn) {
    x.rxPin == UartTx.Line(v.tx) && x.enable && x.rxEnable && x.cfg == cfg && x.baudInc < p.Modulus()
  }

  predicate LoopRun(p: Params, cfg: Config, xs: seq<CoreIn>) {
    forall i :: 0 <= i < |xs| ==> Wired(p, cfg, Run(p, xs[..i]), xs[i])
  }

  /** Where the transmitter is: bit period `k` of the frame launched last (counting on through the idle time),
      `r` oversample ticks into it; and how many ticks the three synchronizer stages lag behind. */
  datatype Track = Track(k: nat, r: nat, d0: nat, d1: nat, d2: nat)

  const START := Track(0, 0, 0, 0, 0)

  /** Just launched: the old idle level is still in all three stages. */
  const LAUNCHED := Track(0, 0, 1, 2, 3)

  function Advance(oversample: nat, g: Track, tick: bool): Track {
    if tick then
      var wrap := g.r + 1 == oversample;
      Track(if wrap then g.k + 1 else g.k, if wrap then 0 else g.r + 1, 1, g.d0 + 1, g.d1 + 1)
    else Track(g.k, g.r, 0, g.d0, g.d1)
  }

  function NextTrack(p: Params, v: CoreView, x: CoreIn, g: Track): Track {
    if UartTx.Launches(v.tx, TxInput(p, v, x)) then LAUNCHED else Advance(p.oversample, g, OsTick(p, v))
  }

  /** The level of bit period k of a frame, idle before and after. */
  function Level(frame: seq<bool>, k: int): bool {
    if 0 <= k < |frame| then frame[k] else true
  }

  /** The level `lag` ticks ago. */
  function Delayed(frame: seq<bool>, g: Track, lag: nat): bool {
    Level(frame, if g.r >= lag then g.k else g.k - 1)
  }

  /** The line half of the invariant: generator, serializer and synchronizer are where the track says. */
  ghost predicate LineAt(oversample: nat, os: bool, slot: nat, tx: UartTx.TxView, sync: RxSync.SyncView,
                         frame: seq<bool>, g: Track)
  {
    && g.r < oversample && g.d0 <= 1 && g.d1 <= 2 && g.d2 <= 3
    && slot == (if !os then g.r else if g.r + 1 == oversample then 0 else g.r + 1)
    && tx.rest == (if g.k < |frame| then frame[g.k..] else [])
    && sync == RxSync.SyncView(Delayed(frame, g, g.d0), Delayed(frame, g, g.d1), Delayed(frame, g, g.d2))
    && (frame != [] ==> frame[|frame| - 1])
  }

  /** A launched start bit is still on its way through the synchronizer. */
  predicate InTransit(g: Track) {
    && g.k == 0
    && (|| g == LAUNCHED
        || (g.d0 == g.r && g.d1 == g.r + 1 && g.d2 == g.r + 2)
        || (g.d0 <= g.r && g.d1 == g.r && g.d2 == g.r + 1)
        || (g.d0 <= g.r && g.d1 <= g.r && g.d2 == g.r))
  }

  /** The decoder entered its start state between 0 and 4 ticks after the launch and has counted faithfully
      since: with `taken` samples behind it, the transmitter is the same 0 to 4 ticks past that point. */
  predicate InStep(oversample: nat, count: nat, taken: nat, g: Track) {
    if taken == 0 then g.k == 0 && count <= g.r <= count + 4
    else
      var u := UartRx.HalfBit(oversample) + count;
      (g.k == taken - 1 && u <= g.r <= u + 4) || (g.k == taken && u <= g.r + oversample <= u + 4)
  }

  /** Between the last sample and the re-armed idle state. */
  predicate PastLastSample(oversample: nat, n: nat, g: Track, slack: nat) {
    (g.k == n - 1 && g.r >= UartRx.HalfBit(oversample)) || (g.k == n && g.r <= slack)
  }

  /** The receive half of the invariant; `owed` is how many launched characters are still missing. */
  ghost predicate RxAt(oversample: nat, f: Format, rx: UartRx.RxView, frame: seq<bool>, g: Track, owed: nat) {
    match rx.phase
    case Hunting(armed) =>
      || (owed == 1 && frame != [] && armed && rx.out.None? && InTransit(g))
      || (owed == 0 && (frame == [] || g.k >= |frame| || PastLastSample(oversample, |frame|, g, 1))
          && (armed || PastLastSample(oversample, |frame|, g, 1)))
    case Sampling(g', count, samples) =>
      && owed == 1 && rx.out.None? && g' == f && |samples| < |frame| && samples == frame[..|samples|]
      && count < UartRx.Due(oversample, samples)
      && InStep(oversample, count, |samples|, g)
    case Finishing(g', samples) =>
      && owed == 1 && rx.out.None? && g' == f && frame != [] && samples == frame
      && PastLastSample(oversample, |frame|, g, 0)
  }

  /** A launch starts a new track. */
  lemma LineLaunch(oversample: nat, os: bool, slot: nat, os': bool, slot': nat, tx: UartTx.TxView, x: UartTx.TxIn,
                   sync: RxSync.SyncView, frame: seq<bool>, g: Track)
    requires oversample >= 8 && LineAt(oversample, os, slot, tx, sync, frame, g)
    requires slot' == (if !os' then slot else if slot + 1 == oversample then 0 else slot + 1)
    requires x.baudTick == (os && slot == 0) && (x.start ==> x.baudTick)
    requires UartTx.Launches(tx, x)
    ensures LineAt(oversample, os', slot', UartTx.Next(tx, x), RxSync.Next(sync, UartTx.Line(tx)),
                   Frame(Latch(x.cfg), x.data), LAUNCHED)
  {
    hide Parity, Mask;
  }

  /** Between ticks the synchronizer catches up. */
  lemma LineBetween(oversample: nat, os: bool, slot: nat, os': bool, slot': nat, tx: UartTx.TxView, x: UartTx.TxIn,
                    sync: RxSync.SyncView, frame: seq<bool>, g: Track)
    requires oversample >= 8 && LineAt(oversample, os, slot, tx, sync, frame, g)
    requires slot' == (if !os' then slot else if slot + 1 == oversample then 0 else slot + 1)
    requires x.baudTick == (os && slot == 0) && (x.start ==> x.baudTick)
    requires !UartTx.Launches(tx, x) && !os
    ensures LineAt(oversample, os', slot', UartTx.Next(tx, x), RxSync.Next(sync, UartTx.Line(tx)), frame,
                   Advance(oversample, g, os))
  {
    hide Frame;
  }

  /** A tick moves the serializer on by one tick, and by one bit period at the end of one. */
  lemma LineTick(oversample: nat, os: bool, slot: nat, os': bool, slot': nat, tx: UartTx.TxView, x: UartTx.TxIn,
                 sync: RxSync.SyncView, frame: seq<bool>, g: Track)
    requires oversample >= 8 && LineAt(oversample, os, slot, tx, sync, frame, g)
    requires slot' == (if !os' then slot else if slot + 1 == oversample then 0 else slot + 1)
    requires x.baudTick == (os && slot == 0) && (x.start ==> x.baudTick)
    requires !UartTx.Launches(tx, x) && os
    ensures LineAt(oversample, os', slot', UartTx.Next(tx, x), RxSync.Next(sync, UartTx.Line(tx)), frame,
                   Advance(oversample, g, os))
  {
    hide Frame;
  }

  lemma LineStep(oversample: nat, os: bool, slot: nat, os': bool, slot': nat, tx: UartTx.TxView, x: UartTx.TxIn,
                 sync: RxSync.SyncView, frame: seq<bool>, g: Track)
    requires oversample >= 8 && LineAt(oversample, os, slot, tx, sync, frame, g)
    requires slot' == (if !os' then slot else if slot + 1 == oversample then 0 else slot + 1)
    requires x.baudTick == (os && slot == 0) && (x.start ==> x.baudTick)
    ensures var sync' := RxSync.Next(sync, UartTx.Line(tx));
            var tx' := UartTx.Next(tx, x);
            if UartTx.Launches(tx, x) then
              LineAt(oversample, os', slot', tx', sync', Frame(Latch(x.cfg), x.data), LAUNCHED)
            else LineAt(oversample, os', slot', tx', sync', frame, Advance(oversample, g, os))
  {
    hide LineAt, Frame, UartTx.Next, RxSync.Next, Advance, UartTx.Line;
    if UartTx.Launches(tx, x) {
      LineLaunch(oversample, os, slot, os', slot', tx, x, sync, frame, g);
    } else if os {
      LineTick(oversample, os, slot, os', slot', tx, x, sync, frame, g);
    } else {
      LineBetween(oversample, os, slot, os', slot', tx, x, sync, frame, g);
    }
  }

  /** Every sample lands in its own bit: when the decoder takes sample number `taken`, the transmitter is in bit
      period `taken`, and has been for longer than the synchronizer delay. */
  lemma SampleInsideBit(oversample: nat, count: nat, samples: seq<bool>, g: Track)
    requires oversample >= 8 && g.r < oversample && g.d2 <= 3
    requires count + 1 == UartRx.Due(oversample, samples) && InStep(oversample, count, |samples|, g)
    ensures g.k == |samples| && g.r >= g.d2
  {
  }

  /** One clock of the decoder in the middle of a character. */
  lemma RxSampling(oversample: nat, f: Format, rx: UartRx.RxView, x: UartRx.RxIn, tx: UartTx.TxView,
               sync: RxSync.SyncView, slot: nat, frame: seq<bool>, g: Track, owed: nat)
    requires oversample >= 8 && f.Valid() && (frame != [] ==> |frame| == f.Length() && !frame[0])
    requires LineAt(oversample, x.tick, slot, tx, sync, frame, g) && RxAt(oversample, f, rx, frame, g, owed)
    requires x.enable && x.rxEnable && Latch(x.cfg) == f && x.line == sync.s2
    requires rx.phase.Sampling?
    ensures var rx' := UartRx.Next(oversample, rx, x);
            rx'.out.None? && owed == 1 && RxAt(oversample, f, rx', frame, Advance(oversample, g, x.tick), owed)
  {
    var samples := rx.phase.samples;
    if x.tick && rx.phase.count + 1 == UartRx.Due(oversample, samples) {
      SampleInsideBit(oversample, rx.phase.count, samples, g);
      assert x.line == frame[|samples|];
      assert samples + [x.line] == frame[..|samples| + 1];
    }
  }

  /** One clock of the decoder while no character is launched. */
  lemma RxStep(oversample: nat, f: Format, rx: UartRx.RxView, x: UartRx.RxIn, tx: UartTx.TxView,
               sync: RxSync.SyncView, slot: nat, frame: seq<bool>, g: Track, owed: nat)
    requires oversample >= 8 && f.Valid() && (frame != [] ==> |frame| == f.Length() && !frame[0])
    requires LineAt(oversample, x.tick, slot, tx, sync, frame, g) && RxAt(oversample, f, rx, frame, g, owed)
    requires x.enable && x.rxEnable && Latch(x.cfg) == f && x.line == sync.s2
    ensures var rx' := UartRx.Next(oversample, rx, x);
            var done := if rx'.out.Some? then 1 else 0;
            && done <= owed <= 1
            && RxAt(oversample, f, rx', frame, Advance(oversample, g, x.tick), owed - done)
            && (rx'.out.Some? ==> frame != [] && rx'.out.value == DecodeSamples(f, frame))
  {
    if rx.phase.Sampling? {
      RxSampling(oversample, f, rx, x, tx, sync, slot, frame, g, owed);
    } else {
      hide DecodeSamples, Latch;
    }
  }

  /** The clock of a launch: nothing is owed, and the decoder stays idle and armed. */
  lemma RxLaunch(oversample: nat, f: Format, rx: UartRx.RxView, x: UartRx.RxIn, tx: UartTx.TxView,
                 sync: RxSync.SyncView, slot: nat, frame: seq<bool>, g: Track, owed: nat, next: seq<bool>)
    requires oversample >= 8 && f.Valid() && (frame != [] ==> |frame| == f.Length() && !frame[0])
    requires LineAt(oversample, x.tick, slot, tx, sync, frame, g) && RxAt(oversample, f, rx, frame, g, owed)
    requires x.line == sync.s2
    requires UartTx.Ready(tx) && x.tick && slot == 0 && next != []
    ensures owed == 0
    ensures var rx' := UartRx.Next(oversample, rx, x);
            rx'.out.None? && RxAt(oversample, f, rx', next, LAUNCHED, 1)
  {
  }

  // ---- Whole runs ----

  function TrackOf(p: Params, xs: seq<CoreIn>): Track
    decreases |xs|
  {
    if xs == [] then START
    else
      var ys := xs[..|xs| - 1];
      NextTrack(p, Run(p, ys), xs[|xs| - 1], TrackOf(p, ys))
  }

  /** The bytes launched so far. */
  function Launched(p: Params, xs: seq<CoreIn>): seq<Byte> {
    Conservation.TxLogOf(p, xs).launched
  }

  /** The records the decoder has completed so far, the one it is publishing right now included. */
  function Received(p: Params, xs: seq<CoreIn>): seq<Record> {
    Conservation.RxLogOf(p, xs).decoded + UartRx.Pulse(Run(p, xs).rx.out)
  }

  /** The clean record of a transmitted byte. */
  function Clean(cfg: Config, data: Byte): Record {
    Record(Mask(data, DecodeDataBits(cfg.dataCode)), false, false, false)
  }

  function CleanAll(cfg: Config, bytes: seq<Byte>): (s: seq<Record>)
    ensures |s| == |bytes|
    ensures forall i :: 0 <= i < |s| ==> s[i] == Clean(cfg, bytes[i])
  {
    seq(|bytes|, i requires 0 <= i < |bytes| => Clean(cfg, bytes[i]))
  }

  /** The frame launched last. */
  function LastFrame(cfg: Config, launched: seq<Byte>): seq<bool> {
    if launched == [] then [] else Frame(Latch(cfg), launched[|launched| - 1])
  }


  ghost predicate LoopInvariant(p: Params, cfg: Config, v: CoreView, launched: seq<Byte>, received: seq<Record>, g: Track) {
    var frame := LastFrame(cfg, launched);
    && |received| <= |launched|
    && received == CleanAll(cfg, launched[..|received|])
    && LineAt(p.oversample, OsTick(p, v), BaudGen.Slot(p.Modulus(), p.Ratio(), v.baud), v.tx, v.sync, frame, g)
    && RxAt(p.oversample, Latch(cfg), v.rx, frame, g, |launched| - |received|)
  }

  lemma LastFrameShape(cfg: Config, launched: seq<Byte>)
    ensures var frame := LastFrame(cfg, launched);
            frame != [] ==> |frame| == Latch(cfg).Length() && !frame[0] && frame[|frame| - 1]
  {
  }

  lemma LoopStep(p: Params, cfg: Config, v: CoreView, x: CoreIn, launched: seq<Byte>, received: seq<Record>, g: Track)
    requires p.oversample >= 8 && Wired(p, cfg, v, x)
    requires LoopInvariant(p, cfg, v, launched, received, g)
    ensures var w := Next(p, v, x);
            var input := TxInput(p, v, x);
            LoopInvariant(p, cfg, w, if UartTx.Launches(v.tx, input) then launched + [input.data] else launched,
                          received + UartRx.Pulse(w.rx.out), NextTrack(p, v, x, g))
  {
    hide LineAt, RxAt, Frame, DecodeSamples, BaudGen.Slot, BaudGen.OsTick, BaudGen.BaudTick, UartTx.Next;
    hide UartRx.Next, NextRxQueue, NextTxQueue, Advance;
    var w, input := Next(p, v, x), TxInput(p, v, x);
    var m, ratio := p.Modulus(), p.Ratio();
    var frame, f := LastFrame(cfg, launched), Latch(cfg);
    var slot, slot' := BaudGen.Slot(m, ratio, v.baud), BaudGen.Slot(m, ratio, w.baud);
    var owed := |launched| - |received|;
    BaudGen.SlotStep(m, ratio, v.baud, x.baudInc);
    LastFrameShape(cfg, launched);
    LineStep(p.oversample, OsTick(p, v), slot, OsTick(p, w), slot', v.tx, input, v.sync, frame, g);
    if UartTx.Launches(v.tx, input) {
      var next := Frame(f, input.data);
      assert LastFrame(cfg, launched + [input.data]) == next;
      RxLaunch(p.oversample, f, v.rx, RxInput(p, v, x), v.tx, v.sync, slot, frame, g, owed, next);
      assert (launched + [input.data])[..|received|] == launched[..|received|];
    } else {
      RxStep(p.oversample, f, v.rx, RxInput(p, v, x), v.tx, v.sync, slot, frame, g, owed);
      if w.rx.out.Some? {
        DecodeOfFrame(f, launched[|launched| - 1]);
        assert launched[..|received| + 1] == launched[..|received|] + [launched[|received|]];
      }
    }
  }

  lemma LoopPrefix(p: Params, cfg: Config, xs: seq<CoreIn>, m: nat)
    requires LoopRun(p, cfg, xs) && m <= |xs|
    ensures LoopRun(p, cfg, xs[..m])
  {
    hide Run, Wired;
    forall i | 0 <= i < m
      ensures Wired(p, cfg, Run(p, xs[..m][..i]), xs[..m][i])
    {
      assert xs[..m][..i] == xs[..i];
    }
  }

  lemma LoopInitially(p: Params, cfg: Config)
    requires p.oversample >= 8
    ensures LoopInvariant(p, cfg, Reset(p), [], [], START)
  {
    BaudGen.DivModUnique(0, p.Modulus(), 0, 0);
    BaudGen.DivModUnique(0, p.oversample, 0, 0);
  }

  lemma {:induction false} LoopInvariantHolds(p: Params, cfg: Config, xs: seq<CoreIn>)
    requires p.oversample >= 8 && LoopRun(p, cfg, xs)
    ensures LoopInvariant(p, cfg, Run(p, xs), Launched(p, xs), Received(p, xs), TrackOf(p, xs))
    decreases |xs|
  {
    if xs == [] {
      LoopInitially(p, cfg);
      assert Received(p, xs) == [];
    } else {
      var ys, x := xs[..|xs| - 1], xs[|xs| - 1];
      LoopPrefix(p, cfg, xs, |xs| - 1);
      LoopInvariantHolds(p, cfg, ys);
      assert Wired(p, cfg, Run(p, ys), x);
      LoopStep(p, cfg, Run(p, ys), x, Launched(p, ys), Received(p, ys), TrackOf(p, ys));
      hide LoopInvariant, Wired;
    }
  }

  /** Lossless loopback. On every run from reset the received records are the launched bytes, masked to the data
      width and free of any error flag, in order, short of at most the one character in flight; once both
      engines are idle nothing is missing. */
  lemma Lossless(p: Params, cfg: Config, xs: seq<CoreIn>)
    requires p.oversample >= 8 && LoopRun(p, cfg, xs)
    ensures var launched, received := Launched(p, xs), Received(p, xs);
            && |launched| - 1 <= |received| <= |launched|
            && received == CleanAll(cfg, launched[..|received|])
            && (UartTx.Ready(Run(p, xs).tx) && Run(p, xs).rx.phase.Hunting? ==> |received| == |launched|)
  {
    LoopInvariantHolds(p, cfg, xs);
    LastFrameShape(cfg, Launched(p, xs));
    hide Run, DecodeSamples, BaudGen.Slot, BaudGen.OsTick;
  }

  /** End to end: on a loopback run without FIFO clears or overruns, the records handed to the receiving side
      are the first bytes accepted from the sending side, masked, in order and without error flags. */
  lemma EndToEnd(p: Params, cfg: Config, xs: seq<CoreIn>)
    requires p.oversample >= 8 && LoopRun(p, cfg, xs)
    requires Conservation.TxLogOf(p, xs).discarded == []
    requires Conservation.RxLogOf(p, xs).discarded == [] && Conservation.RxLogOf(p, xs).overrun == []
    ensures var accepted, popped := Conservation.TxLogOf(p, xs).accepted, Conservation.RxLogOf(p, xs).popped;
            |popped| <= |accepted| && popped == CleanAll(cfg, accepted[..|popped|])
  {
    hide Run, Clean;
    Lossless(p, cfg, xs);
    Conservation.TxPrefix(p, xs);
    Conservation.RxPrefix(p, xs);
    var accepted, popped := Conservation.TxLogOf(p, xs).accepted, Conservation.RxLogOf(p, xs).popped;
    var launched, received := Launched(p, xs), Received(p, xs);
    assert popped == received[..|popped|];
    assert accepted[..|popped|] == launched[..|popped|];
  }
}
