/** The RTS bound is exact: as soon as the ceiling and the outstanding characters do not fit, an obedient peer
    overruns the receive FIFO. The run is built from break characters, which any format and ratio can receive. */
module RtsTight {
  import opened UartFormat
  import opened UartCore
  import opened RtsSafety
  import Arithmetic
  import BaudGen
  import RxSync
  import UartRx
  import FlowCtrl
  import Conservation
  import ByteFifo

  // ---- A peer that starts as many characters as it may ----

  /** The receiver is on, flow control is on, and nobody empties the FIFO. */
  predicate Filling(p: Params, xs: seq<CoreIn>) {
    forall i :: 0 <= i < |xs| ==>
      && xs[i].enable && xs[i].rxEnable && xs[i].hwFlow && !xs[i].rxClear && !xs[i].rxReady
      && xs[i].baudInc < p.Modulus()
  }

  function GreedyClock(v: CoreView, x: CoreIn, n: nat, k: nat): nat {
    if RtsActive(v, x) then k else if RxArrives(v) && n >= 1 then n - 1 else n
  }

  function Greedy(p: Params, xs: seq<CoreIn>, k: nat): (s: seq<nat>)
    ensures |s| == |xs| + 1
    decreases |xs|
  {
    if xs == [] then [0]
    else
      var ys := xs[..|xs| - 1];
      var s := Greedy(p, ys, k);
      s + [GreedyClock(Run(p, ys), xs[|xs| - 1], s[|ys|], k)]
  }

  predicate QuietClock(p: Params, xs: seq<CoreIn>, i: nat)
    requires i < |xs|
  {
    !Overrun(p, Run(p, xs[..i]), xs[i])
  }

  /** Where RTS is active the peer has used it in full; where it is not, what is left outstanding still exceeds
      the room, once the level is above the one that re-asserts RTS. */
  ghost predicate GreedyAt(p: Params, v: CoreView, n: nat, k: nat) {
    && v.flow.Some? && |v.rxQueue| <= p.rxDepth && n <= k
    && (RxArrives(v) ==> v.rx.phase.Hunting?)
    && if v.flow.value.rts then n == k || !RxArrives(v)
       else if |v.rxQueue| <= p.assertLevel then n == k
       else n + |v.rxQueue| >= Ceiling(p) + k
  }

  lemma GreedyStep(p: Params, v: CoreView, x: CoreIn, n: nat, k: nat)
    requires GreedyAt(p, v, n, k) && Filling(p, [x]) && !Overrun(p, v, x)
    requires p.rxDepth < Ceiling(p) + k && k >= 1
    ensures GreedyAt(p, Next(p, v, x), GreedyClock(v, x, n, k), k)
  {
    assert [x][0] == x;
    ArrivalsApart(p, v, x);
    hide UartRx.Next;
  }

  lemma GreedyObeys(p: Params, v: CoreView, x: CoreIn, n: nat, k: nat)
    requires GreedyAt(p, v, n, k) && Filling(p, [x])
    requires p.rxDepth < Ceiling(p) + k && k >= 1
    ensures PeerClock(v, x, n, GreedyClock(v, x, n, k), k)
  {
    assert [x][0] == x;
  }

  lemma ObedientSnoc(p: Params, ys: seq<CoreIn>, x: CoreIn, s: seq<nat>, n: nat, k: nat)
    requires ObedientRun(p, ys, s, k) && x.hwFlow && PeerClock(Run(p, ys), x, s[|ys|], n, k)
    ensures ObedientRun(p, ys + [x], s + [n], k)
  {
    hide PeerClock, Run;
    var xs, t := ys + [x], s + [n];
    forall i | 0 <= i < |xs|
      ensures xs[i].hwFlow && PeerClock(Run(p, xs[..i]), xs[i], t[i], t[i + 1], k)
    {
      assert xs[..i] == if i < |ys| then ys[..i] else ys;
    }
  }

  lemma FillingPrefix(p: Params, xs: seq<CoreIn>, m: nat)
    requires Filling(p, xs) && m < |xs|
    ensures Filling(p, xs[..m]) && Filling(p, [xs[m]])
  {
  }

  lemma QuietPrefix(p: Params, xs: seq<CoreIn>, m: nat)
    requires m <= |xs| && forall i :: 0 <= i < m ==> QuietClock(p, xs, i)
    ensures forall i :: 0 <= i < m ==> QuietClock(p, xs[..m], i)
  {
    hide Run, Overrun;
    forall i | 0 <= i < m
      ensures QuietClock(p, xs[..m], i)
    {
      assert QuietClock(p, xs, i);
      assert xs[..m][..i] == xs[..i];
    }
  }

  /** The greedy peer is obedient up to and including the first overrun. */
  lemma {:induction false} GreedyRun(p: Params, xs: seq<CoreIn>, k: nat)
    requires p.hasRtsCts && Filling(p, xs) && p.rxDepth < Ceiling(p) + k && k >= 1
    requires forall i :: 0 <= i < |xs| - 1 ==> QuietClock(p, xs, i)
    ensures ObedientRun(p, xs, Greedy(p, xs, k), k)
    ensures (forall i :: 0 <= i < |xs| ==> QuietClock(p, xs, i)) ==>
              GreedyAt(p, Run(p, xs), Greedy(p, xs, k)[|xs|], k)
    decreases |xs|
  {
    if xs != [] {
      var m := |xs| - 1;
      var ys, x := xs[..m], xs[m];
      FillingPrefix(p, xs, m);
      QuietPrefix(p, xs, m);
      GreedyRun(p, ys, k);
      hide GreedyAt, ObedientRun, Filling, GreedyClock, Overrun, Next;
      var s := Greedy(p, ys, k);
      GreedyObeys(p, Run(p, ys), x, s[m], k);
      ObedientSnoc(p, ys, x, s, GreedyClock(Run(p, ys), x, s[m], k), k);
      assert ys + [x] == xs;
      if QuietClock(p, xs, m) {
        GreedyStep(p, Run(p, ys), x, s[m], k);
      }
    }
  }

  // ---- A line that sends breaks ----

  /** Half the accumulator range: a tick at least in every second clock. */
  function Inc(p: Params): nat
    requires p.accWidth >= 1
  {
    Arithmetic.Pow2(p.accWidth - 1)
  }

  function Held(p: Params, level: bool): CoreIn
    requires p.accWidth >= 1
  {
    CoreIn(level, true, true, true, false, Inc(p), Config(DATA_8, STOP_1, PARITY_NONE), true, false, false, false,
           ZERO_BYTE, false)
  }

  predicate HeldRun(p: Params, xs: seq<CoreIn>)
    requires p.accWidth >= 1
  {
    forall i :: 0 <= i < |xs| ==> xs[i] == Held(p, true) || xs[i] == Held(p, false)
  }

  lemma HeldFills(p: Params, xs: seq<CoreIn>)
    requires p.accWidth >= 1 && HeldRun(p, xs)
    ensures Filling(p, xs)
  {
  }

  ghost predicate Live(p: Params, v: CoreView)
    requires p.accWidth >= 1
  {
    UartRx.Coherent(p.oversample, v.rx) && v.baud.phase == v.baud.prev + Inc(p)
  }

  /** Without a tick now there is one in the next clock. */
  lemma TickSoon(p: Params, v: CoreView)
    requires p.accWidth >= 1 && v.baud.phase == v.baud.prev + Inc(p) && !OsTick(p, v)
    ensures OsTick(p, Next(p, v, Held(p, false))) && OsTick(p, Next(p, v, Held(p, true)))
  {
    hide UartRx.Next;
    var m := p.Modulus();
    assert m == 2 * Inc(p);
    var q := v.baud.prev / m;
    assert v.baud.prev + m == m * (q + 1) + v.baud.prev % m;
    BaudGen.DivModUnique(v.baud.prev + m, m, q + 1, v.baud.prev % m);
  }

  lemma HeldStep(p: Params, v: CoreView, level: bool)
    requires p.accWidth >= 1 && UartRx.Coherent(p.oversample, v.rx)
    ensures var w := Next(p, v, Held(p, level));
            && Live(p, w)
            && w.sync == RxSync.SyncView(level, v.sync.s0, v.sync.s1)
            && w.rx == UartRx.Next(p.oversample, v.rx, RxInput(p, v, Held(p, level)))
  {
    UartRx.NextCoherent(p.oversample, v.rx, RxInput(p, v, Held(p, level)));
    hide UartRx.Next, UartRx.Coherent;
  }

  function Decoded(p: Params, xs: seq<CoreIn>): nat {
    |Conservation.RxLogOf(p, xs).decoded|
  }

  lemma DecodedSnoc(p: Params, xs: seq<CoreIn>, x: CoreIn)
    ensures Decoded(p, xs + [x]) == Decoded(p, xs) + if RxArrives(Run(p, xs)) then 1 else 0
  {
    assert (xs + [x])[..|xs|] == xs;
  }

  /** One more clock of the break line. */
  lemma HeldSnoc(p: Params, xs: seq<CoreIn>, level: bool) returns (ys: seq<CoreIn>)
    requires p.accWidth >= 1 && HeldRun(p, xs) && UartRx.Coherent(p.oversample, Run(p, xs).rx)
    ensures ys == xs + [Held(p, level)] && HeldRun(p, ys) && Live(p, Run(p, ys))
    ensures Run(p, ys) == Next(p, Run(p, xs), Held(p, level))
    ensures Run(p, ys).sync == RxSync.SyncView(level, Run(p, xs).sync.s0, Run(p, xs).sync.s1)
    ensures Run(p, ys).rx == UartRx.Next(p.oversample, Run(p, xs).rx, RxInput(p, Run(p, xs), Held(p, level)))
    ensures Decoded(p, xs) <= Decoded(p, ys) && (RxArrives(Run(p, xs)) ==> Decoded(p, ys) == Decoded(p, xs) + 1)
  {
    ys := xs + [Held(p, level)];
    RunSnoc(p, xs, Held(p, level));
    DecodedSnoc(p, xs, Held(p, level));
    HeldStep(p, Run(p, xs), level);
  }

  const LOW := RxSync.SyncView(false, false, false)

  /** Clocks until the character under way is complete, at most. */
  function ToGo(p: Params, v: CoreView): nat
    requires UartRx.Coherent(p.oversample, v.rx) && v.rx.phase.Sampling?
  {
    2 * UartRx.TicksToGo(p.oversample, v.rx.phase) + if OsTick(p, v) then 0 else 1
  }

  /** On a low line every tick brings the end of the character closer. */
  lemma CloserToEnd(p: Params, v: CoreView)
    requires p.accWidth >= 1 && Live(p, v) && v.rx.phase.Sampling? && !v.sync.s2
    ensures var w := Next(p, v, Held(p, false));
            && !w.rx.phase.Hunting? && UartRx.Coherent(p.oversample, w.rx)
            && (w.rx.phase.Sampling? ==> ToGo(p, w) < ToGo(p, v))
  {
    HeldStep(p, v, false);
    if !OsTick(p, v) {
      TickSoon(p, v);
    }
    hide Next, OsTick, Held;
  }

  /** A character under way on a low line is completed, and leaves the decoder disarmed. */
  lemma Catch(p: Params, xs: seq<CoreIn>) returns (ys: seq<CoreIn>)
    requires p.accWidth >= 1 && HeldRun(p, xs) && Live(p, Run(p, xs))
    requires Run(p, xs).rx.phase.Sampling? && Run(p, xs).sync == LOW
    ensures HeldRun(p, ys) && Live(p, Run(p, ys)) && RxArrives(Run(p, ys))
    ensures Run(p, ys).rx.phase == UartRx.Hunting(false) && Run(p, ys).sync == LOW
    ensures Decoded(p, ys) >= Decoded(p, xs)
    decreases ToGo(p, Run(p, xs))
  {
    CloserToEnd(p, Run(p, xs));
    ys := HeldSnoc(p, xs, false);
    hide Run, Next, ToGo, Held, HeldRun, Decoded;
    if Run(p, ys).rx.phase.Sampling? {
      ys := Catch(p, ys);
    } else {
      ys := HeldSnoc(p, ys, false);
    }
  }

  /** A disarmed decoder is armed again by a high line. */
  lemma Arm(p: Params, xs: seq<CoreIn>) returns (ys: seq<CoreIn>)
    requires p.accWidth >= 1 && HeldRun(p, xs) && Live(p, Run(p, xs))
    requires Run(p, xs).rx.phase == UartRx.Hunting(false) && RxArrives(Run(p, xs)) && Run(p, xs).sync == LOW
    ensures HeldRun(p, ys) && Live(p, Run(p, ys))
    ensures Run(p, ys).rx.phase == UartRx.Hunting(true) && Run(p, ys).sync == RxSync.RESET
    ensures Decoded(p, ys) > Decoded(p, xs)
  {
    hide Run, Next, Held, HeldRun, Decoded, OsTick;
    ys := HeldSnoc(p, xs, true);
    ys := HeldSnoc(p, ys, true);
    ys := HeldSnoc(p, ys, true);
    ys := HeldSnoc(p, ys, true);
  }

  /** A falling line starts the armed decoder. */
  lemma Start(p: Params, xs: seq<CoreIn>) returns (ys: seq<CoreIn>)
    requires p.accWidth >= 1 && HeldRun(p, xs) && UartRx.Coherent(p.oversample, Run(p, xs).rx)
    requires Run(p, xs).rx.phase == UartRx.Hunting(true) && Run(p, xs).sync == RxSync.RESET
    ensures HeldRun(p, ys) && Live(p, Run(p, ys))
    ensures Run(p, ys).rx.phase.Sampling? && Run(p, ys).sync == LOW
    ensures Decoded(p, ys) >= Decoded(p, xs)
  {
    hide Run, Next, HeldRun, Decoded, OsTick;
    ys := HeldSnoc(p, xs, false);
    ys := HeldSnoc(p, ys, false);
    ys := HeldSnoc(p, ys, false);
    ys := HeldSnoc(p, ys, false);
  }

  /** Any number of records can be received without one being taken. */
  lemma Breaks(p: Params, n: nat) returns (xs: seq<CoreIn>)
    requires p.accWidth >= 1
    ensures HeldRun(p, xs) && UartRx.Coherent(p.oversample, Run(p, xs).rx)
    ensures Run(p, xs).rx.phase == UartRx.Hunting(true) && Run(p, xs).sync == RxSync.RESET
    ensures Decoded(p, xs) >= n
  {
    if n == 0 {
      xs := [];
      RunNil(p);
    } else {
      xs := Breaks(p, n - 1);
      hide Run, Next, HeldRun, Decoded;
      xs := Start(p, xs);
      xs := Catch(p, xs);
      xs := Arm(p, xs);
    }
  }

  // ---- The bound is exact ----

  /** As long as nothing is lost, every decoded record is in the FIFO. */
  lemma {:induction false} AllQueued(p: Params, xs: seq<CoreIn>)
    requires p.Valid() && Filling(p, xs) && forall i :: 0 <= i < |xs| ==> QuietClock(p, xs, i)
    ensures Decoded(p, xs) == |Run(p, xs).rxQueue| <= p.rxDepth
    decreases |xs|
  {
    if xs != [] {
      var m := |xs| - 1;
      FillingPrefix(p, xs, m);
      QuietPrefix(p, xs, m);
      AllQueued(p, xs[..m]);
      assert QuietClock(p, xs, m);
      assert xs[..m] + [xs[m]] == xs;
      DecodedSnoc(p, xs[..m], xs[m]);
      hide Decoded, UartRx.Next;
    }
  }

  /** A record that was decoded and not taken is still there, overrun or not. */
  lemma {:induction false} SomeQueued(p: Params, xs: seq<CoreIn>)
    requires p.Valid() && Filling(p, xs) && Decoded(p, xs) >= 1
    ensures Run(p, xs).rxQueue != []
    decreases |xs|
  {
    if xs != [] {
      var m := |xs| - 1;
      FillingPrefix(p, xs, m);
      assert xs[..m] + [xs[m]] == xs;
      DecodedSnoc(p, xs[..m], xs[m]);
      hide Decoded, UartRx.Next;
      if Decoded(p, xs[..m]) >= 1 {
        SomeQueued(p, xs[..m]);
      }
    }
  }

  /** A run that decodes more than fits has a first overrun. */
  lemma {:induction false} FirstOverrun(p: Params, xs: seq<CoreIn>) returns (i: nat)
    requires p.Valid() && Filling(p, xs) && Decoded(p, xs) > p.rxDepth
    ensures i < |xs| && !QuietClock(p, xs, i) && forall j :: 0 <= j < i ==> QuietClock(p, xs, j)
  {
    hide Filling, Decoded, QuietClock;
    i := 0;
    while i < |xs| && QuietClock(p, xs, i)
      invariant i <= |xs| && forall j :: 0 <= j < i ==> QuietClock(p, xs, j)
    {
      i := i + 1;
    }
    if i == |xs| {
      AllQueued(p, xs);
    }
  }

  /** Whenever the bound fails, for any thresholds, depth, ratio and accumulator width, there is an obedient run
      of legal inputs that overruns. */
  lemma OverrunPossible(p: Params, k: nat) returns (xs: seq<CoreIn>, outstanding: seq<nat>, i: nat)
    requires p.Valid() && p.hasRtsCts && p.accWidth >= 1 && k >= 1
    requires p.rxDepth < Ceiling(p) + k
    ensures ObedientRun(p, xs, outstanding, k) && forall j :: 0 <= j < |xs| ==> xs[j].baudInc < p.Modulus()
    ensures i < |xs| && Overrun(p, Run(p, xs[..i]), xs[i])
  {
    var all := Breaks(p, p.rxDepth + 1);
    HeldFills(p, all);
    i := FirstOverrun(p, all);
    xs := all[..i + 1];
    hide HeldRun, Run, Overrun, ObedientRun;
    QuietPrefix(p, all, i);
    forall j | 0 <= j < i
      ensures QuietClock(p, xs, j)
    {
      assert QuietClock(p, all, j);
      assert xs[..j] == all[..j];
    }
    GreedyRun(p, xs, k);
    outstanding := Greedy(p, xs, k);
    assert xs[..i] == all[..i];
  }

  /** No obedient peer with up to k characters outstanding can cause an overrun. */
  ghost predicate SafeFor(p: Params, k: nat) {
    forall xs: seq<CoreIn>, outstanding: seq<nat>, i: nat ::
      ObedientRun(p, xs, outstanding, k) && i < |xs| ==> QuietClock(p, xs, i)
  }

  /** RTS prevents overrun if and only if the ceiling and the outstanding characters fit into the FIFO. */
  lemma BoundExact(p: Params, k: nat)
    requires p.Valid() && p.hasRtsCts && p.accWidth >= 1 && k >= 1
    ensures SafeFor(p, k) <==> Ceiling(p) + k <= p.rxDepth
  {
    if Ceiling(p) + k <= p.rxDepth {
      forall xs: seq<CoreIn>, outstanding: seq<nat>, i: nat | ObedientRun(p, xs, outstanding, k) && i < |xs|
        ensures QuietClock(p, xs, i)
      {
        NoOverrun(p, xs, outstanding, k, i);
      }
    } else {
      var xs, outstanding, i := OverrunPossible(p, k);
      assert !QuietClock(p, xs, i);
    }
  }

  /** The parameter defaults of the RTL. */
  function Defaults(depth: nat): Params
    requires depth >= 2
  {
    Params(32, 16, depth, depth, true, true, true, depth - 2, depth / 2)
  }

  /** With the default thresholds one outstanding character is safe exactly from a depth of three on, two exactly
      from a depth of five on; at four, where the two thresholds coincide, two can overrun. */
  lemma DefaultHeadroom(depth: nat)
    requires depth >= 2
    ensures SafeFor(Defaults(depth), 1) <==> depth >= 3
    ensures SafeFor(Defaults(depth), 2) <==> depth >= 5
  {
    BoundExact(Defaults(depth), 1);
    BoundExact(Defaults(depth), 2);
    hide SafeFor;
  }
}
