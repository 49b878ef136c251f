/** RTS flow control: a peer that obeys RTS can never overrun the RX FIFO. */
module RtsSafety {
  import opened UartFormat
  import opened UartCore
  import UartRx
  import FlowCtrl

  /** The highest level at which RTS can still be active: one clock passes between the level and the register,
      so a level that just re-asserted RTS counts with one more record. */
  function Ceiling(p: Params): nat {
    if p.deassertLevel > p.assertLevel then p.deassertLevel else p.assertLevel + 1
  }

  /** One clock of an obedient peer. `n` characters were started and have not reached the FIFO, `n'` after this
      clock. A record only arrives for a started character, at most `k` are ever outstanding, and the count only
      grows in a clock in which RTS is active; characters may also be abandoned at any time. */
  predicate PeerClock(v: CoreView, x: CoreIn, n: nat, n': nat, k: nat) {
    && n' <= k
    && (RxArrives(v) ==> n >= 1)
    && (RtsActive(v, x) || n' <= n - (if RxArrives(v) then 1 else 0))
  }

  /** A run with flow control enabled throughout and an obedient peer; everything else is free: pops, clears,
      enables, increments, formats and the line itself. */
  predicate ObedientRun(p: Params, xs: seq<CoreIn>, outstanding: seq<nat>, k: nat) {
    && |outstanding| == |xs| + 1
    && outstanding[0] == 0
    && forall i :: 0 <= i < |xs| ==>
         xs[i].hwFlow && PeerClock(Run(p, xs[..i]), xs[i], outstanding[i], outstanding[i + 1], k)
  }

  ghost predicate Safe(p: Params, v: CoreView, n: nat, k: nat) {
    && v.flow.Some?
    && |v.rxQueue| + n <= Ceiling(p) + k
    && (v.flow.value.rts ==> |v.rxQueue| <= Ceiling(p) && (RxArrives(v) ==> |v.rxQueue| < Ceiling(p)))
    && (RxArrives(v) ==> v.rx.phase.Hunting?)
  }

  lemma QueueGrowth(p: Params, v: CoreView, x: CoreIn)
    ensures |NextRxQueue(p, v, x)| <= |v.rxQueue| + (if RxArrives(v) then 1 else 0)
  {
  }

  /** The decoder never completes characters in neighbouring clocks. */
  lemma ArrivalsApart(p: Params, v: CoreView, x: CoreIn)
    requires RxArrives(v) ==> v.rx.phase.Hunting?
    ensures RxArrives(Next(p, v, x)) ==> !RxArrives(v) && Next(p, v, x).rx.phase.Hunting?
  {
  }

  lemma SafeStep(p: Params, v: CoreView, x: CoreIn, n: nat, n': nat, k: nat)
    requires Safe(p, v, n, k) && x.hwFlow && PeerClock(v, x, n, n', k)
    ensures Safe(p, Next(p, v, x), n', k)
  {
    QueueGrowth(p, v, x);
    ArrivalsApart(p, v, x);
    hide UartRx.Next;
    hide NextRxQueue;
  }

  lemma ObedientPrefix(p: Params, xs: seq<CoreIn>, outstanding: seq<nat>, k: nat, m: nat)
    requires ObedientRun(p, xs, outstanding, k) && m <= |xs|
    ensures ObedientRun(p, xs[..m], outstanding[..m + 1], k)
  {
    hide PeerClock, Run;
    forall i | 0 <= i < m
      ensures xs[..m][i].hwFlow && PeerClock(Run(p, xs[..m][..i]), xs[..m][i], outstanding[i], outstanding[i + 1], k)
    {
      assert xs[..m][..i] == xs[..i];
    }
  }

  lemma {:induction false} SafeRun(p: Params, xs: seq<CoreIn>, outstanding: seq<nat>, k: nat)
    requires p.hasRtsCts && ObedientRun(p, xs, outstanding, k)
    ensures Safe(p, Run(p, xs), outstanding[|xs|], k)
    decreases |xs|
  {
    if xs != [] {
      var m := |xs| - 1;
      var ys := xs[..m];
      ObedientPrefix(p, xs, outstanding, k, m);
      SafeRun(p, ys, outstanding[..m + 1], k);
      SafeStep(p, Run(p, ys), xs[m], outstanding[m], outstanding[m + 1], k);
    }
  }

  lemma SafeHasRoom(p: Params, v: CoreView, x: CoreIn, n: nat, n': nat, k: nat)
    requires Safe(p, v, n, k) && PeerClock(v, x, n, n', k) && Ceiling(p) + k <= p.rxDepth
    ensures !Overrun(p, v, x)
  {
  }

  /** RTS prevents overrun: when the ceiling and the outstanding characters fit into the FIFO, no clock of an
      obedient run raises `event_rx_overrun`. */
  lemma NoOverrun(p: Params, xs: seq<CoreIn>, outstanding: seq<nat>, k: nat, i: nat)
    requires p.hasRtsCts && ObedientRun(p, xs, outstanding, k)
    requires Ceiling(p) + k <= p.rxDepth
    requires i < |xs|
    ensures !Overrun(p, Run(p, xs[..i]), xs[i])
  {
    hide Run, Safe, PeerClock;
    ObedientPrefix(p, xs, outstanding, k, i);
    SafeRun(p, xs[..i], outstanding[..i + 1], k);
    SafeHasRoom(p, Run(p, xs[..i]), xs[i], outstanding[i], outstanding[i + 1], k);
  }
}
