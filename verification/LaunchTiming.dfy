/** When a queued byte is launched: on exactly which baud tick, byte by byte, as long as nobody holds it back. */
module LaunchTiming {
  import opened UartFormat
  import opened UartCore
  import opened SamplingMargin
  import opened Arithmetic
  import UartTx
  import UartRx
  import BaudGen
  import RxSync
  import FlowCtrl
  import ByteFifo
  import Conservation
  import Loopback

  /** CTS, as the core has synchronized it, permits a launch. */
  predicate CtsPermits(p: Params, v: CoreView, x: CoreIn) {
    v.flow.None? || !x.hwFlow || (if p.ctsActiveLow then !v.flow.value.c2 else v.flow.value.c2)
  }

  predicate Begins(p: Params, v: CoreView, x: CoreIn) {
    UartTx.Launches(v.tx, TxInput(p, v, x))
  }

  /** In which clocks a character begins, and which one: both enables, a byte in the queue, an idle serializer, a
      baud tick and the permission of CTS, and nothing else; it is the oldest byte, which leaves the queue. */
  lemma BeginsExactly(p: Params, v: CoreView, x: CoreIn)
    ensures Begins(p, v, x) <==>
              x.enable && x.txEnable && v.txQueue != [] && v.tx.rest == [] && BaudTick(p, v) && CtsPermits(p, v, x)
    ensures Begins(p, v, x) ==> TxInput(p, v, x).data == v.txQueue[0]
    ensures !x.txClear ==>
              var kept := if Begins(p, v, x) then v.txQueue[1..] else v.txQueue;
              kept <= NextTxQueue(p, v, x)
  {
    hide BaudTick;
  }

  // ---- A run in which nothing holds the transmitter back ----

  predicate SendClock(p: Params, cfg: Config, v: CoreView, x: CoreIn) {
    x.enable && x.txEnable && !x.txClear && x.cfg == cfg && CtsPermits(p, v, x)
  }

  predicate Unhindered(p: Params, cfg: Config, v: CoreView, xs: seq<CoreIn>) {
    forall i :: 0 <= i < |xs| ==> SendClock(p, cfg, RunFrom(p, v, xs[..i]), xs[i])
  }

  /** The bytes launched in a run, in order. */
  function Begun(p: Params, v: CoreView, xs: seq<CoreIn>): seq<Byte>
    decreases |xs|
  {
    if xs == [] then []
    else
      var ys, x := xs[..|xs| - 1], xs[|xs| - 1];
      var w := RunFrom(p, v, ys);
      Begun(p, v, ys) + if Begins(p, w, x) then [TxInput(p, w, x).data] else []
  }

  /** The baud ticks of a run. */
  function Ticks(p: Params, v: CoreView, xs: seq<CoreIn>): nat
    decreases |xs|
  {
    if xs == [] then 0
    else
      var ys := xs[..|xs| - 1];
      Ticks(p, v, ys) + if BaudTick(p, RunFrom(p, v, ys)) then 1 else 0
  }

  /** Baud ticks before the byte with k bytes ahead of it begins: the character under way, then k frames, each one
      tick longer than its bits. */
  function TicksBefore(v: CoreView, cfg: Config, k: nat): nat {
    |v.tx.rest| + k * (Latch(cfg).Length() + 1)
  }

  lemma TicksBeforeNext(v: CoreView, cfg: Config, k: nat)
    ensures TicksBefore(v, cfg, k + 1) == TicksBefore(v, cfg, k) + Latch(cfg).Length() + 1
  {
    assert (k + 1) * (Latch(cfg).Length() + 1) == k * (Latch(cfg).Length() + 1) + (Latch(cfg).Length() + 1);
  }

  /** After n launches and b ticks, while the first q bytes last: ticks and unfinished bit periods balance. */
  ghost predicate Balance(v: CoreView, cfg: Config, w: CoreView, begun: seq<Byte>, b: nat) {
    var q, n := |v.txQueue|, |begun|;
    if n < q then
      && begun == v.txQueue[..n] && v.txQueue[n..] <= w.txQueue
      && b + |w.tx.rest| == TicksBefore(v, cfg, n)
      && (n > 0 ==> |w.tx.rest| <= Latch(cfg).Length())
    else
      v.txQueue <= begun && (q > 0 ==> b > TicksBefore(v, cfg, q - 1))
  }

  lemma BalanceStep(p: Params, cfg: Config, v: CoreView, w: CoreView, x: CoreIn, begun: seq<Byte>, b: nat)
    requires SendClock(p, cfg, w, x) && Balance(v, cfg, w, begun, b)
    ensures Balance(v, cfg, Next(p, w, x),
                    begun + if Begins(p, w, x) then [TxInput(p, w, x).data] else [],
                    b + if BaudTick(p, w) then 1 else 0)
  {
    var q, n := |v.txQueue|, |begun|;
    BeginsExactly(p, w, x);
    hide UartRx.Next, NextRxQueue, NextTxQueue, Frame, CtsPermits, BaudTick;
    if n < q {
      TicksBeforeNext(v, cfg, n);
      hide TicksBefore;
      if Begins(p, w, x) {
        var byte := TxInput(p, w, x).data;
        assert v.txQueue[n..][0] == w.txQueue[0] == byte;
        assert begun + [byte] == v.txQueue[..n + 1];
        assert v.txQueue[n + 1..] == v.txQueue[n..][1..] <= w.txQueue[1..];
      } else {
        assert begun + [] == begun;
      }
    }
  }

  lemma UnhinderedPrefix(p: Params, cfg: Config, v: CoreView, xs: seq<CoreIn>, m: nat)
    requires Unhindered(p, cfg, v, xs) && m <= |xs|
    ensures Unhindered(p, cfg, v, xs[..m])
  {
    hide RunFrom, SendClock;
    forall i | 0 <= i < m
      ensures SendClock(p, cfg, RunFrom(p, v, xs[..m][..i]), xs[..m][i])
    {
      assert xs[..m][..i] == xs[..i];
    }
  }

  lemma {:induction false} LaunchBalance(p: Params, cfg: Config, v: CoreView, xs: seq<CoreIn>)
    requires Unhindered(p, cfg, v, xs)
    ensures Balance(v, cfg, RunFrom(p, v, xs), Begun(p, v, xs), Ticks(p, v, xs))
    decreases |xs|
  {
    if xs != [] {
      var m := |xs| - 1;
      UnhinderedPrefix(p, cfg, v, xs, m);
      LaunchBalance(p, cfg, v, xs[..m]);
      BalanceStep(p, cfg, v, RunFrom(p, v, xs[..m]), xs[m], Begun(p, v, xs[..m]), Ticks(p, v, xs[..m]));
      hide Balance, SendClock, Next, Begins, TxInput, BaudTick;
    } else {
      assert TicksBefore(v, cfg, 0) == |v.tx.rest| by {
        assert 0 * (Latch(cfg).Length() + 1) == 0;
      }
      assert v.txQueue[..0] == [];
    }
  }

  lemma TicksBeforeMonotone(v: CoreView, cfg: Config, k: nat, n: nat)
    requires k <= n
    ensures TicksBefore(v, cfg, k) <= TicksBefore(v, cfg, n)
  {
    MulMonotone(k, n, Latch(cfg).Length() + 1);
  }

  /** Every waiting byte is launched, and exactly when: while both enables are high, CTS permits and nothing is
      cleared, the byte with k bytes ahead of it in the queue has begun if and only if more baud ticks have passed
      than the rest of the character under way and k frames of Length + 1 ticks take. Bytes begin in order. */
  lemma LaunchTimed(p: Params, cfg: Config, v: CoreView, xs: seq<CoreIn>, k: nat)
    requires Unhindered(p, cfg, v, xs) && k < |v.txQueue|
    ensures |Begun(p, v, xs)| > k <==> Ticks(p, v, xs) > |v.tx.rest| + k * (Latch(cfg).Length() + 1)
    ensures |Begun(p, v, xs)| > k ==> Begun(p, v, xs)[k] == v.txQueue[k]
  {
    LaunchBalance(p, cfg, v, xs);
    assert TicksBefore(v, cfg, k) == |v.tx.rest| + k * (Latch(cfg).Length() + 1);
    hide RunFrom, Begun, Ticks, Unhindered, TicksBefore;
    BalanceTimed(v, cfg, RunFrom(p, v, xs), Begun(p, v, xs), Ticks(p, v, xs), k);
  }

  lemma BalanceTimed(v: CoreView, cfg: Config, w: CoreView, begun: seq<Byte>, b: nat, k: nat)
    requires Balance(v, cfg, w, begun, b) && k < |v.txQueue|
    ensures |begun| > k <==> b > TicksBefore(v, cfg, k)
    ensures |begun| > k ==> begun[k] == v.txQueue[k]
  {
    hide TicksBefore;
    var q, n := |v.txQueue|, |begun|;
    if n > k {
      TicksBeforeNext(v, cfg, n - 1);
      TicksBeforeMonotone(v, cfg, k, if n < q then n - 1 else q - 1);
    } else {
      TicksBeforeMonotone(v, cfg, n, k);
    }
  }

  /** In particular it has begun within k + 1 frames, and one more for a character under way, whatever the formats:
      no character has more than twelve bit periods. */
  lemma LaunchedWithin(p: Params, cfg: Config, v: CoreView, xs: seq<CoreIn>, k: nat)
    requires Unhindered(p, cfg, v, xs) && k < |v.txQueue| && |v.tx.rest| <= Latch(cfg).Length()
    requires Ticks(p, v, xs) >= (if v.tx.rest == [] then k + 1 else k + 2) * (Latch(cfg).Length() + 1)
    ensures |Begun(p, v, xs)| > k && Begun(p, v, xs)[k] == v.txQueue[k]
  {
    var n := Latch(cfg).Length() + 1;
    assert (k + 1) * n == k * n + n && (k + 2) * n == k * n + 2 * n;
    LaunchTimed(p, cfg, v, xs, k);
    hide Begun, Ticks, Latch;
  }

  // ---- From pins to permission ----

  /** CTS has been active for three clocks. */
  predicate CtsSettled(p: Params, v: CoreView) {
    v.flow.Some? ==>
      var active := !p.ctsActiveLow;
      v.flow.value.c0 == active && v.flow.value.c1 == active && v.flow.value.c2 == active
  }

  lemma SettledStep(p: Params, v: CoreView, x: CoreIn)
    requires CtsSettled(p, v)
    ensures CtsPermits(p, v, x)
    ensures x.ctsPin == !p.ctsActiveLow ==> CtsSettled(p, Next(p, v, x))
  {
    hide UartRx.Next, UartTx.Next, NextRxQueue, NextTxQueue;
  }

  lemma RunFromLast(p: Params, v: CoreView, xs: seq<CoreIn>)
    requires xs != []
    ensures RunFrom(p, v, xs) == Next(p, RunFrom(p, v, xs[..|xs| - 1]), xs[|xs| - 1])
  {
    hide Next;
  }

  predicate PinsClock(p: Params, cfg: Config, x: CoreIn) {
    x.enable && x.txEnable && !x.txClear && x.cfg == cfg && x.ctsPin == !p.ctsActiveLow
  }

  /** With the CTS pin held active, the enables high and no clear nothing hinders. */
  lemma {:induction false} PinsPermit(p: Params, cfg: Config, v: CoreView, xs: seq<CoreIn>)
    requires CtsSettled(p, v) && forall i :: 0 <= i < |xs| ==> PinsClock(p, cfg, xs[i])
    ensures Unhindered(p, cfg, v, xs) && CtsSettled(p, RunFrom(p, v, xs))
    decreases |xs|
  {
    hide CtsSettled, Next, SendClock, CtsPermits;
    if xs != [] {
      var m := |xs| - 1;
      PinsPermit(p, cfg, v, xs[..m]);
      RunFromLast(p, v, xs);
      hide RunFrom;
      SettledStep(p, RunFrom(p, v, xs[..m]), xs[m]);
      SettledSends(p, cfg, RunFrom(p, v, xs[..m]), xs[m]);
      UnhinderedSnoc(p, cfg, v, xs);
    }
  }

  lemma SettledSends(p: Params, cfg: Config, v: CoreView, x: CoreIn)
    requires CtsPermits(p, v, x) && PinsClock(p, cfg, x)
    ensures SendClock(p, cfg, v, x)
  {
    hide CtsPermits;
  }

  lemma UnhinderedSnoc(p: Params, cfg: Config, v: CoreView, xs: seq<CoreIn>)
    requires xs != [] && Unhindered(p, cfg, v, xs[..|xs| - 1])
    requires SendClock(p, cfg, RunFrom(p, v, xs[..|xs| - 1]), xs[|xs| - 1])
    ensures Unhindered(p, cfg, v, xs)
  {
    hide RunFrom, SendClock;
    var m := |xs| - 1;
    forall i | 0 <= i < |xs|
      ensures SendClock(p, cfg, RunFrom(p, v, xs[..i]), xs[i])
    {
      if i < m {
        assert SendClock(p, cfg, RunFrom(p, v, xs[..m][..i]), xs[..m][i]);
        assert xs[..m][..i] == xs[..i];
      }
    }
  }

  // ---- Ticks in clocks ----

  lemma {:induction false} TicksSplit(p: Params, v: CoreView, ys: seq<CoreIn>, zs: seq<CoreIn>)
    ensures RunFrom(p, v, ys + zs) == RunFrom(p, RunFrom(p, v, ys), zs)
    ensures Ticks(p, v, ys + zs) == Ticks(p, v, ys) + Ticks(p, RunFrom(p, v, ys), zs)
    decreases |zs|
  {
    hide Next, BaudTick;
    if zs != [] {
      var m := |zs| - 1;
      TicksSplit(p, v, ys, zs[..m]);
      assert (ys + zs)[..|ys + zs| - 1] == ys + zs[..m];
    } else {
      assert ys + zs == ys;
    }
  }

  /** From reset with a constant increment the baud ticks of a run are known exactly. */
  lemma {:induction false} TicksFromReset(p: Params, xs: seq<CoreIn>, inc: nat)
    requires inc < p.Modulus() && forall i :: 0 <= i < |xs| ==> xs[i].enable && xs[i].baudInc == inc
    ensures RunFrom(p, Reset(p), xs).baud == BaudGen.After(|xs|, inc)
    ensures xs != [] ==> Ticks(p, Reset(p), xs) == (|xs| - 1) * inc / p.Modulus() / p.Ratio()
    decreases |xs|
  {
    if xs != [] {
      var m := |xs| - 1;
      TicksFromReset(p, xs[..m], inc);
      BaudGen.TicksExact(m, inc, p.Modulus(), p.Ratio());
      if m > 0 {
        BaudGen.TicksExact(m - 1, inc, p.Modulus(), p.Ratio());
      }
      hide UartRx.Next, UartTx.Next, NextRxQueue, NextTxQueue;
    }
  }

  // ---- Loopback, with a deadline ----

  lemma {:induction false} LaunchedSplit(p: Params, ys: seq<CoreIn>, zs: seq<CoreIn>)
    ensures Run(p, ys + zs) == RunFrom(p, Run(p, ys), zs)
    ensures Loopback.Launched(p, ys + zs) == Loopback.Launched(p, ys) + Begun(p, Run(p, ys), zs)
    decreases |zs|
  {
    hide Next, TxInput;
    if zs != [] {
      var m := |zs| - 1;
      LaunchedSplit(p, ys, zs[..m]);
      assert (ys + zs)[..|ys + zs| - 1] == ys + zs[..m];
    } else {
      assert ys + zs == ys;
    }
  }

  /** Nothing is in flight on a baud tick that finds the serializer idle. */
  lemma NothingOwed(p: Params, cfg: Config, xs: seq<CoreIn>)
    requires p.oversample >= 8 && Loopback.LoopRun(p, cfg, xs)
    requires Run(p, xs).tx.rest == [] && BaudTick(p, Run(p, xs))
    ensures |Loopback.Received(p, xs)| == |Loopback.Launched(p, xs)|
  {
    var v, launched := Run(p, xs), Loopback.Launched(p, xs);
    Loopback.LoopInvariantHolds(p, cfg, xs);
    Loopback.LastFrameShape(cfg, launched);
    hide Run, Loopback.LineAt, Loopback.RxAt, Loopback.Launched, Loopback.Received, Loopback.LoopRun, DecodeSamples;
    hide Loopback.LastFrame, Loopback.CleanAll, Loopback.TrackOf, OsTick, UartRx.Next;
    Loopback.RxLaunch(p.oversample, Latch(cfg), v.rx, UartRx.RxIn(true, true, cfg, OsTick(p, v), v.sync.s2), v.tx, v.sync,
                      BaudGen.Slot(p.Modulus(), p.Ratio(), v.baud), Loopback.LastFrame(cfg, launched),
                      Loopback.TrackOf(p, xs), |launched| - |Loopback.Received(p, xs)|, [false]);
  }

  lemma {:induction false} ReceivedGrows(p: Params, xs: seq<CoreIn>, m: nat)
    requires m <= |xs|
    ensures |Loopback.Received(p, xs[..m])| <= |Loopback.Received(p, xs)|
    decreases |xs|
  {
    if m < |xs| {
      var ys := xs[..|xs| - 1];
      assert ys[..m] == xs[..m];
      ReceivedGrows(p, ys, m);
      OneClockReceives(p, xs);
    } else {
      assert xs[..m] == xs;
    }
  }

  lemma OneClockReceives(p: Params, xs: seq<CoreIn>)
    requires xs != []
    ensures |Loopback.Received(p, xs[..|xs| - 1])| <= |Loopback.Received(p, xs)|
  {
    hide Next;
  }

  /** After i clocks at least n bytes have begun, and the coming baud tick finds the serializer idle. */
  predicate RestsAt(p: Params, v: CoreView, xs: seq<CoreIn>, i: nat, n: nat)
    requires i <= |xs|
  {
    var w := RunFrom(p, v, xs[..i]);
    BaudTick(p, w) && w.tx.rest == [] && |Begun(p, v, xs[..i])| >= n
  }

  lemma RestsAtEnd(p: Params, v: CoreView, xs: seq<CoreIn>, n: nat)
    requires xs != []
    ensures var ys := xs[..|xs| - 1]; var w := RunFrom(p, v, ys);
            RestsAt(p, v, xs, |xs| - 1, n) <==> BaudTick(p, w) && w.tx.rest == [] && |Begun(p, v, ys)| >= n
  {
    hide RunFrom, Begun, BaudTick;
  }

  /** Behind its n-th character the serializer rests for one baud tick. */
  ghost predicate RestDue(p: Params, cfg: Config, v: CoreView, xs: seq<CoreIn>, n: nat) {
    || |Begun(p, v, xs)| < n
    || (|Begun(p, v, xs)| == n && Ticks(p, v, xs) + |RunFrom(p, v, xs).tx.rest| == TicksBefore(v, cfg, n))
    || exists i :: 0 <= i < |xs| && RestsAt(p, v, xs, i, n)
  }

  lemma {:induction false} RestComes(p: Params, cfg: Config, v: CoreView, xs: seq<CoreIn>, n: nat)
    requires Unhindered(p, cfg, v, xs) && 0 < n <= |v.txQueue|
    ensures RestDue(p, cfg, v, xs, n)
    decreases |xs|
  {
    if xs != [] {
      var m := |xs| - 1;
      UnhinderedPrefix(p, cfg, v, xs, m);
      RestComes(p, cfg, v, xs[..m], n);
      if i :| 0 <= i < m && RestsAt(p, v, xs[..m], i, n) {
        assert xs[..m][..i] == xs[..i];
        assert RestsAt(p, v, xs, i, n);
      } else {
        LaunchBalance(p, cfg, v, xs[..m]);
        RestsAtEnd(p, v, xs, n);
        hide RestsAt;
        RestClock(p, cfg, v, xs, n);
      }
    }
  }

  lemma OneClock(p: Params, v: CoreView, xs: seq<CoreIn>)
    requires xs != []
    ensures var ys, x := xs[..|xs| - 1], xs[|xs| - 1]; var w := RunFrom(p, v, ys);
            && RunFrom(p, v, xs) == Next(p, w, x)
            && |Begun(p, v, xs)| == |Begun(p, v, ys)| + (if Begins(p, w, x) then 1 else 0)
            && Ticks(p, v, xs) == Ticks(p, v, ys) + (if BaudTick(p, w) then 1 else 0)
  {
    hide Next, TxInput, BaudTick, Begins;
  }

  lemma RestClock(p: Params, cfg: Config, v: CoreView, xs: seq<CoreIn>, n: nat)
    requires xs != [] && 0 < n <= |v.txQueue|
    requires var m := |xs| - 1; var w, begun := RunFrom(p, v, xs[..m]), Begun(p, v, xs[..m]);
             && SendClock(p, cfg, w, xs[m]) && Balance(v, cfg, w, begun, Ticks(p, v, xs[..m]))
             && (|| |begun| < n
                 || (|begun| == n && Ticks(p, v, xs[..m]) + |w.tx.rest| == TicksBefore(v, cfg, n)))
             && (RestsAt(p, v, xs, m, n) <==> BaudTick(p, w) && w.tx.rest == [] && |begun| >= n)
    ensures RestDue(p, cfg, v, xs, n)
  {
    var m := |xs| - 1;
    var w := RunFrom(p, v, xs[..m]);
    OneClock(p, v, xs);
    hide RestsAt, TicksBefore, BaudTick, SendClock, Balance, Next, Begins, TxInput, Begun, Ticks, RunFrom;
    if !RestsAt(p, v, xs, m, n) {
      RestStep(p, cfg, v, w, xs[m], Begun(p, v, xs[..m]), Ticks(p, v, xs[..m]), n);
    }
  }

  lemma RestStep(p: Params, cfg: Config, v: CoreView, w: CoreView, x: CoreIn, begun: seq<Byte>, b: nat, n: nat)
    requires 0 < n <= |v.txQueue| && SendClock(p, cfg, w, x) && Balance(v, cfg, w, begun, b)
    requires |begun| < n || (|begun| == n && b + |w.tx.rest| == TicksBefore(v, cfg, n))
    requires !(BaudTick(p, w) && w.tx.rest == [] && |begun| >= n)
    ensures var begun' := |begun| + if Begins(p, w, x) then 1 else 0;
            var b' := b + if BaudTick(p, w) then 1 else 0;
            begun' < n || (begun' == n && b' + |Next(p, w, x).tx.rest| == TicksBefore(v, cfg, n))
  {
    BeginsExactly(p, w, x);
    TicksBeforeNext(v, cfg, n - 1);
    hide TicksBefore, CtsPermits, BaudTick, Frame, UartRx.Next, NextRxQueue, NextTxQueue;
  }

  /** Loopback does not only lose nothing, it delivers: a byte with k bytes ahead of it in the queue is received
      once the ticks for it and one frame more have passed. */
  lemma LoopDelivers(p: Params, cfg: Config, ys: seq<CoreIn>, zs: seq<CoreIn>, k: nat)
    requires p.oversample >= 8 && Loopback.LoopRun(p, cfg, ys + zs)
    requires Unhindered(p, cfg, Run(p, ys), zs) && k < |Run(p, ys).txQueue|
    requires Ticks(p, Run(p, ys), zs) > |Run(p, ys).tx.rest| + (k + 1) * (Latch(cfg).Length() + 1)
    ensures var at, received := |Loopback.Launched(p, ys)| + k, Loopback.Received(p, ys + zs);
            at < |received| && received[at] == Loopback.Clean(cfg, Run(p, ys).txQueue[k])
  {
    hide Run, RunFrom, Begun, Ticks, Loopback.Launched, Loopback.Received, Loopback.LoopRun, Loopback.Clean, Unhindered;
    hide RestsAt;
    var v := Run(p, ys);
    MulMonotone(k, k + 1, Latch(cfg).Length() + 1);
    LaunchTimed(p, cfg, v, zs, k);
    RestComes(p, cfg, v, zs, k + 1);
    var i :| 0 <= i < |zs| && RestsAt(p, v, zs, i, k + 1);
    Rested(p, cfg, ys, zs, i, k + 1);
    LaunchedSplit(p, ys, zs);
    Loopback.Lossless(p, cfg, ys + zs);
  }

  lemma Rested(p: Params, cfg: Config, ys: seq<CoreIn>, zs: seq<CoreIn>, i: nat, n: nat)
    requires p.oversample >= 8 && Loopback.LoopRun(p, cfg, ys + zs)
    requires i <= |zs| && RestsAt(p, Run(p, ys), zs, i, n)
    ensures |Loopback.Received(p, ys + zs)| >= |Loopback.Launched(p, ys)| + n
  {
    hide Run, RunFrom, Begun, BaudTick, Loopback.Launched, Loopback.Received, Loopback.LoopRun;
    var xs := ys + zs;
    assert xs[..|ys| + i] == ys + zs[..i];
    Loopback.LoopPrefix(p, cfg, xs, |ys| + i);
    LaunchedSplit(p, ys, zs[..i]);
    NothingOwed(p, cfg, ys + zs[..i]);
    ReceivedGrows(p, xs, |ys| + i);
  }
}
