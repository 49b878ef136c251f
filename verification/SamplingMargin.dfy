/** Sampling margin: when an external character with P clocks per bit is decoded exactly, for any phase of the
    free-running baud generator. */
module SamplingMargin {
  import opened UartFormat
  import opened Arithmetic
  import opened UartCore
  import BaudGen
  import RxSync
  import UartRx

  // ---- The arithmetic of one sample ----

  /** Oversample ticks from the detected start edge to sample number m. */
  function TicksTo(oversample: nat, m: nat): (k: nat)
    ensures k >= 1
  {
    UartRx.HalfBit(oversample) + oversample * m
  }

  /** Sample m is taken x clocks after the start edge was seen: the first clock on which the phase, starting
      from the residue r, has gained the k-th overflow. */
  predicate TakenAt(modulus: nat, inc: nat, k: nat, r: nat, x: nat) {
    x >= 1 && r + x * inc >= k * modulus && r + (x - 1) * inc < k * modulus
  }

  predicate Inside(period: nat, m: nat, x: nat) {
    m * period <= x < (m + 1) * period
  }

  /** The inequalities that keep sample m inside bit m. */
  predicate MarginAt(modulus: nat, inc: nat, oversample: nat, period: nat, m: nat) {
    var k := TicksTo(oversample, m);
    (m * period - 1) * inc <= (k - 1) * modulus && k * modulus <= ((m + 1) * period - 1) * inc
  }

  lemma MarginSuffices(modulus: nat, inc: nat, oversample: nat, period: nat, m: nat, r: nat, x: nat)
    requires r < modulus && MarginAt(modulus, inc, oversample, period, m)
    requires TakenAt(modulus, inc, TicksTo(oversample, m), r, x)
    ensures Inside(period, m, x)
  {
    var k := TicksTo(oversample, m);
    assert k * modulus == (k - 1) * modulus + modulus;
    if x <= m * period - 1 {
      MulMonotone(x, m * period - 1, inc);
      assert false;
    }
    if x - 1 >= (m + 1) * period - 1 {
      MulMonotone((m + 1) * period - 1, x - 1, inc);
      assert false;
    }
  }

  /** The first clock on which the k-th overflow has happened. */
  function FirstClock(modulus: nat, inc: nat, k: nat, r: nat): (x: nat)
    requires 0 < inc && r < modulus && k >= 1
    ensures TakenAt(modulus, inc, k, r, x)
  {
    CeilFacts(k * modulus - r, inc, k, modulus);
    (k * modulus - r + inc - 1) / inc
  }

  lemma CeilFacts(a: int, inc: nat, k: nat, modulus: nat)
    requires 0 < inc && k >= 1 && k * modulus - modulus < a <= k * modulus
    ensures var x := (a + inc - 1) / inc;
            x >= 1 && x * inc >= a && (x - 1) * inc < a
  {
    assert k * modulus >= modulus by {
      MulMonotone(1, k, modulus);
    }
    assert a >= 1;
    var x := (a + inc - 1) / inc;
    assert a + inc - 1 == inc * x + (a + inc - 1) % inc;
    assert x * inc > a - 1;
    assert (x - 1) * inc == x * inc - inc;
  }

  /** The inequalities are exact: they hold if and only if the sample lands inside its bit for every phase. */
  lemma MarginExact(modulus: nat, inc: nat, oversample: nat, period: nat, m: nat)
    requires 0 < inc && 0 < modulus
    ensures MarginAt(modulus, inc, oversample, period, m)
       <==> forall r: nat :: r < modulus ==> Inside(period, m, FirstClock(modulus, inc, TicksTo(oversample, m), r))
  {
    var k := TicksTo(oversample, m);
    if MarginAt(modulus, inc, oversample, period, m) {
      forall r: nat | r < modulus
        ensures Inside(period, m, FirstClock(modulus, inc, k, r))
      {
        MarginSuffices(modulus, inc, oversample, period, m, r, FirstClock(modulus, inc, k, r));
      }
    }
    if forall r: nat :: r < modulus ==> Inside(period, m, FirstClock(modulus, inc, k, r)) {
      var early := FirstClock(modulus, inc, k, modulus - 1);
      var late := FirstClock(modulus, inc, k, 0);
      assert Inside(period, m, early) && Inside(period, m, late);
      assert k * modulus == (k - 1) * modulus + modulus;
      MulMonotone(m * period - 1, early - 1, inc);
      MulMonotone(late, (m + 1) * period - 1, inc);
    }
  }

  // ---- All samples of a frame: three corner inequalities ----

  /** First sample not late, last sample not late, last sample not early. */
  predicate Margin(modulus: nat, inc: nat, oversample: nat, period: nat, length: nat)
    requires length >= 1
  {
    && UartRx.HalfBit(oversample) * modulus <= (period - 1) * inc
    && TicksTo(oversample, length - 1) * modulus <= (length * period - 1) * inc
    && ((length - 1) * period - 1) * inc <= (TicksTo(oversample, length - 1) - 1) * modulus
  }

  /** A quantity that changes linearly is non-negative in between when it is at both ends. */
  lemma LinearBetween(f0: int, slope: int, m: nat, n: nat)
    requires m <= n && f0 >= 0 && f0 + n * slope >= 0
    ensures f0 + m * slope >= 0
  {
    if slope >= 0 {
      MulMonotone(0, m, slope);
    } else {
      MulMonotone(m, n, -slope);
    }
  }

  lemma LowerLinear(modulus: nat, inc: nat, oversample: nat, period: nat, m: nat)
    ensures (TicksTo(oversample, m) - 1) * modulus - (m * period - 1) * inc
         == (UartRx.HalfBit(oversample) - 1) * modulus + inc + m * (oversample * modulus - period * inc)
  {
    var h := UartRx.HalfBit(oversample);
    assert (h + oversample * m - 1) * modulus == (h - 1) * modulus + oversample * m * modulus;
    assert (m * period - 1) * inc == m * period * inc - inc;
    assert m * (oversample * modulus - period * inc) == m * (oversample * modulus) - m * (period * inc);
    assert oversample * m * modulus == m * (oversample * modulus);
    assert m * period * inc == m * (period * inc);
  }

  lemma UpperLinear(modulus: nat, inc: nat, oversample: nat, period: nat, m: nat)
    ensures ((m + 1) * period - 1) * inc - TicksTo(oversample, m) * modulus
         == (period - 1) * inc - UartRx.HalfBit(oversample) * modulus + m * (period * inc - oversample * modulus)
  {
    var h := UartRx.HalfBit(oversample);
    assert (h + oversample * m) * modulus == h * modulus + oversample * m * modulus;
    assert (m + 1) * period == m * period + period;
    assert (m * period + period - 1) * inc == m * period * inc + (period - 1) * inc;
    assert m * (period * inc - oversample * modulus) == m * (period * inc) - m * (oversample * modulus);
    assert oversample * m * modulus == m * (oversample * modulus);
    assert m * period * inc == m * (period * inc);
  }

  /** The three corners say exactly that every sample of the frame has its margin. */
  lemma MarginCorners(modulus: nat, inc: nat, oversample: nat, period: nat, length: nat)
    requires length >= 1
    ensures Margin(modulus, inc, oversample, period, length)
       <==> forall m: nat :: m < length ==> MarginAt(modulus, inc, oversample, period, m)
  {
    var n := length - 1;
    if Margin(modulus, inc, oversample, period, length) {
      forall m: nat | m < length
        ensures MarginAt(modulus, inc, oversample, period, m)
      {
        CornersToSample(modulus, inc, oversample, period, length, m);
      }
    }
    if forall m: nat :: m < length ==> MarginAt(modulus, inc, oversample, period, m) {
      assert MarginAt(modulus, inc, oversample, period, 0) && MarginAt(modulus, inc, oversample, period, n);
      assert oversample * 0 == 0;
    }
  }

  lemma CornersToSample(modulus: nat, inc: nat, oversample: nat, period: nat, length: nat, m: nat)
    requires m < length && Margin(modulus, inc, oversample, period, length)
    ensures MarginAt(modulus, inc, oversample, period, m)
  {
    var n, h := length - 1, UartRx.HalfBit(oversample);
    LowerLinear(modulus, inc, oversample, period, m);
    LowerLinear(modulus, inc, oversample, period, n);
    UpperLinear(modulus, inc, oversample, period, m);
    UpperLinear(modulus, inc, oversample, period, n);
    MulMonotone(0, h - 1, modulus);
    LinearBetween((h - 1) * modulus + inc, oversample * modulus - period * inc, m, n);
    LinearBetween((period - 1) * inc - h * modulus, period * inc - oversample * modulus, m, n);
  }

  // ---- Decoding a whole external character ----

  function RunFrom(p: Params, v: CoreView, xs: seq<CoreIn>): CoreView
    decreases |xs|
  {
    if xs == [] then v else Next(p, RunFrom(p, v, xs[..|xs| - 1]), xs[|xs| - 1])
  }

  /** The receiver waits on a quiet line; the baud generator is in any phase. */
  predicate Waiting(v: CoreView) {
    v.rx == UartRx.RxView(UartRx.Hunting(true), None) && v.sync == RxSync.RESET
  }

  /** The synchronizer has seen a high line for three clocks. */
  predicate Quiet(v: CoreView) {
    v.sync == RxSync.RESET
  }

  /** An external sender shows one level per `period` clocks, starting with the first clock of the run; the
      receiver is enabled with a fixed format and increment. After the last bit the line is free. */
  predicate External(p: Params, cfg: Config, inc: nat, period: nat, levels: seq<bool>, xs: seq<CoreIn>)
    requires period >= 1
  {
    forall i :: 0 <= i < |xs| ==>
      && xs[i].enable && xs[i].rxEnable && xs[i].cfg == cfg && xs[i].baudInc == inc
      && (i / period < |levels| ==> xs[i].rxPin == levels[i / period])
  }

  lemma RunFromPrefix(p: Params, v: CoreView, xs: seq<CoreIn>, n: nat)
    requires n < |xs|
    ensures var w := RunFrom(p, v, xs[..n]);
            var w' := RunFrom(p, v, xs[..n + 1]);
            && w'.baud == BaudGen.Next(w.baud, xs[n].enable, xs[n].baudInc)
            && w'.sync == RxSync.Next(w.sync, xs[n].rxPin)
            && w'.rx == UartRx.Next(p.oversample, w.rx, RxInput(p, w, xs[n]))
  {
    assert xs[..n + 1][..n] == xs[..n];
  }

  lemma OneMore(n: int, inc: int)
    ensures n * inc == (n - 1) * inc + inc
  {
  }

  /** Phase and synchronizer after n clocks. */
  lemma {:induction false} Surroundings(p: Params, cfg: Config, inc: nat, period: nat, levels: seq<bool>,
                                        v: CoreView, xs: seq<CoreIn>, n: nat)
    requires period >= 1 && Quiet(v) && External(p, cfg, inc, period, levels, xs) && n <= |xs|
    ensures var w := RunFrom(p, v, xs[..n]);
            && w.baud.phase == v.baud.phase + n * inc
            && (n >= 1 ==> w.baud.prev == v.baud.phase + (n - 1) * inc)
            && w.sync == RxSync.SyncView(n < 1 || xs[n - 1].rxPin, n < 2 || xs[n - 2].rxPin,
                                         n < 3 || xs[n - 3].rxPin)
  {
    if n > 0 {
      Surroundings(p, cfg, inc, period, levels, v, xs, n - 1);
      RunFromPrefix(p, v, xs, n - 1);
      assert xs[n - 1].enable && xs[n - 1].baudInc == inc;
      OneMore(n, inc);
      hide External, UartRx.Next, RunFrom, RxInput;
    } else {
      assert xs[..0] == [];
      assert 0 * inc == 0;
    }
  }

  /** Overflows gained between the clock in which the decoder started (clock 3) and clock n. */
  function Gained(modulus: nat, phase: nat, inc: nat, n: nat): int
    requires modulus >= 1
  {
    (phase + n * inc) / modulus - (phase + 3 * inc) / modulus
  }

  lemma GainedSteps(modulus: nat, phase: nat, inc: nat, n: nat)
    requires inc < modulus && n >= 4
    ensures Gained(modulus, phase, inc, 3) == 0
    ensures Gained(modulus, phase, inc, n - 1) <= Gained(modulus, phase, inc, n)
                                              <= Gained(modulus, phase, inc, n - 1) + 1
    ensures BaudGen.OsTick(modulus, BaudGen.BaudView(phase + (n - 1) * inc, phase + n * inc))
         == (Gained(modulus, phase, inc, n) == Gained(modulus, phase, inc, n - 1) + 1)
  {
    assert n * inc == (n - 1) * inc + inc;
    BaudGen.DivModStep(phase + (n - 1) * inc, modulus, inc);
  }

  /** The clock on which the count reaches k is the one `TakenAt` speaks of. */
  lemma GainedTaken(modulus: nat, phase: nat, inc: nat, n: nat, k: nat)
    requires inc < modulus && n >= 4
    requires Gained(modulus, phase, inc, n - 1) < k == Gained(modulus, phase, inc, n)
    ensures TakenAt(modulus, inc, k, (phase + 3 * inc) % modulus, n - 3)
  {
    var base := phase + 3 * inc;
    var q, r := base / modulus, base % modulus;
    assert base == modulus * q + r;
    Reach(modulus, q, r, k, base, (n - 3) * inc, phase + n * inc);
    assert phase + n * inc == base + (n - 3) * inc;
    assert phase + (n - 1) * inc == base + (n - 4) * inc;
    Reach(modulus, q, r, k, base, (n - 4) * inc, phase + (n - 1) * inc);
  }

  lemma Reach(modulus: nat, q: nat, r: nat, k: nat, base: nat, travel: nat, total: nat)
    requires r < modulus && base == modulus * q + r && total == base + travel
    ensures total / modulus - q >= k <==> r + travel >= k * modulus
  {
    var t := total / modulus;
    assert total == modulus * t + total % modulus;
    if t >= q + k {
      MulMonotone(q + k, t, modulus);
      assert modulus * t == t * modulus && (q + k) * modulus == q * modulus + k * modulus;
    } else {
      MulMonotone(t + 1, q + k, modulus);
      assert modulus * t == t * modulus && (q + k) * modulus == q * modulus + k * modulus;
      assert (t + 1) * modulus == t * modulus + modulus;
    }
  }

  /** The decoder has kept count: `gained` ticks after its start it holds the samples that were due. */
  predicate KeptCount(oversample: nat, f: Format, levels: seq<bool>, rx: UartRx.RxView, gained: int) {
    && rx.out.None? && rx.phase.Sampling? && rx.phase.format == f
    && var m := |rx.phase.samples|;
       && m < |levels| && rx.phase.samples == levels[..m]
       && 0 <= rx.phase.count < UartRx.Due(oversample, rx.phase.samples)
       && gained == (if m == 0 then 0 else TicksTo(oversample, m - 1)) + rx.phase.count
  }

  lemma NextDue(oversample: nat, m: nat)
    requires oversample >= 1
    ensures TicksTo(oversample, m + 1) == TicksTo(oversample, m) + UartRx.FullBit(oversample)
    ensures TicksTo(oversample, 0) == UartRx.HalfBit(oversample)
  {
    assert oversample * (m + 1) == oversample * m + oversample;
  }

  predicate Complete(oversample: nat, f: Format, levels: seq<bool>, rx: UartRx.RxView, gained: int)
    requires levels != []
  {
    rx == UartRx.RxView(UartRx.Finishing(f, levels), None) && gained == TicksTo(oversample, |levels| - 1)
  }

  /** The decoder's own part of a clock: it is enough that a due sample shows the level of its bit. */
  lemma CountClock(oversample: nat, f: Format, levels: seq<bool>, rx: UartRx.RxView, x: UartRx.RxIn, gained: int)
    requires oversample >= 1 && f.Valid() && |levels| == f.Length() && !levels[0]
    requires KeptCount(oversample, f, levels, rx, gained)
    requires x.tick && gained + 1 == TicksTo(oversample, |rx.phase.samples|) ==> x.line == levels[|rx.phase.samples|]
    ensures var rx', gained' := UartRx.Next(oversample, rx, x), if x.tick then gained + 1 else gained;
            KeptCount(oversample, f, levels, rx', gained') || Complete(oversample, f, levels, rx', gained')
    ensures UartRx.Next(oversample, rx, x).phase.Finishing? ==>
              x.tick && gained + 1 == TicksTo(oversample, |levels| - 1) && |rx.phase.samples| == |levels| - 1
  {
    var samples := rx.phase.samples;
    var m := |samples|;
    if m > 0 {
      NextDue(oversample, m - 1);
    } else {
      NextDue(oversample, 0);
    }
    hide TicksTo;
    assert levels[..m] + [levels[m]] == levels[..m + 1];
    assert levels[..|levels|] == levels;
  }

  /** One clock in the middle of the character: a sample, if one is due, is the level of its own bit. */
  lemma DecodeClock(p: Params, cfg: Config, inc: nat, period: nat, levels: seq<bool>, v: CoreView, xs: seq<CoreIn>,
                    n: nat)
    requires period >= 1 && p.oversample >= 1 && inc < p.Modulus() && 4 <= n < |xs|
    requires Quiet(v) && External(p, cfg, inc, period, levels, xs)
    requires |levels| == Latch(cfg).Length() && !levels[0]
    requires Margin(p.Modulus(), inc, p.oversample, period, |levels|)
    requires KeptCount(p.oversample, Latch(cfg), levels, RunFrom(p, v, xs[..n]).rx,
                       Gained(p.Modulus(), v.baud.phase, inc, n - 1))
    ensures var rx := RunFrom(p, v, xs[..n + 1]).rx;
            var gained := Gained(p.Modulus(), v.baud.phase, inc, n);
            || KeptCount(p.oversample, Latch(cfg), levels, rx, gained)
            || (Complete(p.oversample, Latch(cfg), levels, rx, gained) && n - 3 < |levels| * period)
  {
    hide RunFrom;
    var w := RunFrom(p, v, xs[..n]);
    Surroundings(p, cfg, inc, period, levels, v, xs, n);
    RunFromPrefix(p, v, xs, n);
    GainedSteps(p.Modulus(), v.baud.phase, inc, n);
    var m := |w.rx.phase.samples|;
    if Gained(p.Modulus(), v.baud.phase, inc, n - 1) < TicksTo(p.oversample, m) == Gained(p.Modulus(), v.baud.phase, inc, n) {
      SampleLevel(p, cfg, inc, period, levels, v, xs, n, m);
    }
    hide Gained, TicksTo, Margin, BaudGen.OsTick, UartRx.Next, KeptCount;
    CountClock(p.oversample, Latch(cfg), levels, w.rx, RxInput(p, w, xs[n]), Gained(p.Modulus(), v.baud.phase, inc, n - 1));
  }

  lemma SampleLevel(p: Params, cfg: Config, inc: nat, period: nat, levels: seq<bool>, v: CoreView, xs: seq<CoreIn>,
                    n: nat, m: nat)
    requires period >= 1 && inc < p.Modulus() && 4 <= n < |xs| && m < |levels|
    requires External(p, cfg, inc, period, levels, xs)
    requires Margin(p.Modulus(), inc, p.oversample, period, |levels|)
    requires Gained(p.Modulus(), v.baud.phase, inc, n - 1) < TicksTo(p.oversample, m)
          == Gained(p.Modulus(), v.baud.phase, inc, n)
    ensures xs[n - 3].rxPin == levels[m] && n - 3 < |levels| * period
  {
    var modulus, phase, k := p.Modulus(), v.baud.phase, TicksTo(p.oversample, m);
    GainedTaken(modulus, phase, inc, n, k);
    CornersToSample(modulus, inc, p.oversample, period, |levels|, m);
    MarginSuffices(modulus, inc, p.oversample, period, m, (phase + 3 * inc) % modulus, n - 3);
    var x := n - 3;
    assert x == period * m + (x - m * period);
    assert (m + 1) * period == m * period + period;
    BaudGen.DivModUnique(x, period, m, x - m * period);
    MulMonotone(m + 1, |levels|, period);
  }

  /** The first four clocks: the start edge passes the synchronizer and starts the decoder. */
  lemma Startup(p: Params, cfg: Config, inc: nat, period: nat, levels: seq<bool>, v: CoreView, xs: seq<CoreIn>, n: nat)
    requires period >= 1 && n <= 4 <= |xs| && Waiting(v) && External(p, cfg, inc, period, levels, xs)
    requires levels != [] && !levels[0]
    ensures RunFrom(p, v, xs[..n]).rx
         == (if n < 4 then v.rx else UartRx.RxView(UartRx.Sampling(Latch(cfg), 0, []), None))
  {
    if n == 0 {
      assert xs[..0] == [];
    } else {
      Startup(p, cfg, inc, period, levels, v, xs, n - 1);
      Surroundings(p, cfg, inc, period, levels, v, xs, n - 1);
      RunFromPrefix(p, v, xs, n - 1);
      BaudGen.DivModUnique(0, period, 0, 0);
    }
  }

  /** The last sample is not late: it is taken within `bound` clocks of the start edge. */
  predicate LastWithin(modulus: nat, inc: nat, oversample: nat, length: nat, bound: nat)
    requires length >= 1
  {
    bound >= 1 && TicksTo(oversample, length - 1) * modulus <= (bound - 1) * inc
  }

  /** From any point in the middle of the character the record still comes, in time; it leaves the decoder
      disarmed. */
  lemma {:induction false} Delivery(p: Params, cfg: Config, inc: nat, period: nat, levels: seq<bool>, v: CoreView,
                                    xs: seq<CoreIn>, bound: nat, n: nat) returns (done: nat)
    requires period >= 1 && p.oversample >= 1 && inc < p.Modulus() && 4 <= n
    requires |levels| * period + 4 <= |xs|
    requires Quiet(v) && External(p, cfg, inc, period, levels, xs)
    requires |levels| == Latch(cfg).Length() && !levels[0]
    requires Margin(p.Modulus(), inc, p.oversample, period, |levels|)
    requires LastWithin(p.Modulus(), inc, p.oversample, |levels|, bound) && bound <= |levels| * period
    requires n <= bound + 3
    requires KeptCount(p.oversample, Latch(cfg), levels, RunFrom(p, v, xs[..n]).rx,
                       Gained(p.Modulus(), v.baud.phase, inc, n - 1))
    ensures n < done <= bound + 4 && (|levels| - 1) * period + 5 <= done
    ensures RunFrom(p, v, xs[..done]).rx == UartRx.RxView(UartRx.Hunting(false), Some(DecodeSamples(Latch(cfg), levels)))
    ensures forall i :: n <= i < done ==> RunFrom(p, v, xs[..i]).rx.out.None?
    decreases |xs| - n
  {
    hide DecodeSamples, Margin, External, RunFrom, Next, Gained, Latch, LastWithin;
    var gained := Gained(p.Modulus(), v.baud.phase, inc, n);
    DecodeClock(p, cfg, inc, period, levels, v, xs, n);
    var rx := RunFrom(p, v, xs[..n + 1]).rx;
    if KeptCount(p.oversample, Latch(cfg), levels, rx, gained) {
      StillBehind(p.oversample, Latch(cfg), levels, rx, gained);
      WithinBound(p.Modulus(), v.baud.phase, inc, p.oversample, |levels|, bound, n);
      done := Delivery(p, cfg, inc, period, levels, v, xs, bound, n + 1);
    } else {
      StillBehind(p.oversample, Latch(cfg), levels, RunFrom(p, v, xs[..n]).rx,
                  Gained(p.Modulus(), v.baud.phase, inc, n - 1));
      LastSample(p.Modulus(), v.baud.phase, inc, p.oversample, period, |levels|, bound, n);
      Publish(p, Latch(cfg), levels, v, xs, n + 1);
      done := n + 2;
    }
  }

  lemma WithinBound(modulus: nat, phase: nat, inc: nat, oversample: nat, length: nat, bound: nat, n: nat)
    requires 0 < modulus && n >= 4 && length >= 1 && LastWithin(modulus, inc, oversample, length, bound)
    requires Gained(modulus, phase, inc, n) < TicksTo(oversample, length - 1)
    ensures n < bound + 2
  {
    NotYet(modulus, phase, inc, n, TicksTo(oversample, length - 1), bound);
  }

  /** The clock of the last sample. */
  lemma LastSample(modulus: nat, phase: nat, inc: nat, oversample: nat, period: nat, length: nat, bound: nat, n: nat)
    requires inc < modulus && n >= 4 && length >= 1 && LastWithin(modulus, inc, oversample, length, bound)
    requires Margin(modulus, inc, oversample, period, length)
    requires Gained(modulus, phase, inc, n - 1) < TicksTo(oversample, length - 1) == Gained(modulus, phase, inc, n)
    ensures n - 3 < bound && (length - 1) * period <= n - 3
  {
    hide Gained;
    var k, x := TicksTo(oversample, length - 1), n - 3;
    GainedTaken(modulus, phase, inc, n, k);
    CornersToSample(modulus, inc, oversample, period, length, length - 1);
    MarginSuffices(modulus, inc, oversample, period, length - 1, (phase + 3 * inc) % modulus, x);
    if x >= bound {
      MulMonotone(bound - 1, x - 1, inc);
    }
  }

  lemma EndMargin(modulus: nat, inc: nat, oversample: nat, period: nat, length: nat)
    requires length >= 1 && Margin(modulus, inc, oversample, period, length)
    ensures period >= 1 ==> LastWithin(modulus, inc, oversample, length, length * period)
  {
    if period >= 1 {
      MulMonotone(1, length, period);
    }
  }

  lemma Publish(p: Params, f: Format, levels: seq<bool>, v: CoreView, xs: seq<CoreIn>, n: nat)
    requires n < |xs| && f.Valid() && |levels| == f.Length()
    requires RunFrom(p, v, xs[..n]).rx == UartRx.RxView(UartRx.Finishing(f, levels), None)
    ensures RunFrom(p, v, xs[..n + 1]).rx == UartRx.RxView(UartRx.Hunting(false), Some(DecodeSamples(f, levels)))
  {
    RunFromPrefix(p, v, xs, n);
    hide DecodeSamples;
  }

  lemma {:induction false} TicksToMonotone(oversample: nat, m: nat, n: nat)
    requires m <= n
    ensures TicksTo(oversample, m) <= TicksTo(oversample, n)
  {
    MulMonotone(m, n, oversample);
  }

  lemma StillBehind(oversample: nat, f: Format, levels: seq<bool>, rx: UartRx.RxView, gained: int)
    requires oversample >= 1 && levels != [] && KeptCount(oversample, f, levels, rx, gained)
    ensures gained < TicksTo(oversample, |levels| - 1)
  {
    var m := |rx.phase.samples|;
    NextDue(oversample, if m > 0 then m - 1 else 0);
    TicksToMonotone(oversample, m, |levels| - 1);
    hide TicksTo;
  }

  /** While overflows are missing the character is not over. */
  lemma NotYet(modulus: nat, phase: nat, inc: nat, n: nat, k: nat, total: nat)
    requires 0 < modulus && n >= 4 && Gained(modulus, phase, inc, n) < k
    requires k * modulus <= (total - 1) * inc
    ensures n < total + 2
  {
    var base, travel := phase + 3 * inc, (n - 3) * inc;
    assert base == modulus * (base / modulus) + base % modulus;
    assert phase + n * inc == base + travel;
    Reach(modulus, base / modulus, base % modulus, k, base, travel, phase + n * inc);
    if n - 3 >= total - 1 {
      MulMonotone(total - 1, n - 3, inc);
    }
  }

  /** Sampling margin. From a waiting receiver in any generator phase, an external character with at least the
      corner margins is decoded exactly, error flags included: one record, the one its levels stand for,
      appears at most four clocks after the last bit period, and none before it. */
  lemma ExternalDecode(p: Params, cfg: Config, inc: nat, period: nat, levels: seq<bool>, v: CoreView, xs: seq<CoreIn>)
    returns (done: nat)
    requires period >= 1 && p.oversample >= 1 && inc < p.Modulus()
    requires |levels| * period + 4 <= |xs|
    requires Waiting(v) && External(p, cfg, inc, period, levels, xs)
    requires |levels| == Latch(cfg).Length() && !levels[0]
    requires Margin(p.Modulus(), inc, p.oversample, period, |levels|)
    ensures done <= |levels| * period + 4
    ensures RunFrom(p, v, xs[..done]).rx.out == Some(DecodeSamples(Latch(cfg), levels))
    ensures forall i :: 0 <= i < done ==> RunFrom(p, v, xs[..i]).rx.out.None?
  {
    MulMonotone(1, period, |levels|);
    Startup(p, cfg, inc, period, levels, v, xs, 4);
    assert levels[..0] == [];
    EndMargin(p.Modulus(), inc, p.oversample, period, |levels|);
    done := Delivery(p, cfg, inc, period, levels, v, xs, |levels| * period, 4);
    forall i | 0 <= i < 4
      ensures RunFrom(p, v, xs[..i]).rx.out.None?
    {
      Startup(p, cfg, inc, period, levels, v, xs, i);
    }
  }

  /** In particular a sender that shows the frame of a byte is received as that byte. */
  lemma ExternalByte(p: Params, cfg: Config, inc: nat, period: nat, data: Byte, v: CoreView, xs: seq<CoreIn>)
    returns (done: nat)
    requires period >= 1 && p.oversample >= 1 && inc < p.Modulus()
    requires Latch(cfg).Length() * period + 4 <= |xs|
    requires Waiting(v) && External(p, cfg, inc, period, Frame(Latch(cfg), data), xs)
    requires Margin(p.Modulus(), inc, p.oversample, period, Latch(cfg).Length())
    ensures done <= Latch(cfg).Length() * period + 4
    ensures RunFrom(p, v, xs[..done]).rx.out
         == Some(Record(Mask(data, DecodeDataBits(cfg.dataCode)), false, false, false))
    ensures forall i :: 0 <= i < done ==> RunFrom(p, v, xs[..i]).rx.out.None?
  {
    hide External, Margin, RunFrom, DecodeSamples;
    done := ExternalDecode(p, cfg, inc, period, Frame(Latch(cfg), data), v, xs);
    DecodeOfFrame(Latch(cfg), data);
  }
}
