/** The decoder cannot finish a character before the generator has given it the ticks: a lower bound on
    reception that needs no assumption about the line. */
module TickBudget {
  import opened UartFormat
  import opened UartCore
  import opened Arithmetic
  import opened SamplingMargin
  import BaudGen
  import UartRx

  /** Oversample ticks that the decoder has seen in a run. */
  function TicksSeen(p: Params, v: CoreView, xs: seq<CoreIn>): nat
    decreases |xs|
  {
    if xs == [] then 0
    else
      var ys := xs[..|xs| - 1];
      TicksSeen(p, v, ys) + if OsTick(p, RunFrom(p, v, ys)) then 1 else 0
  }

  /** Every format that is offered has at least the given length. */
  predicate LongFormats(xs: seq<CoreIn>, length: nat) {
    forall i :: 0 <= i < |xs| ==> Latch(xs[i].cfg).Length() >= length
  }

  /** Ticks spent on the samples taken so far and on the count towards the next. */
  function Spent(oversample: nat, phase: UartRx.Phase): nat
    requires phase.Sampling?
  {
    (if phase.samples == [] then 0 else TicksTo(oversample, |phase.samples| - 1)) + phase.count
  }

  /** Either enough ticks have been seen for a whole character, or no record has come and none is due. */
  ghost predicate OnBudget(oversample: nat, length: nat, rx: UartRx.RxView, seen: nat)
    requires length >= 1
  {
    || seen >= TicksTo(oversample, length - 1)
    || (rx.out.None? && !rx.phase.Finishing?
        && (rx.phase.Sampling? ==>
              && UartRx.Coherent(oversample, rx) && rx.phase.format.Length() >= length
              && Spent(oversample, rx.phase) <= seen))
  }

  lemma BudgetClock(oversample: nat, length: nat, rx: UartRx.RxView, x: UartRx.RxIn, seen: nat)
    requires oversample >= 1 && length >= 1 && OnBudget(oversample, length, rx, seen)
    requires Latch(x.cfg).Length() >= length
    ensures OnBudget(oversample, length, UartRx.Next(oversample, rx, x), if x.tick then seen + 1 else seen)
  {
    if seen < TicksTo(oversample, length - 1) && rx.phase.Sampling? {
      var m := |rx.phase.samples|;
      NextDue(oversample, if m > 0 then m - 1 else 0);
      UartRx.NextCoherent(oversample, rx, x);
      TicksToMonotone(oversample, length - 1, rx.phase.format.Length() - 1);
      hide TicksTo;
    }
  }

  lemma {:induction false} BudgetKept(p: Params, v: CoreView, xs: seq<CoreIn>, length: nat)
    requires p.oversample >= 1 && length >= 1 && LongFormats(xs, length)
    requires v.rx.phase.Hunting? && v.rx.out.None?
    ensures OnBudget(p.oversample, length, RunFrom(p, v, xs).rx, TicksSeen(p, v, xs))
    decreases |xs|
  {
    if xs != [] {
      var m := |xs| - 1;
      var ys := xs[..m];
      BudgetKept(p, v, ys, length);
      RunFromPrefix(p, v, xs, m);
      assert xs[..m + 1] == xs;
      var w := RunFrom(p, v, ys);
      BudgetClock(p.oversample, length, w.rx, RxInput(p, w, xs[m]), TicksSeen(p, v, ys));
      hide OnBudget, UartRx.Next, RunFrom, OsTick;
    }
  }

  /** No record while the ticks of a whole character are missing, whatever the line shows. */
  lemma NoRecordYet(p: Params, v: CoreView, xs: seq<CoreIn>, length: nat)
    requires p.oversample >= 1 && length >= 1 && LongFormats(xs, length)
    requires v.rx.phase.Hunting? && v.rx.out.None?
    requires TicksSeen(p, v, xs) < TicksTo(p.oversample, length - 1)
    ensures RunFrom(p, v, xs).rx.out.None?
  {
    BudgetKept(p, v, xs, length);
    hide RunFrom, TicksSeen, TicksTo;
  }

  // ---- How many ticks there can be ----

  lemma {:induction false} TickPerClock(p: Params, v: CoreView, xs: seq<CoreIn>)
    ensures TicksSeen(p, v, xs) <= |xs|
    decreases |xs|
  {
    if xs != [] {
      TickPerClock(p, v, xs[..|xs| - 1]);
    }
  }

  predicate FixedRate(xs: seq<CoreIn>, inc: nat) {
    forall i :: 0 <= i < |xs| ==> xs[i].enable && xs[i].baudInc == inc
  }

  /** What n clocks add to the phase. */
  function Travel(n: nat, inc: nat): nat {
    n * inc
  }

  lemma TravelNext(n: nat, inc: nat)
    ensures Travel(n + 1, inc) == Travel(n, inc) + inc && Travel(0, inc) == 0
  {
  }

  lemma OneCarry(m: nat, phase: nat, inc: nat)
    requires inc < m
    ensures BaudGen.Carries(m, phase + inc) >= BaudGen.Carries(m, phase)
    ensures BaudGen.Carries(m, phase + inc) != BaudGen.Carries(m, phase) ==>
              BaudGen.Carries(m, phase + inc) == BaudGen.Carries(m, phase) + 1
  {
    BaudGen.DivModStep(phase, m, inc);
  }

  /** The phase after a run at a fixed rate. */
  lemma {:induction false} PhaseAfter(p: Params, v: CoreView, xs: seq<CoreIn>, inc: nat)
    requires FixedRate(xs, inc)
    ensures RunFrom(p, v, xs).baud.phase == v.baud.phase + Travel(|xs|, inc)
    ensures xs != [] ==> RunFrom(p, v, xs).baud.prev == v.baud.phase + Travel(|xs| - 1, inc)
    decreases |xs|
  {
    if xs != [] {
      var m := |xs| - 1;
      PhaseAfter(p, v, xs[..m], inc);
      RunFromPrefix(p, v, xs, m);
      assert xs[..m + 1] == xs && xs[m].enable && xs[m].baudInc == inc;
      TravelNext(m, inc);
      hide Travel, UartRx.Next, RunFrom, FixedRate;
    } else {
      TravelNext(0, inc);
    }
  }

  /** Ticks are overflows of the phase, but for the one that may be up at the start. */
  lemma {:induction false} TicksAreCarries(p: Params, v: CoreView, xs: seq<CoreIn>, inc: nat)
    requires FixedRate(xs, inc) && inc < p.Modulus() && xs != []
    ensures var base, n := v.baud.phase, |xs|;
            TicksSeen(p, v, xs)
              <= 1 + BaudGen.Carries(p.Modulus(), base + Travel(n - 1, inc)) - BaudGen.Carries(p.Modulus(), base)
    decreases |xs|
  {
    var m := |xs| - 1;
    TravelNext(0, inc);
    if m > 0 {
      TicksAreCarries(p, v, xs[..m], inc);
      PhaseAfter(p, v, xs[..m], inc);
      TravelNext(m - 1, inc);
      hide RunFrom, FixedRate, Travel, Params.Modulus;
      OneCarry(p.Modulus(), v.baud.phase + Travel(m - 1, inc), inc);
      hide BaudGen.Carries;
    } else {
      assert xs[..0] == [];
      assert TicksSeen(p, v, xs[..0]) == 0;
    }
  }

  lemma SumOfQuotients(m: int, a: int, b: int, r: int, s: int)
    ensures (m * a + r) + (m * b + s) == m * (a + b) + (r + s)
    ensures m * (a + b + 1) == m * (a + b) + m
  {
  }

  /** The carries between two phases. */
  lemma CarriesBetween(m: nat, phase: nat, travel: nat)
    requires m >= 1
    ensures (phase + travel) / m <= phase / m + travel / m + 1
  {
    TwoParts(m, phase / m, phase % m, travel / m, travel % m, phase, travel);
  }

  lemma TwoParts(m: nat, a: nat, r: nat, b: nat, s: nat, x: nat, y: nat)
    requires x == m * a + r && y == m * b + s && r < m && s < m
    ensures (x + y) / m <= a + b + 1
  {
    SumOfQuotients(m, a, b, r, s);
    NextQuotient(m, a + b, r + s, x + y);
  }

  lemma NextQuotient(m: nat, q: nat, r: nat, x: nat)
    requires m >= 1 && x == m * q + r && r < 2 * m
    ensures x / m <= q + 1
  {
    if r < m {
      BaudGen.DivModUnique(x, m, q, r);
    } else {
      SumOfQuotients(m, q, 0, 0, 0);
      BaudGen.DivModUnique(x, m, q + 1, r - m);
    }
  }

  lemma DivMonotone(a: nat, b: nat, m: nat)
    requires a <= b && m >= 1
    ensures a / m <= b / m
  {
    var q, r := a / m, b / m;
    if r < q {
      BaudGen.MulGap(m, r, q);
    }
  }

  lemma TickBound(p: Params, v: CoreView, xs: seq<CoreIn>, inc: nat)
    requires FixedRate(xs, inc) && inc < p.Modulus()
    ensures TicksSeen(p, v, xs) <= 2 + Travel(|xs|, inc) / p.Modulus()
  {
    hide TicksSeen, FixedRate, RunFrom, Params.Modulus;
    if xs != [] {
      var n, m := |xs| - 1, p.Modulus();
      TicksAreCarries(p, v, xs, inc);
      CarriesBetween(m, v.baud.phase, Travel(n, inc));
      TravelNext(n, inc);
      hide Travel;
      DivMonotone(Travel(n, inc), Travel(n + 1, inc), m);
    } else {
      TickPerClock(p, v, xs);
    }
  }
}
