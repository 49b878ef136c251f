/** The baud arithmetic of the testbench: rounded increment and rounded clocks per bit, and why an external
    sender built from them stays inside the receiver's sampling margin. */
module BaudPlan {
  import SamplingMargin
  import TickBudget
  import ExternalStream
  import UartRx
  import UartCore
  import BaudGen
  import opened UartFormat
  import opened Arithmetic

  const CLK_HZ: nat := 100_000_000
  const OVERSAMPLE: nat := 16
  const BAUD_INC_SCALE: nat := 0x1_0000_0000
  const TWO_TO_32: nat := 0x1_0000_0000
  const TWO_TO_64: nat := 0x1_0000_0000_0000_0000

  /** `tc_calc_baud_inc`, with the wrap-around of its 64-bit product and sum and the 32-bit result. */
  function CalcBaudInc(baudRate: nat): (inc: nat)
    ensures inc < TWO_TO_32
  {
    var num := baudRate * OVERSAMPLE * BAUD_INC_SCALE % TWO_TO_64;
    (num + CLK_HZ / 2) % TWO_TO_64 / CLK_HZ % TWO_TO_32
  }

  /** `bit_clks` of `tc_uart_params_for`. */
  function BitClks(baudRate: nat): nat
    requires baudRate > 0
  {
    (CLK_HZ + baudRate / 2) / baudRate % TWO_TO_32
  }

  lemma DivBounds(a: nat, b: nat)
    requires b > 0
    ensures var q := a / b; q * b <= a < q * b + b
  {
    assert a == b * (a / b) + a % b;
  }

  lemma SmallMod(a: nat, m: nat)
    requires a < m
    ensures a % m == a
  {
  }

  /** The bit period before its cast; the cast changes nothing. */
  lemma PeriodValue(baudRate: nat)
    requires 0 < baudRate
    ensures var p := BitClks(baudRate);
            p * baudRate <= CLK_HZ + baudRate / 2 < p * baudRate + baudRate && p <= CLK_HZ
  {
    var q := (CLK_HZ + baudRate / 2) / baudRate;
    DivBounds(CLK_HZ + baudRate / 2, baudRate);
    if q > CLK_HZ {
      MulMonotone(CLK_HZ + 1, q, baudRate);
      MulMonotone(1, baudRate, CLK_HZ);
    }
    SmallMod(q, TWO_TO_32);
  }

  /** Rounding error of the bit period: at most half a clock. */
  lemma PeriodBounds(baudRate: nat)
    requires 0 < baudRate
    ensures var p := BitClks(baudRate); (2 * p - 1) * baudRate <= 2 * CLK_HZ <= (2 * p + 1) * baudRate
  {
    var p := BitClks(baudRate);
    PeriodValue(baudRate);
    assert (2 * p - 1) * baudRate == 2 * (p * baudRate) - baudRate;
    assert (2 * p + 1) * baudRate == 2 * (p * baudRate) + baudRate;
  }

  /** The increment before its cast, for baud rates whose product fits 64 bits. */
  function WideInc(baudRate: nat): nat {
    (16 * TWO_TO_32 * baudRate + CLK_HZ / 2) / CLK_HZ
  }

  /** The 64-bit product wraps around: baud rates 2^28 apart get the same increment. */
  lemma IncrementRepeats(baudRate: nat)
    ensures CalcBaudInc(baudRate + 0x1000_0000) == CalcBaudInc(baudRate)
  {
    var a := baudRate * OVERSAMPLE * BAUD_INC_SCALE;
    assert (baudRate + 0x1000_0000) * OVERSAMPLE * BAUD_INC_SCALE == a + TWO_TO_64;
    assert (a + TWO_TO_64) % TWO_TO_64 == a % TWO_TO_64;
  }

  lemma IncrementValue(baudRate: nat)
    requires baudRate <= 100_000_000
    ensures CalcBaudInc(baudRate) == WideInc(baudRate) % TWO_TO_32
    ensures 2 * WideInc(baudRate) * CLK_HZ <= 32 * TWO_TO_32 * baudRate + CLK_HZ
    ensures 32 * TWO_TO_32 * baudRate - CLK_HZ < 2 * WideInc(baudRate) * CLK_HZ
  {
    var num := 16 * TWO_TO_32 * baudRate;
    assert baudRate * OVERSAMPLE * BAUD_INC_SCALE == num;
    SmallMod(num, TWO_TO_64);
    SmallMod(num + CLK_HZ / 2, TWO_TO_64);
    DivBounds(num + CLK_HZ / 2, CLK_HZ);
  }

  /** Twice the clocks to spare, against the worst rounding. */
  predicate Slack(p: int, n: int, g: int) {
    14 * (16 * p - 16 * n - 32 * g + 8) >= 8 * p
  }

  /** The margin for "not late by g clocks": bit periods are long enough. `c` is the clock, `a` the baud rate. */
  lemma NotLate(a: nat, c: nat, m: nat, p: nat, inc: nat, n: nat, g: nat)
    requires 14 <= p <= 100_000_000 && 1 <= n <= 12 && 1 <= g <= p && Slack(p, n, g) && c > 0 && m == TWO_TO_32
    requires 2 * c <= (2 * p + 1) * a
    requires 32 * m * a - c <= 2 * inc * c
    ensures (16 * n - 8) * m <= (n * p - g) * inc
  {
    LateProduct(a, c, m, p, inc, n, g);
    Cancel(2 * c, (16 * n - 8) * m, (n * p - g) * inc);
  }

  lemma LateHeadroom(a: nat, c: nat, m: nat, p: nat, n: nat, g: nat)
    requires 14 <= p <= 100_000_000 && 1 <= n <= 12 && 1 <= g <= p && Slack(p, n, g) && m == TWO_TO_32
    requires 2 * c <= (2 * p + 1) * a
    ensures c * (n * p - g) <= (16 * p - 16 * n - 32 * g + 8) * (m * a)
  {
    Headroom(a, c, m, p, 16 * p - 16 * n - 32 * g + 8, n * p - g, n);
  }

  /** 2c * lp * inc >= lp * (32ma - c) >= (16n - 8) * m * 2c, where lp is n * p - g. */
  lemma LateProduct(a: nat, c: nat, m: nat, p: nat, inc: nat, n: nat, g: nat)
    requires 14 <= p <= 100_000_000 && 1 <= n <= 12 && 1 <= g <= p && Slack(p, n, g) && c > 0 && m == TWO_TO_32
    requires 2 * c <= (2 * p + 1) * a
    requires 32 * m * a - c <= 2 * inc * c
    ensures 2 * c * ((16 * n - 8) * m) <= 2 * c * ((n * p - g) * inc)
  {
    LateHeadroom(a, c, m, p, n, g);
    LateIncrement(a, c, m, p, inc, n, g);
    ScalePeriod(2 * p + 1, a, 2 * c, 16 * n - 8, m);
    Expand(n, p, g, m * a);
  }

  lemma LateIncrement(a: nat, c: nat, m: nat, p: nat, inc: nat, n: nat, g: nat)
    requires 1 <= n && g <= p && 32 * m * a - c <= 2 * inc * c
    ensures 32 * (m * a) * (n * p - g) - c * (n * p - g) <= 2 * c * ((n * p - g) * inc)
  {
    MulMonotone(1, n, p);
    ScaleIncrement(inc, c, m * a, n * p - g);
  }

  /** The increment bound, multiplied up by a number of clocks. */
  lemma ScaleIncrement(inc: int, c: int, ma: int, lp: int)
    requires lp >= 0
    ensures 2 * inc * c <= 32 * ma + c ==> 2 * c * (lp * inc) <= 32 * ma * lp + c * lp
    ensures 32 * ma - c <= 2 * inc * c ==> 32 * ma * lp - c * lp <= 2 * c * (lp * inc)
  {
    assert (2 * inc * c) * lp == 2 * c * (lp * inc);
    assert (32 * ma + c) * lp == 32 * ma * lp + c * lp;
    assert (32 * ma - c) * lp == 32 * ma * lp - c * lp;
    if 2 * inc * c <= 32 * ma + c {
      MulMonotone(2 * inc * c, 32 * ma + c, lp);
    }
    if 32 * ma - c <= 2 * inc * c {
      MulMonotone(32 * ma - c, 2 * inc * c, lp);
    }
  }

  /** The period bound, multiplied up by a number of overflows. */
  lemma ScalePeriod(x: int, a: int, cc: int, k: int, m: int)
    requires k >= 0 && m >= 0
    ensures cc <= x * a ==> cc * (k * m) <= x * k * (m * a)
    ensures x * a <= cc ==> x * k * (m * a) <= cc * (k * m)
  {
    assert k * m >= 0;
    assert (x * a) * (k * m) == x * k * (m * a);
    if cc <= x * a {
      MulMonotone(cc, x * a, k * m);
    }
    if x * a <= cc {
      MulMonotone(x * a, cc, k * m);
    }
  }

  lemma Expand(n: int, p: int, g: int, ma: int)
    ensures 32 * ma * (n * p - g) - (2 * p + 1) * (16 * n - 8) * ma == (16 * p - 16 * n - 32 * g + 8) * ma
  {
    assert (2 * p + 1) * (16 * n - 8) == 32 * (n * p) - 16 * p + 16 * n - 8;
    assert 32 * ma * (n * p - g) == (32 * (n * p) - 32 * g) * ma;
  }

  lemma Cancel(c: int, a: int, b: int)
    requires c > 0 && c * a <= c * b
    ensures a <= b
  {
    if b + 1 <= a {
      MulMonotone(b + 1, a, c);
    }
  }

  /** The rounding of the increment is negligible against any slack that grows with the period. */
  lemma Headroom(a: nat, c: nat, m: nat, p: nat, slack: int, lp: int, n: nat)
    requires 14 <= p <= 100_000_000 && n <= 12 && m == TWO_TO_32
    requires 2 * c <= (2 * p + 1) * a
    requires 14 * slack >= 8 * p && lp <= n * p
    ensures c * lp <= slack * (m * a)
  {
    MulMonotone(n, 12, p);
    MulMonotone(lp, 12 * p, c);
    assert c * lp <= 12 * p * c;
    MulMonotone(2 * c, (2 * p + 1) * a, 6 * p);
    assert 2 * c * (6 * p) == 12 * p * c;
    MulMonotone(2 * p + 1, 200_000_001, 6 * p * a);
    assert (2 * p + 1) * a * (6 * p) == (2 * p + 1) * (6 * p * a);
    MulMonotone(8 * p, 14 * slack, m * a);
    assert 8 * p * (m * a) == 8 * m * (p * a);
    assert 14 * slack * (m * a) == 14 * (slack * (m * a));
    assert 6 * p * a == 6 * (p * a);
    assert p * a >= 0;
  }

  /** The margin for "not early": bit periods are short enough. */
  lemma NotEarly(a: nat, c: nat, m: nat, p: nat, inc: nat, n: nat)
    requires 14 <= p <= 100_000_000 && n <= 11 && c > 0 && m == TWO_TO_32
    requires (2 * p - 1) * a <= 2 * c <= (2 * p + 1) * a
    requires 2 * inc * c <= 32 * m * a + c
    ensures (n * p - 1) * inc <= (16 * n + 7) * m
  {
    if n >= 1 {
      var slack := 14 * p - 16 * n + 25;
      var lp := n * p - 1;
      Headroom(a, c, m, p, slack, lp, n);
      MulMonotone(1, n, p);
      ScaleIncrement(inc, c, m * a, lp);
      var k := 16 * n + 7;
      ScalePeriod(2 * p - 1, a, 2 * c, k, m);
      ExpandEarly(n, p, m * a);
      assert 2 * c * (lp * inc) <= 2 * c * (k * m);
      Cancel(2 * c, lp * inc, k * m);
    }
  }

  lemma ExpandEarly(n: int, p: int, ma: int)
    ensures (2 * p - 1) * (16 * n + 7) * ma - 32 * ma * (n * p - 1) == (14 * p - 16 * n + 25) * ma
  {
    assert (2 * p - 1) * (16 * n + 7) == 32 * (n * p) + 14 * p - 16 * n - 7;
    assert 32 * ma * (n * p - 1) == (32 * (n * p) - 32) * ma;
  }

  /** Below one oversample tick per clock the plan keeps the margin of every format. */
  lemma PlannedMargin(baudRate: nat, length: nat)
    requires 0 < baudRate && OVERSAMPLE * baudRate < CLK_HZ && 1 <= length <= 12
    ensures SamplingMargin.Margin(TWO_TO_32, CalcBaudInc(baudRate), OVERSAMPLE, BitClks(baudRate), length)
  {
    var p, inc := BitClks(baudRate), CalcBaudInc(baudRate);
    PeriodValue(baudRate);
    PeriodBounds(baudRate);
    IncrementValue(baudRate);
    SmallMod(WideInc(baudRate), TWO_TO_32);
    if p < 14 {
      MulMonotone(p, 13, baudRate);
    }
    hide CalcBaudInc, BitClks, WideInc;
    NotLate(baudRate, CLK_HZ, TWO_TO_32, p, inc, 1, 1);
    NotLate(baudRate, CLK_HZ, TWO_TO_32, p, inc, length, 1);
    NotEarly(baudRate, CLK_HZ, TWO_TO_32, p, inc, length - 1);
  }

  /** From 19 clocks per bit on, the plan also keeps the margin for streams of characters. */
  lemma PlannedStream(baudRate: nat, length: nat)
    requires 0 < baudRate && BitClks(baudRate) >= 19 && 1 <= length <= 12
    ensures ExternalStream.StreamMargin(TWO_TO_32, CalcBaudInc(baudRate), OVERSAMPLE, BitClks(baudRate), length)
  {
    var p, inc := BitClks(baudRate), CalcBaudInc(baudRate);
    LeastPeriod(baudRate);
    PlannedMargin(baudRate, length);
    PeriodValue(baudRate);
    PeriodBounds(baudRate);
    MulMonotone(19, p, baudRate);
    IncrementValue(baudRate);
    SmallMod(WideInc(baudRate), TWO_TO_32);
    MulMonotone(1, length, p);
    hide CalcBaudInc, BitClks, WideInc, SamplingMargin.Margin;
    NotLate(baudRate, CLK_HZ, TWO_TO_32, p, inc, length, 3);
  }

  /** From one oversample tick per clock on, the longest frame has no margin: either a bit is too short, or the
      increment has wrapped around in its 32-bit cast. */
  lemma PlanFails(baudRate: nat)
    requires CLK_HZ <= OVERSAMPLE * baudRate
    ensures !SamplingMargin.Margin(TWO_TO_32, CalcBaudInc(baudRate), OVERSAMPLE, BitClks(baudRate), 12)
  {
    var p: int := BitClks(baudRate);
    var inc: int := CalcBaudInc(baudRate);
    PeriodValue(baudRate);
    if p <= 15 {
      MulMonotone(12 * p - 1, 179, inc);
    } else {
      MulMonotone(16, p, baudRate);
      IncrementValue(baudRate);
      var wide := WideInc(baudRate);
      assert wide % TWO_TO_32 == wide - TWO_TO_32 by {
        BaudGen.DivModUnique(wide, TWO_TO_32, 1, wide - TWO_TO_32);
      }
      if p >= 17 {
        MulMonotone(17, p, baudRate);
      }
    }
  }

  /** The plan keeps the margin of the longest frame for exactly the baud rates below a sixteenth of the clock. */
  lemma PlanExact(baudRate: nat)
    requires 0 < baudRate
    ensures SamplingMargin.Margin(TWO_TO_32, CalcBaudInc(baudRate), OVERSAMPLE, BitClks(baudRate), 12)
       <==> OVERSAMPLE * baudRate < CLK_HZ
  {
    if OVERSAMPLE * baudRate < CLK_HZ {
      PlannedMargin(baudRate, 12);
    } else {
      PlanFails(baudRate);
    }
  }

  /** In clocks per bit: from 17 on every plan is sound. Sixteen is not enough: at exactly 6.25 MBd the cast
      turns the increment into 0; see SilentAtSixteenth. */
  lemma LeastPeriod(baudRate: nat)
    requires 0 < baudRate
    ensures BitClks(baudRate) >= 17 ==> OVERSAMPLE * baudRate < CLK_HZ
    ensures BitClks(6_250_000) == 16 && CalcBaudInc(6_250_000) == 0
  {
    PeriodValue(baudRate);
    hide BitClks, CalcBaudInc;
    if BitClks(baudRate) >= 17 {
      MulMonotone(17, BitClks(baudRate), baudRate);
    }
    WrappedPlan();
  }

  lemma WrappedPlan()
    ensures BitClks(6_250_000) == 16 && CalcBaudInc(6_250_000) == 0
  {
    PeriodValue(6_250_000);
    IncrementValue(6_250_000);
  }

  lemma AccumulatorModulus(p: UartCore.Params)
    requires p.accWidth == 32
    ensures p.Modulus() == TWO_TO_32
  {
    Pow2Of32();
  }

  /** The whole path: below a sixteenth of the clock, a byte that a testbench agent sends with the planned bit
      period to a core running on the planned increment is decoded as sent, whatever the format and the phase of
      the baud generator. */
  lemma PlannedByte(baudRate: nat, p: UartCore.Params, cfg: Config, data: Byte, v: UartCore.CoreView,
                    xs: seq<UartCore.CoreIn>)
    returns (done: nat)
    requires 0 < baudRate && OVERSAMPLE * baudRate < CLK_HZ
    requires p.accWidth == 32 && p.oversample == OVERSAMPLE && SamplingMargin.Waiting(v)
    requires BitClks(baudRate) >= 1 && Latch(cfg).Length() * BitClks(baudRate) + 4 <= |xs|
    requires SamplingMargin.External(p, cfg, CalcBaudInc(baudRate), BitClks(baudRate), Frame(Latch(cfg), data), xs)
    ensures done <= Latch(cfg).Length() * BitClks(baudRate) + 4
    ensures SamplingMargin.RunFrom(p, v, xs[..done]).rx.out
         == Some(Record(Mask(data, DecodeDataBits(cfg.dataCode)), false, false, false))
    ensures forall i :: 0 <= i < done ==> SamplingMargin.RunFrom(p, v, xs[..i]).rx.out.None?
  {
    hide CalcBaudInc, BitClks, SamplingMargin.External, SamplingMargin.Margin, SamplingMargin.RunFrom, Frame;
    AccumulatorModulus(p);
    PlannedMargin(baudRate, Latch(cfg).Length());
    done := SamplingMargin.ExternalByte(p, cfg, CalcBaudInc(baudRate), BitClks(baudRate), data, v, xs);
  }

  // ---- From a sixteenth of the clock on ----

  /** With 15 or more clocks per bit the wrapped increment gives a tick in every fifth clock at most. */
  lemma FewTicks(baudRate: nat)
    requires CLK_HZ <= OVERSAMPLE * baudRate && BitClks(baudRate) >= 15
    ensures 5 * CalcBaudInc(baudRate) <= TWO_TO_32 && BitClks(baudRate) <= 16
  {
    var p := BitClks(baudRate);
    PeriodValue(baudRate);
    PeriodBounds(baudRate);
    MulMonotone(29, 2 * p - 1, baudRate);
    if p >= 17 {
      MulMonotone(17, p, baudRate);
    }
    hide BitClks;
    assert baudRate <= 6_900_000;
    IncrementValue(baudRate);
    hide CalcBaudInc;
    var wide := WideInc(baudRate);
    hide WideInc;
    BaudGen.DivModUnique(wide, TWO_TO_32, 1, wide - TWO_TO_32);
  }

  lemma FifthOfTheClocks(n: nat, inc: nat)
    requires 5 * inc <= TWO_TO_32 && n <= 200
    ensures TickBudget.Travel(n, inc) / TWO_TO_32 <= 40
  {
    MulMonotone(n, 200, inc);
  }

  /** Not enough ticks for a character by the deadline. */
  lemma TooFewTicks(baudRate: nat, p: UartCore.Params, length: nat, v: UartCore.CoreView, xs: seq<UartCore.CoreIn>)
    requires CLK_HZ <= OVERSAMPLE * baudRate && p.accWidth == 32 && 7 <= length <= 12
    requires TickBudget.FixedRate(xs, CalcBaudInc(baudRate)) && |xs| <= length * BitClks(baudRate) + 4
    ensures TickBudget.TicksSeen(p, v, xs) < SamplingMargin.TicksTo(OVERSAMPLE, length - 1)
  {
    hide CalcBaudInc, BitClks, TickBudget.TicksSeen, TickBudget.FixedRate;
    var period, inc := BitClks(baudRate), CalcBaudInc(baudRate);
    if period <= 14 {
      TickBudget.TickPerClock(p, v, xs);
      MulMonotone(period, 14, length);
    } else {
      FewTicks(baudRate);
      MulMonotone(period, 16, length);
      AccumulatorModulus(p);
      TickBudget.TickBound(p, v, xs, inc);
      FifthOfTheClocks(|xs|, inc);
    }
  }

  lemma FormatLength(cfg: Config)
    ensures 7 <= Latch(cfg).Length() <= 12
  {
  }

  /** From a sixteenth of the clock on, no planned byte is received by its deadline, in any format and phase. */
  lemma PlannedByteLost(baudRate: nat, p: UartCore.Params, cfg: Config, data: Byte, v: UartCore.CoreView,
                        xs: seq<UartCore.CoreIn>)
    requires CLK_HZ <= OVERSAMPLE * baudRate && BitClks(baudRate) >= 1
    requires p.accWidth == 32 && p.oversample == OVERSAMPLE && SamplingMargin.Waiting(v)
    requires SamplingMargin.External(p, cfg, CalcBaudInc(baudRate), BitClks(baudRate), Frame(Latch(cfg), data), xs)
    requires |xs| <= Latch(cfg).Length() * BitClks(baudRate) + 4
    ensures SamplingMargin.RunFrom(p, v, xs).rx.out.None?
  {
    hide CalcBaudInc, BitClks, SamplingMargin.RunFrom, Frame;
    FormatLength(cfg);
    assert TickBudget.FixedRate(xs, CalcBaudInc(baudRate)) && TickBudget.LongFormats(xs, Latch(cfg).Length());
    hide SamplingMargin.External, TickBudget.FixedRate, TickBudget.LongFormats, Latch;
    TooFewTicks(baudRate, p, Latch(cfg).Length(), v, xs);
    TickBudget.NoRecordYet(p, v, xs, Latch(cfg).Length());
  }

  /** The record of the byte comes within four clocks of its last bit. */
  ghost predicate InTime(p: UartCore.Params, cfg: Config, period: nat, data: Byte, v: UartCore.CoreView,
                         xs: seq<UartCore.CoreIn>)
  {
    exists done: nat ::
      && done <= |xs| && done <= Latch(cfg).Length() * period + 4
      && SamplingMargin.RunFrom(p, v, xs[..done]).rx.out
         == Some(Record(Mask(data, DecodeDataBits(cfg.dataCode)), false, false, false))
  }

  /** The testbench's baud plan is sound for exactly the baud rates below a sixteenth of the clock: in every
      format and phase, a byte sent with the planned period to a core on the planned increment is received in
      time if and only if OVERSAMPLE * baudRate < CLK_HZ. */
  lemma PlannedByteExact(baudRate: nat, p: UartCore.Params, cfg: Config, data: Byte, v: UartCore.CoreView,
                         xs: seq<UartCore.CoreIn>)
    requires 0 < baudRate && BitClks(baudRate) >= 1
    requires p.accWidth == 32 && p.oversample == OVERSAMPLE && SamplingMargin.Waiting(v)
    requires Latch(cfg).Length() * BitClks(baudRate) + 4 <= |xs|
    requires SamplingMargin.External(p, cfg, CalcBaudInc(baudRate), BitClks(baudRate), Frame(Latch(cfg), data), xs)
    ensures InTime(p, cfg, BitClks(baudRate), data, v, xs) <==> OVERSAMPLE * baudRate < CLK_HZ
    ensures InTime(p, cfg, BitClks(baudRate), data, v, xs)
       <==> SamplingMargin.Margin(TWO_TO_32, CalcBaudInc(baudRate), OVERSAMPLE, BitClks(baudRate), 12)
  {
    hide CalcBaudInc, BitClks, SamplingMargin.RunFrom, Frame, SamplingMargin.External, SamplingMargin.Margin;
    PlanExact(baudRate);
    var period := BitClks(baudRate);
    if OVERSAMPLE * baudRate < CLK_HZ {
      var done := PlannedByte(baudRate, p, cfg, data, v, xs);
    } else {
      forall done: nat | done <= |xs| && done <= Latch(cfg).Length() * period + 4
        ensures SamplingMargin.RunFrom(p, v, xs[..done]).rx.out.None?
      {
        ExternalPrefix(p, cfg, CalcBaudInc(baudRate), period, Frame(Latch(cfg), data), xs, done);
        PlannedByteLost(baudRate, p, cfg, data, v, xs[..done]);
      }
    }
  }

  lemma ExternalPrefix(p: UartCore.Params, cfg: Config, inc: nat, period: nat, levels: seq<bool>,
                       xs: seq<UartCore.CoreIn>, n: nat)
    requires period >= 1 && n <= |xs| && SamplingMargin.External(p, cfg, inc, period, levels, xs)
    ensures SamplingMargin.External(p, cfg, inc, period, levels, xs[..n])
  {
  }

  /** At exactly 6.25 MBd nothing is ever received, whatever the line shows and however long one waits. */
  lemma SilentAtSixteenth(p: UartCore.Params, v: UartCore.CoreView, xs: seq<UartCore.CoreIn>)
    requires p.accWidth == 32 && p.oversample == OVERSAMPLE && SamplingMargin.Waiting(v)
    requires TickBudget.FixedRate(xs, CalcBaudInc(6_250_000))
    ensures SamplingMargin.RunFrom(p, v, xs).rx.out.None?
  {
    hide CalcBaudInc, SamplingMargin.RunFrom, TickBudget.FixedRate, TickBudget.TicksSeen;
    WrappedPlan();
    AccumulatorModulus(p);
    TickBudget.TickBound(p, v, xs, 0);
    assert TickBudget.Travel(|xs|, 0) == 0;
    assert TickBudget.LongFormats(xs, 7) by {
      forall i | 0 <= i < |xs|
        ensures Latch(xs[i].cfg).Length() >= 7
      {
        FormatLength(xs[i].cfg);
      }
    }
    TickBudget.NoRecordYet(p, v, xs, 7);
  }
}
