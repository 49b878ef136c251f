/** uart_baud_gen.sv: the fractional (NCO) baud generator. */
module BaudGen {
  import opened Arithmetic

  /** The generator seen as a clock face: `phase` is the sum of all increments since it was last idle,
      `prev` the same sum one clock earlier. */
  datatype BaudView = BaudView(prev: nat, phase: nat)

  /** Whole accumulator overflows in a phase. */
  function Carries(modulus: nat, phase: nat): nat
    requires modulus >= 1
  {
    phase / modulus
  }

  predicate OsTick(modulus: nat, v: BaudView)
    requires modulus >= 1
  {
    Carries(modulus, v.phase) != Carries(modulus, v.prev)
  }

  /** A baud tick is an oversample tick on which the running count of overflows is a multiple of the ratio. */
  predicate BaudTick(modulus: nat, ratio: nat, v: BaudView)
    requires modulus >= 1 && ratio >= 1
  {
    OsTick(modulus, v) && Carries(modulus, v.phase) % ratio == 0
  }

  function Next(v: BaudView, enable: bool, inc: nat): BaudView {
    if enable then BaudView(v.phase, v.phase + inc) else BaudView(0, 0)
  }

  const RESET := BaudView(0, 0)

  /** OVERSAMPLE of 0 or 1 both mean one overflow per bit. */
  function Ratio(oversample: nat): (r: nat)
    ensures r >= 1
  {
    if oversample <= 1 then 1 else oversample
  }

  lemma DivModStep(a: nat, m: nat, inc: nat)
    requires m >= 1 && inc < m
    ensures (a + inc) / m == a / m + (if a % m + inc >= m then 1 else 0)
    ensures (a + inc) % m == (a % m + inc) % m
    ensures (a % m + inc) % m == if a % m + inc >= m then a % m + inc - m else a % m + inc
  {
    var q, r := a / m, a % m;
    assert a == m * q + r;
    if r + inc >= m {
      assert a + inc == m * (q + 1) + (r + inc - m);
      DivModUnique(a + inc, m, q + 1, r + inc - m);
      DivModUnique(r + inc, m, 1, r + inc - m);
    } else {
      DivModUnique(a + inc, m, q, r + inc);
      DivModUnique(r + inc, m, 0, r + inc);
    }
  }

  lemma DivModUnique(a: nat, m: nat, q: nat, r: nat)
    requires r < m && a == m * q + r
    ensures a / m == q && a % m == r
  {
    var q', r' := a / m, a % m;
    assert a == m * q' + r';
    if q' < q {
      MulGap(m, q', q);
      assert false;
    } else if q < q' {
      MulGap(m, q, q');
      assert false;
    }
  }

  lemma MulGap(m: nat, a: nat, b: nat)
    requires a < b
    ensures m * a + m <= m * b
  {
    MulMonotone(a + 1, b, m);
    assert (a + 1) * m == m * a + m;
  }

  /** The running overflow count modulo the ratio: what `oversample_count_q` holds. */
  function Slot(modulus: nat, ratio: nat, v: BaudView): nat
    requires modulus >= 1 && ratio >= 1
  {
    Carries(modulus, v.phase) % ratio
  }

  /** An enabled clock moves the slot on by one exactly on an oversample tick. */
  lemma SlotStep(modulus: nat, ratio: nat, v: BaudView, inc: nat)
    requires inc < modulus && ratio >= 1
    ensures var w := Next(v, true, inc);
            var s := Slot(modulus, ratio, v);
            && Slot(modulus, ratio, w) == (if !OsTick(modulus, w) then s else if s + 1 == ratio then 0 else s + 1)
            && BaudTick(modulus, ratio, v) == (OsTick(modulus, v) && s == 0)
  {
    DivModStep(v.phase, modulus, inc);
    CountStep(Carries(modulus, v.phase), ratio);
  }

  /** What one enabled clock does to the residue, the overflows and their running count. */
  lemma ClockFacts(m: nat, ratio: nat, phase: nat, inc: nat)
    requires inc < m && ratio >= 1
    ensures var carry := phase % m + inc >= m;
            var c := Carries(m, phase);
            && (phase % m + inc) % m == (phase + inc) % m
            && Carries(m, phase + inc) == (if carry then c + 1 else c)
            && (c + 1) % ratio == (if c % ratio == ratio - 1 then 0 else c % ratio + 1)
  {
    DivModStep(phase, m, inc);
    CountStep(Carries(m, phase), ratio);
  }

  class BaudGenerator {
    const accWidth: nat
    const oversample: nat
    var baudAcc: nat
    var oversampleCount: nat
    var oversampleTick: bool
    var baudTick: bool
    ghost var prev: nat
    ghost var phase: nat

    ghost function View(): BaudView
      reads this
    {
      BaudView(prev, phase)
    }

    /** The registers are the residues of the exact phase, so no error ever accumulates in them. */
    ghost predicate Valid()
      reads this
    {
      var m := Pow2(accWidth);
      && baudAcc == phase % m
      && oversampleCount == Carries(m, phase) % Ratio(oversample)
      && oversampleTick == OsTick(m, View())
      && baudTick == BaudTick(m, Ratio(oversample), View())
      && (prev == phase || prev <= phase < prev + m)
    }

    constructor (accWidth: nat, oversample: nat)
      ensures Valid() && View() == RESET
      ensures this.accWidth == accWidth && this.oversample == oversample
    {
      this.accWidth, this.oversample := accWidth, oversample;
      baudAcc, oversampleCount, oversampleTick, baudTick := 0, 0, false, false;
      prev, phase := 0, 0;
      new;
      DivModUnique(0, Pow2(accWidth), 0, 0);
      DivModUnique(0, Ratio(oversample), 0, 0);
    }

    function OversampleTickOut(): (r: bool)
      requires Valid()
      reads this
      ensures r == OsTick(Pow2(accWidth), View())
    {
      oversampleTick
    }

    function BaudTickOut(): (r: bool)
      requires Valid()
      reads this
      ensures r == BaudTick(Pow2(accWidth), Ratio(oversample), View())
    {
      baudTick
    }

    method Step(enable: bool, inc: nat)
      requires Valid() && inc < Pow2(accWidth)
      modifies this
      ensures Valid() && View() == Next(old(View()), enable, inc)
    {
      hide Pow2;
      var modulus := Pow2(accWidth);
      var osLast := if oversample <= 1 then 0 else oversample - 1;
      var baudSum := baudAcc + inc;
      oversampleTick, baudTick := false, false;
      if !enable {
        baudAcc, oversampleCount := 0, 0;
        prev, phase := 0, 0;
      } else {
        ClockFacts(modulus, Ratio(oversample), phase, inc);
        hide Carries;
        baudAcc := baudSum % modulus;
        if baudSum >= modulus {
          oversampleTick := true;
          if oversampleCount == osLast {
            oversampleCount := 0;
            baudTick := true;
          } else {
            oversampleCount := oversampleCount + 1;
          }
        }
        prev, phase := phase, phase + inc;
      }
    }
  }

  lemma CountStep(c: nat, ratio: nat)
    requires ratio >= 1
    ensures (c + 1) % ratio == if c % ratio == ratio - 1 then 0 else c % ratio + 1
  {
    if ratio == 1 {
      DivModUnique(c + 1, 1, c + 1, 0);
    } else {
      DivModStep(c, ratio, 1);
    }
  }

  // ---- Exactness over whole runs ----

  /** The generator after n enabled clocks from reset with a constant increment. */
  function After(n: nat, inc: nat): BaudView {
    if n == 0 then RESET else Next(After(n - 1, inc), true, inc)
  }

  /** Oversample ticks seen in the first n clocks. */
  function OsTicks(n: nat, inc: nat, modulus: nat): nat
    requires modulus >= 1
  {
    if n == 0 then 0
    else OsTicks(n - 1, inc, modulus) + (if OsTick(modulus, After(n, inc)) then 1 else 0)
  }

  /** Baud ticks seen in the first n clocks. */
  function BaudTicks(n: nat, inc: nat, modulus: nat, ratio: nat): nat
    requires modulus >= 1 && ratio >= 1
  {
    if n == 0 then 0
    else BaudTicks(n - 1, inc, modulus, ratio) + (if BaudTick(modulus, ratio, After(n, inc)) then 1 else 0)
  }

  lemma {:induction false} AfterClosed(n: nat, inc: nat)
    ensures After(n, inc).phase == n * inc
    ensures n > 0 ==> After(n, inc).prev == (n - 1) * inc
  {
    if n > 0 {
      AfterClosed(n - 1, inc);
      assert n * inc == (n - 1) * inc + inc;
    }
  }

  /** NCO exactness: after n clocks exactly floor(n * inc / 2^W) oversample ticks and the floor of that
      over the ratio baud ticks have been produced. */
  lemma {:induction false} TicksExact(n: nat, inc: nat, modulus: nat, ratio: nat)
    requires inc < modulus && ratio >= 1
    ensures OsTicks(n, inc, modulus) == n * inc / modulus
    ensures BaudTicks(n, inc, modulus, ratio) == n * inc / modulus / ratio
  {
    if n == 0 {
      DivModUnique(0, modulus, 0, 0);
      DivModUnique(0, ratio, 0, 0);
    } else {
      TicksExact(n - 1, inc, modulus, ratio);
      AfterClosed(n, inc);
      var before := (n - 1) * inc;
      assert before + inc == n * inc;
      DivModStep(before, modulus, inc);
      BaudCount(before / modulus, ratio);
    }
  }

  lemma BaudCount(c: nat, ratio: nat)
    requires ratio >= 1
    ensures (c + 1) / ratio == c / ratio + (if (c + 1) % ratio == 0 then 1 else 0)
  {
    if ratio == 1 {
      DivModUnique(c, 1, c, 0);
      DivModUnique(c + 1, 1, c + 1, 0);
    } else {
      DivModStep(c, ratio, 1);
    }
  }

  /** Two neighbouring oversample ticks are floor(2^W / inc) or ceil(2^W / inc) clocks apart. */
  lemma TickSpacing(i: nat, j: nat, inc: nat, modulus: nat)
    requires 0 < inc < modulus && 0 < i < j
    requires OsTick(modulus, After(i, inc)) && OsTick(modulus, After(j, inc))
    requires forall k :: i < k < j ==> !OsTick(modulus, After(k, inc))
    ensures j - i == modulus / inc || j - i == (modulus + inc - 1) / inc
  {
    var ci, cj := i * inc / modulus, j * inc / modulus;
    TickMoves(i, inc, modulus);
    TickMoves(j, inc, modulus);
    QuietClocks(i, j - 1, inc, modulus);
    Advance(j - 1, inc, modulus);
    Landing(i, inc, modulus);
    Landing(j, inc, modulus);
    Separation(ci, cj, i, j, inc, modulus);
    Between(j - i, inc, modulus);
  }

  lemma TickMoves(n: nat, inc: nat, modulus: nat)
    requires 0 < n && modulus >= 1 && OsTick(modulus, After(n, inc))
    ensures n * inc / modulus != (n - 1) * inc / modulus
  {
    AfterClosed(n, inc);
  }

  lemma Separation(ci: nat, cj: nat, i: nat, j: nat, inc: nat, modulus: nat)
    requires i < j && cj == ci + 1
    requires ci * modulus <= i * inc < ci * modulus + inc
    requires cj * modulus <= j * inc < cj * modulus + inc
    ensures modulus - inc < (j - i) * inc < modulus + inc
  {
    assert (j - i) * inc == j * inc - i * inc;
    assert cj * modulus == ci * modulus + modulus;
  }

  lemma Advance(n: nat, inc: nat, modulus: nat)
    requires inc < modulus
    ensures (n + 1) * inc / modulus == n * inc / modulus || (n + 1) * inc / modulus == n * inc / modulus + 1
  {
    assert (n + 1) * inc == n * inc + inc;
    DivModStep(n * inc, modulus, inc);
  }

  /** On a tick the phase has just passed a multiple of the modulus. */
  lemma Landing(n: nat, inc: nat, modulus: nat)
    requires 0 < n && inc < modulus && n * inc / modulus != (n - 1) * inc / modulus
    ensures var c := n * inc / modulus; c * modulus <= n * inc < c * modulus + inc
  {
    var before := (n - 1) * inc;
    assert before + inc == n * inc;
    DivModStep(before, modulus, inc);
    assert n * inc == modulus * (n * inc / modulus) + n * inc % modulus;
  }

  /** Without a tick the overflow count stands still. */
  lemma {:induction false} QuietClocks(i: nat, j: nat, inc: nat, modulus: nat)
    requires 0 < i <= j && modulus >= 1
    requires forall k :: i < k <= j ==> !OsTick(modulus, After(k, inc))
    ensures j * inc / modulus == i * inc / modulus
  {
    if i < j {
      QuietClocks(i, j - 1, inc, modulus);
      AfterClosed(j, inc);
      assert !OsTick(modulus, After(j, inc));
    }
  }

  lemma Between(d: nat, inc: nat, modulus: nat)
    requires 0 < inc < modulus && modulus - inc < d * inc < modulus + inc
    ensures d == modulus / inc || d == (modulus + inc - 1) / inc
  {
    var q, r := modulus / inc, modulus % inc;
    assert modulus == inc * q + r;
    if d < q {
      MulGap(inc, d, q);
    }
    if d > q + 1 {
      MulGap(inc, q + 1, d);
    }
    assert d == q || d == q + 1;
    if d == q + 1 {
      assert d * inc == inc * q + inc;
      assert r > 0;
      assert modulus + inc - 1 == inc * (q + 1) + (r - 1);
      DivModUnique(modulus + inc - 1, inc, q + 1, r - 1);
    }
  }
}
