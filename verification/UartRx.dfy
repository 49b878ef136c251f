/** uart_rx.sv: the oversampling decoder. The abstract machine keeps the list of samples taken so far; the
    class carries the registers of the RTL, where the samples are folded into flags as they arrive. */
module UartRx {
  import opened UartFormat

  /** `count` is the number of oversample ticks since the last sample (or since the start was seen). */
  datatype Phase =
    | Hunting(armed: bool)
    | Sampling(format: Format, count: nat, samples: seq<bool>)
    | Finishing(format: Format, samples: seq<bool>)

  /** `out` is the completed record, present for one clock. */
  datatype RxView = RxView(phase: Phase, out: Option<Record>)

  datatype RxIn = RxIn(enable: bool, rxEnable: bool, cfg: Config, tick: bool, line: bool)

  const RESET := RxView(Hunting(true), None)

  /** Ticks from the detected start edge to the middle of the start bit. */
  function HalfBit(oversample: nat): (h: nat)
    ensures h >= 1
  {
    if oversample <= 2 then 1 else oversample / 2
  }

  /** Ticks from one sample to the next. */
  function FullBit(oversample: nat): (b: nat)
    ensures b >= 1
  {
    if oversample <= 1 then 1 else oversample
  }

  /** Ticks that must pass before the next sample is taken. */
  function Due(oversample: nat, samples: seq<bool>): (n: nat)
    ensures n >= 1
  {
    if samples == [] then HalfBit(oversample) else FullBit(oversample)
  }

  predicate Starts(v: RxView, x: RxIn) {
    v.phase.Hunting? && v.phase.armed && !x.line && x.enable && x.rxEnable
  }

  function NextPhase(oversample: nat, p: Phase, x: RxIn): Phase {
    match p
    case Hunting(armed) =>
      if Starts(RxView(p, None), x) then Sampling(Latch(x.cfg), 0, []) else Hunting(x.line)
    case Sampling(f, count, samples) =>
      if !x.tick then p
      else if count + 1 < Due(oversample, samples) then Sampling(f, count + 1, samples)
      else if samples == [] && x.line then Hunting(false)
      else if |samples| + 1 < f.Length() then Sampling(f, 0, samples + [x.line])
      else Finishing(f, samples + [x.line])
    case Finishing(f, samples) =>
      Hunting(false)
  }

  function Next(oversample: nat, v: RxView, x: RxIn): RxView {
    RxView(NextPhase(oversample, v.phase, x),
           if v.phase.Finishing? && v.phase.format.Valid() && |v.phase.samples| == v.phase.format.Length()
           then Some(DecodeSamples(v.phase.format, v.phase.samples)) else None)
  }

  ghost predicate Coherent(oversample: nat, v: RxView) {
    match v.phase
    case Hunting(_) => true
    case Sampling(f, count, samples) =>
      f.Valid() && count < Due(oversample, samples) && |samples| < f.Length() && (samples != [] ==> !samples[0])
    case Finishing(f, samples) =>
      f.Valid() && |samples| == f.Length() && !samples[0]
  }

  lemma {:induction false} NextCoherent(oversample: nat, v: RxView, x: RxIn)
    requires Coherent(oversample, v)
    ensures Coherent(oversample, Next(oversample, v, x))
  {
  }

  datatype State = S_IDLE | S_START | S_DATA | S_PARITY | S_STOP | S_DONE

  const CLEAN := Record(ZERO_BYTE, false, false, false)

  /** What the registers say about the samples taken so far, state by state. Data bits that have not been
      sampled are zero. */
  ghost predicate Tracks(state: State, f: Format, samples: seq<bool>, dataIndex: nat, stopIndex: nat, r: Record)
    requires f.Valid()
  {
    var n := f.dataBits;
    var stops := f.Length() - f.stopBits;
    && (state == S_IDLE || state == S_START || (samples != [] && !samples[0]))
    && match state
       case S_IDLE => true
       case S_START => samples == [] && dataIndex == 0 && stopIndex == 0 && r.(breakDetect := false) == CLEAN
       case S_DATA =>
         && dataIndex < n && |samples| == 1 + dataIndex && stopIndex == 0
         && r.data == samples[1..] + Fill(8 - dataIndex, false) && !r.frameError && !r.parityError
       case S_PARITY =>
         && f.HasParity() && |samples| == 1 + n && stopIndex == 0
         && r.data == samples[1..] + Fill(8 - n, false) && !r.frameError && !r.parityError
       case S_STOP =>
         && stopIndex < f.stopBits && |samples| == stops + stopIndex
         && r.data == samples[1..1 + n] + Fill(8 - n, false)
         && r.parityError == (f.HasParity() && ParityError(r.data, f.parity, samples[1 + n]))
         && r.frameError == (false in samples[stops..])
       case S_DONE => |samples| == f.Length() && r == DecodeSamples(f, samples)
  }

  /** The registers of the module. Within a clock they are all written together, from their old values, which
      is what the non-blocking assignments of the always_ff block say. */
  datatype Registers = Registers(
    state: State,
    sampleCount: nat,
    dataBitIndex: nat,
    stopBitIndex: nat,
    active: Format,
    record: Record,
    allDataZero: bool,
    stopLowSeen: bool,
    startArmed: bool,
    charValid: bool,
    eventFrameError: bool,
    eventParityError: bool,
    eventBreakDetect: bool)
  {
    /** The record invariants: the incremental flags always mean what their names say, and an event pulse is
        the matching record flag of a character completed in this very clock. */
    ghost predicate Valid(oversample: nat, samples: seq<bool>) {
      && active.Valid()
      && (state == S_START ==> samples == [])
      && (state != S_IDLE && state != S_START ==> samples != [])
      && Tracks(state, active, samples, dataBitIndex, stopBitIndex, record)
      && sampleCount < (if state == S_START then HalfBit(oversample) else FullBit(oversample))
      && allDataZero == (record.data == ZERO_BYTE)
      && stopLowSeen == record.frameError
      && (state != S_IDLE ==> !startArmed)
      && (charValid ==> state == S_IDLE)
      && eventFrameError == (charValid && record.frameError)
      && eventParityError == (charValid && record.parityError)
      && eventBreakDetect == (charValid && record.breakDetect)
    }

    ghost function View(samples: seq<bool>): RxView {
      RxView(
        match state
        case S_IDLE => Hunting(startArmed)
        case S_DONE => Finishing(active, samples)
        case _ => Sampling(active, sampleCount, samples),
        if charValid then Some(record) else None)
    }
  }

  class Decoder {
    const oversample: nat
    var q: Registers
    ghost var samples: seq<bool>

    ghost predicate Valid()
      reads this
    {
      q.Valid(oversample, samples)
    }

    ghost function View(): RxView
      reads this
    {
      q.View(samples)
    }

    constructor (oversample: nat)
      ensures Valid() && View() == RESET && this.oversample == oversample
    {
      this.oversample := oversample;
      q := Registers(S_IDLE, 0, 0, 0, Format(8, 1, PARITY_NONE), CLEAN, true, false, true,
                     false, false, false, false);
      samples := [];
    }

    function CharValid(): (r: bool)
      requires Valid()
      reads this
      ensures r == View().out.Some?
    {
      q.charValid
    }

    function CharRecord(): (r: Record)
      requires Valid()
      reads this
      ensures View().out.Some? ==> r == View().out.value
    {
      q.record
    }

    method Step(x: RxIn)
      requires Valid()
      modifies this
      ensures Valid() && View() == Next(oversample, old(View()), x)
    {
      match q.state {
        case S_IDLE => StepIdle(x);
        case S_START => StepStart(x);
        case S_DATA => StepData(x);
        case S_PARITY => StepParity(x);
        case S_STOP => StepStop(x);
        case S_DONE => StepDone(x);
      }
    }

    /** Index of the last oversample tick of a bit period, as `BIT_LAST_INT`. */
    function BitLast(): nat {
      if oversample <= 1 then 0 else oversample - 1
    }

    /** Index of the tick in the middle of the start bit, as `HALF_LAST_INT`. */
    function HalfLast(): nat {
      if oversample <= 2 then 0 else oversample / 2 - 1
    }

    /** The pulses fall back to zero unless this clock raises them. */
    function Defaults(): Registers
      reads this
    {
      q.(charValid := false, eventFrameError := false, eventParityError := false, eventBreakDetect := false)
    }

    /** Looks for an armed falling edge and latches the format. */
    method StepIdle(x: RxIn)
      requires Valid() && q.state == S_IDLE
      modifies this
      ensures Valid() && View() == Next(oversample, old(View()), x)
    {
      hide Tracks, DecodeSamples, ParityError;
      var n := Defaults();
      ghost var taken := samples;
      n := n.(sampleCount := 0, dataBitIndex := 0, stopBitIndex := 0, stopLowSeen := false,
              record := Record(q.record.data, false, false, false));
      if x.line {
        n := n.(startArmed := true);
      } else if q.startArmed {
        n := n.(startArmed := false);
        if x.enable && x.rxEnable {
          n := n.(state := S_START, active := Latch(x.cfg), allDataZero := true,
                  record := n.record.(data := ZERO_BYTE));
          taken := [];
        }
      }
      TrackIdle(n.active, taken, 0, 0, n.record);
      q, samples := n, taken;
    }

    /** Counts to the middle of the start bit; a high sample there rejects the start. */
    method StepStart(x: RxIn)
      requires Valid() && q.state == S_START
      modifies this
      ensures Valid() && View() == Next(oversample, old(View()), x)
    {
      hide Tracks, DecodeSamples, ParityError;
      var n := Defaults();
      ghost var taken := samples;
      if x.tick {
        if q.sampleCount == HalfLast() {
          n := n.(sampleCount := 0);
          if !x.line {
            TrackStart(q.active, samples, q.dataBitIndex, q.stopBitIndex, q.record);
            n := n.(state := S_DATA);
            taken := samples + [x.line];
          } else {
            TrackIdle(q.active, samples, q.dataBitIndex, q.stopBitIndex, q.record);
            n := n.(state := S_IDLE);
          }
        } else {
          n := n.(sampleCount := q.sampleCount + 1);
        }
      }
      q, samples := n, taken;
    }

    /** Takes one data bit every bit period. */
    method StepData(x: RxIn)
      requires Valid() && q.state == S_DATA
      modifies this
      ensures Valid() && View() == Next(oversample, old(View()), x)
    {
      hide Tracks, DecodeSamples, ParityError;
      var n := Defaults();
      ghost var taken := samples;
      if x.tick {
        if q.sampleCount == BitLast() {
          TrackData(q.active, samples, q.dataBitIndex, q.stopBitIndex, q.record, x.line);
          taken := samples + [x.line];
          n := n.(sampleCount := 0, allDataZero := q.allDataZero && !x.line,
                  record := q.record.(data := q.record.data[q.dataBitIndex % 8 := x.line]));
          if q.dataBitIndex == q.active.dataBits - 1 {
            n := n.(dataBitIndex := 0, state := if q.active.HasParity() then S_PARITY else S_STOP);
          } else {
            n := n.(dataBitIndex := q.dataBitIndex + 1);
          }
        } else {
          n := n.(sampleCount := q.sampleCount + 1);
        }
      }
      q, samples := n, taken;
    }

    /** Takes and checks the parity bit. */
    method StepParity(x: RxIn)
      requires Valid() && q.state == S_PARITY
      modifies this
      ensures Valid() && View() == Next(oversample, old(View()), x)
    {
      hide Tracks, DecodeSamples, ParityError;
      var n := Defaults();
      ghost var taken := samples;
      if x.tick {
        if q.sampleCount == BitLast() {
          TrackParity(q.active, samples, q.dataBitIndex, q.stopBitIndex, q.record, x.line);
          taken := samples + [x.line];
          n := n.(sampleCount := 0, state := S_STOP,
                  record := q.record.(parityError := ParityError(q.record.data, q.active.parity, x.line)));
        } else {
          n := n.(sampleCount := q.sampleCount + 1);
        }
      }
      q, samples := n, taken;
    }

    /** Takes the stop bits; the last one settles the break flag. */
    method StepStop(x: RxIn)
      requires Valid() && q.state == S_STOP
      modifies this
      ensures Valid() && View() == Next(oversample, old(View()), x)
    {
      hide Tracks, DecodeSamples, ParityError;
      var n := Defaults();
      ghost var taken := samples;
      if x.tick {
        if q.sampleCount == BitLast() {
          TrackStop(q.active, samples, q.dataBitIndex, q.stopBitIndex, q.record, x.line);
          taken := samples + [x.line];
          n := n.(sampleCount := 0);
          if !x.line {
            n := n.(stopLowSeen := true, record := n.record.(frameError := true));
          }
          if q.stopBitIndex == q.active.stopBits - 1 {
            var broke := (q.record.frameError || !x.line) && q.allDataZero && (q.stopLowSeen || !x.line);
            n := n.(stopBitIndex := 0, state := S_DONE, record := n.record.(breakDetect := broke));
          } else {
            n := n.(stopBitIndex := q.stopBitIndex + 1);
          }
        } else {
          n := n.(sampleCount := q.sampleCount + 1);
        }
      }
      q, samples := n, taken;
    }

    /** Publishes the completed record for one clock. */
    method StepDone(x: RxIn)
      requires Valid() && q.state == S_DONE
      modifies this
      ensures Valid() && View() == Next(oversample, old(View()), x)
    {
      hide Tracks, DecodeSamples, ParityError;
      var n := Defaults();
      TrackIdle(q.active, samples, q.dataBitIndex, q.stopBitIndex, q.record);
      n := n.(charValid := true, eventFrameError := q.record.frameError,
              eventParityError := q.record.parityError, eventBreakDetect := q.record.breakDetect,
              state := S_IDLE);
      q := n;
    }
  }

  lemma TrackIdle(f: Format, samples: seq<bool>, di: nat, si: nat, r: Record)
    requires f.Valid()
    ensures Tracks(S_IDLE, f, samples, di, si, r)
    ensures Tracks(S_START, f, [], 0, 0, CLEAN)
    ensures Tracks(S_DONE, f, samples, di, si, r) ==>
              |samples| == f.Length() && r == DecodeSamples(f, samples)
  {
  }

  lemma TrackStart(f: Format, samples: seq<bool>, di: nat, si: nat, r: Record)
    requires f.Valid() && Tracks(S_START, f, samples, di, si, r)
    ensures samples == [] && Tracks(S_DATA, f, samples + [false], di, si, r)
  {
    assert samples + [false] == [false];
  }

  lemma TrackData(f: Format, samples: seq<bool>, index: nat, si: nat, r: Record, line: bool)
    requires f.Valid() && Tracks(S_DATA, f, samples, index, si, r)
    ensures var r' := r.(data := r.data[index % 8 := line]);
            && samples != [] && |samples| == 1 + index && index < f.dataBits && si == 0
            && (if index < f.dataBits - 1 then Tracks(S_DATA, f, samples + [line], index + 1, 0, r')
                else if f.HasParity() then Tracks(S_PARITY, f, samples + [line], 0, 0, r')
                else Tracks(S_STOP, f, samples + [line], 0, 0, r'))
            && (r'.data == ZERO_BYTE) == (r.data == ZERO_BYTE && !line)
  {
    hide ParityError, DecodeSamples;
    var d, t := r.data[index % 8 := line], samples + [line];
    assert d[index] == line;
    assert d == t[1..] + Fill(7 - index, false);
    assert t[1..] == t[1..1 + (index + 1)];
    if r.data != ZERO_BYTE {
      var i :| 0 <= i < 8 && r.data[i];
      assert i < index && d[i];
    }
  }

  lemma TrackParity(f: Format, samples: seq<bool>, di: nat, si: nat, r: Record, line: bool)
    requires f.Valid() && Tracks(S_PARITY, f, samples, di, si, r)
    ensures si == 0 && samples != [] && |samples| + f.stopBits + 1 == f.Length()
    ensures Tracks(S_STOP, f, samples + [line], di, 0, r.(parityError := ParityError(r.data, f.parity, line)))
  {
    assert (samples + [line])[1..1 + f.dataBits] == samples[1..];
  }

  lemma TrackStop(f: Format, samples: seq<bool>, di: nat, index: nat, r: Record, line: bool)
    requires f.Valid() && Tracks(S_STOP, f, samples, di, index, r)
    ensures samples != [] && |samples| == f.Length() - f.stopBits + index && index < f.stopBits
    ensures var low := r.frameError || !line;
            && (index < f.stopBits - 1 ==>
                  Tracks(S_STOP, f, samples + [line], di, index + 1, r.(frameError := low)))
            && (index == f.stopBits - 1 ==>
                  Tracks(S_DONE, f, samples + [line], di, 0,
                         r.(frameError := low, breakDetect := low && r.data == ZERO_BYTE)))
  {
    hide ParityError;
    var stops := f.Length() - f.stopBits;
    var t := samples + [line];
    assert t[stops..] == samples[stops..] + [line];
    assert t[1..1 + f.dataBits] == samples[1..1 + f.dataBits];
  }

  // ---- Re-arming over whole runs ----

  function Run(oversample: nat, v: RxView, xs: seq<RxIn>): RxView
    decreases |xs|
  {
    if xs == [] then v else Run(oversample, Next(oversample, v, xs[0]), xs[1..])
  }

  function Pulse(out: Option<Record>): seq<Record> {
    if out.Some? then [out.value] else []
  }

  /** The records completed during a run, in order. */
  function Records(oversample: nat, v: RxView, xs: seq<RxIn>): seq<Record>
    decreases |xs|
  {
    if xs == [] then []
    else var w := Next(oversample, v, xs[0]); Pulse(w.out) + Records(oversample, w, xs[1..])
  }

  function Ticks(xs: seq<RxIn>): nat {
    if xs == [] then 0 else (if xs[0].tick then 1 else 0) + Ticks(xs[1..])
  }

  lemma {:induction false} RunSnoc(oversample: nat, v: RxView, xs: seq<RxIn>, x: RxIn)
    ensures Run(oversample, v, xs + [x]) == Next(oversample, Run(oversample, v, xs), x)
    decreases |xs|
  {
    if xs == [] {
      assert xs + [x] == [x];
    } else {
      assert (xs + [x])[1..] == xs[1..] + [x];
      RunSnoc(oversample, Next(oversample, v, xs[0]), xs[1..], x);
    }
  }

  /** The decoder starts a character in clock i of the run. */
  predicate StartsAt(oversample: nat, v: RxView, xs: seq<RxIn>, i: nat)
    requires i < |xs|
  {
    Starts(Run(oversample, v, xs[..i]), xs[i])
  }

  /** Clock m of the run finds the decoder idle and the line high. */
  predicate IdleHighAt(oversample: nat, v: RxView, xs: seq<RxIn>, m: nat)
    requires m < |xs|
  {
    Run(oversample, v, xs[..m]).phase.Hunting? && xs[m].line
  }

  /** Re-arm safety: on any waveform, with any enables and ticks, two starts are separated by a clock in which
      the decoder is idle and sees the line high. */
  lemma Rearm(oversample: nat, v: RxView, xs: seq<RxIn>, i: nat, j: nat)
    requires i < j < |xs|
    requires StartsAt(oversample, v, xs, i) && StartsAt(oversample, v, xs, j)
    ensures exists m :: i < m < j && IdleHighAt(oversample, v, xs, m)
  {
    var m := j - 1;
    assert xs[..j] == xs[..m] + [xs[m]];
    RunSnoc(oversample, v, xs[..m], xs[m]);
    assert m != i;
    assert IdleHighAt(oversample, v, xs, m);
  }

  /** Oversample ticks in n bit periods. */
  function Periods(oversample: nat, n: nat): nat {
    if n == 0 then 0 else FullBit(oversample) + Periods(oversample, n - 1)
  }

  /** Oversample ticks from a sampling phase to its last sample. */
  function TicksToGo(oversample: nat, p: Phase): nat
    requires p.Sampling? && p.format.Valid() && p.count < Due(oversample, p.samples)
    requires |p.samples| < p.format.Length()
  {
    Due(oversample, p.samples) - p.count + Periods(oversample, p.format.Length() - |p.samples| - 1)
  }

  /** The record of a line held low: a break, with a parity error exactly in odd mode. */
  function BreakRecord(f: Format): Record {
    Record(ZERO_BYTE, true, f.parity == PARITY_ODD, true)
  }

  function BreakAfter(f: Format, ticks: nat, needed: nat): seq<Record> {
    if ticks >= needed then [BreakRecord(f)] else []
  }

  predicate AllLow(xs: seq<RxIn>) {
    forall i :: 0 <= i < |xs| ==> !xs[i].line
  }

  lemma DecodeAllLow(f: Format)
    requires f.Valid()
    ensures DecodeSamples(f, Fill(f.Length(), false)) == BreakRecord(f)
  {
    var s := Fill(f.Length(), false);
    assert DataField(f, s) == ZERO_BYTE;
    assert StopField(f, s)[0] == false;
    ParityOfZeros(8);
  }

  lemma {:induction false} LowAndIdle(oversample: nat, v: RxView, xs: seq<RxIn>)
    requires v.phase == Hunting(false) && AllLow(xs)
    ensures Records(oversample, v, xs) == []
    decreases |xs|
  {
    if xs != [] {
      LowAndIdle(oversample, Next(oversample, v, xs[0]), xs[1..]);
    }
  }

  /** A line that stays low after a start yields one break record and nothing more, published one clock after
      the last stop bit was sampled; before that it yields nothing. */
  lemma {:induction false} HeldLowFrom(oversample: nat, v: RxView, xs: seq<RxIn>)
    requires Coherent(oversample, v) && v.phase.Sampling?
    requires v.phase.samples == Fill(|v.phase.samples|, false)
    requires xs != [] && AllLow(xs)
    ensures Records(oversample, v, xs)
         == BreakAfter(v.phase.format, Ticks(xs[..|xs| - 1]), TicksToGo(oversample, v.phase))
    decreases |xs|
  {
    hide DecodeSamples, ParityError;
    var w := Next(oversample, v, xs[0]);
    var f := v.phase.format;
    if |xs| > 1 {
      assert xs[1..][..|xs| - 2] == xs[..|xs| - 1][1..];
      if w.phase.Finishing? {
        assert v.phase.samples + [false] == Fill(f.Length(), false);
        var u := Next(oversample, w, xs[1]);
        DecodeAllLow(f);
        LowAndIdle(oversample, u, xs[2..]);
        assert xs[1..][1..] == xs[2..];
        assert Records(oversample, w, xs[1..]) == [BreakRecord(f)];
      } else {
        if w.phase.samples != v.phase.samples {
          assert w.phase.samples == Fill(|w.phase.samples|, false);
        }
        HeldLowFrom(oversample, w, xs[1..]);
      }
    } else {
      assert xs[..0] == [];
    }
  }

  /** A start whose mid-bit sample is high is rejected without a record. */
  lemma {:induction false} FalseStartFrom(oversample: nat, v: RxView, xs: seq<RxIn>)
    requires Coherent(oversample, v) && v.phase.Sampling? && v.phase.samples == []
    requires xs != [] && xs[|xs| - 1].tick && xs[|xs| - 1].line
    requires Ticks(xs[..|xs| - 1]) == HalfBit(oversample) - v.phase.count - 1
    ensures Run(oversample, v, xs).phase == Hunting(false)
    ensures Records(oversample, v, xs) == []
    decreases |xs|
  {
    if |xs| > 1 {
      assert xs[1..][..|xs| - 2] == xs[..|xs| - 1][1..];
      FalseStartFrom(oversample, Next(oversample, v, xs[0]), xs[1..]);
    } else {
      assert xs[..0] == [];
    }
  }

  // ---- The same from reset ----

  /** Every state that a run reaches is coherent: fewer samples than the frame has, a low start sample first, and
      a tick count below the next sample point. */
  lemma {:induction false} RunCoherent(oversample: nat, v: RxView, xs: seq<RxIn>)
    requires Coherent(oversample, v)
    ensures Coherent(oversample, Run(oversample, v, xs))
    decreases |xs|
  {
    if xs != [] {
      NextCoherent(oversample, v, xs[0]);
      RunCoherent(oversample, Next(oversample, v, xs[0]), xs[1..]);
    }
  }

  lemma StartedFrom(oversample: nat, before: seq<RxIn>, start: RxIn)
    requires Starts(Run(oversample, RESET, before), start)
    ensures Run(oversample, RESET, before + [start]).phase == Sampling(Latch(start.cfg), 0, [])
  {
    RunSnoc(oversample, RESET, before, start);
    hide Run;
  }

  /** After any history, a start whose line then stays low gives the break record of the latched format, exactly
      when the ticks of a whole character have passed, and nothing else. */
  lemma HeldLow(oversample: nat, before: seq<RxIn>, start: RxIn, xs: seq<RxIn>)
    requires Starts(Run(oversample, RESET, before), start) && xs != [] && AllLow(xs)
    ensures Records(oversample, Run(oversample, RESET, before + [start]), xs)
         == BreakAfter(Latch(start.cfg), Ticks(xs[..|xs| - 1]),
                       HalfBit(oversample) + Periods(oversample, Latch(start.cfg).Length() - 1))
  {
    hide Run, Records, Ticks, BreakAfter, AllLow;
    StartedFrom(oversample, before, start);
    HeldLowFrom(oversample, Run(oversample, RESET, before + [start]), xs);
  }

  /** The same from the middle of a character that has been low so far. */
  lemma LowFromHere(oversample: nat, before: seq<RxIn>, xs: seq<RxIn>)
    requires var v := Run(oversample, RESET, before);
             v.phase.Sampling? && v.phase.samples == Fill(|v.phase.samples|, false)
    requires xs != [] && AllLow(xs)
    ensures Coherent(oversample, Run(oversample, RESET, before))
    ensures var v := Run(oversample, RESET, before);
            Records(oversample, v, xs) == BreakAfter(v.phase.format, Ticks(xs[..|xs| - 1]), TicksToGo(oversample, v.phase))
  {
    RunCoherent(oversample, RESET, before);
    HeldLowFrom(oversample, Run(oversample, RESET, before), xs);
  }

  /** After any history, a start whose mid-bit sample is high gives no record and disarms the decoder. */
  lemma FalseStart(oversample: nat, before: seq<RxIn>, start: RxIn, xs: seq<RxIn>)
    requires Starts(Run(oversample, RESET, before), start)
    requires xs != [] && xs[|xs| - 1].tick && xs[|xs| - 1].line
    requires Ticks(xs[..|xs| - 1]) == HalfBit(oversample) - 1
    ensures var v := Run(oversample, RESET, before + [start]);
            Run(oversample, v, xs).phase == Hunting(false) && Records(oversample, v, xs) == []
  {
    hide Run, Records, Ticks;
    StartedFrom(oversample, before, start);
    FalseStartFrom(oversample, Run(oversample, RESET, before + [start]), xs);
  }
}
