/** uart_tx.sv: the serializer. The abstract machine is a queue of line levels that is still to be shown;
    the class carries the registers of the RTL and is proved to refine it. */
module UartTx {
  import opened UartFormat

  /** `rest` lists the bit periods not yet finished, the current one first; it is empty when idle. */
  datatype TxView = TxView(rest: seq<bool>, done: bool)

  datatype TxIn = TxIn(enable: bool, txEnable: bool, cfg: Config, baudTick: bool, start: bool, data: Byte)

  const RESET := TxView([], false)

  function Line(v: TxView): bool {
    v.rest == [] || v.rest[0]
  }

  predicate Ready(v: TxView) {
    v.rest == []
  }

  predicate Launches(v: TxView, x: TxIn) {
    Ready(v) && x.start && x.enable && x.txEnable
  }

  function Next(v: TxView, x: TxIn): TxView {
    if Launches(v, x) then TxView(Frame(Latch(x.cfg), x.data), false)
    else if v.rest != [] && x.baudTick then TxView(v.rest[1..], |v.rest| == 1)
    else TxView(v.rest, false)
  }

  /** `tx_data` is only looked at when a start is requested. */
  lemma NextIgnoresData(v: TxView, x: TxIn, data: Byte)
    ensures !x.start ==> Next(v, x) == Next(v, x.(data := data))
  {
  }

  /** The level of bit period i of a frame. */
  function Level(f: Format, data: Byte, i: nat): bool
    requires f.Valid() && i < f.Length()
  {
    if i == 0 then false
    else if i <= f.dataBits then data[i - 1]
    else if f.HasParity() && i == 1 + f.dataBits then ParityBit(data, f.dataBits, f.parity)
    else true
  }

  lemma FrameLevels(f: Format, data: Byte)
    requires f.Valid()
    ensures forall i :: 0 <= i < f.Length() ==> Frame(f, data)[i] == Level(f, data, i)
  {
  }

  lemma Advance(s: seq<bool>, pos: nat)
    ensures s[0..] == s
    ensures pos < |s| ==> s[pos..][1..] == s[pos + 1..] && |s[pos..]| == |s| - pos
  {
  }

  /** `next_bit_index`: a three-bit sum. */
  function NextBitIndex(bitIndex: nat): (r: nat)
    ensures r < 8
    ensures bitIndex < 7 ==> r == bitIndex + 1
  {
    (bitIndex % 8 + 1) % 8
  }

  datatype State = S_IDLE | S_START | S_DATA | S_PARITY | S_STOP

  class Serializer {
    var state: State
    var data: Byte
    var bitIndex: nat
    var stopBitIndex: nat
    var activeDataBits: nat
    var activeStopBits: nat
    var activeParity: Code
    var parityBit: bool
    var line: bool
    var done: bool

    ghost function Active(): Format
      reads this
    {
      Format(activeDataBits, activeStopBits, activeParity)
    }

    /** Index in the frame of the level now on the line. */
    ghost function Position(): nat
      reads this
    {
      match state
      case S_IDLE => 0
      case S_START => 0
      case S_DATA => 1 + bitIndex
      case S_PARITY => 1 + activeDataBits
      case S_STOP => Active().Length() - activeStopBits + stopBitIndex
    }

    ghost predicate Valid()
      reads this
    {
      && Active().Valid()
      && (state == S_IDLE ==> line)
      && (state == S_DATA ==> bitIndex < activeDataBits)
      && (state == S_PARITY ==> Active().HasParity())
      && (state == S_STOP ==> stopBitIndex < activeStopBits)
      && (state != S_IDLE ==>
            && Position() < Active().Length()
            && line == Level(Active(), data, Position())
            && parityBit == ParityBit(data, activeDataBits, activeParity))
    }

    ghost function View(): TxView
      requires Valid()
      reads this
    {
      TxView(if state == S_IDLE then [] else Frame(Active(), data)[Position()..], done)
    }

    constructor ()
      ensures Valid() && View() == RESET
    {
      state, data, bitIndex, stopBitIndex := S_IDLE, ZERO_BYTE, 0, 0;
      activeDataBits, activeStopBits, activeParity := 8, 1, PARITY_NONE;
      parityBit, line, done := false, true, false;
    }

    function ReadyForStart(): (r: bool)
      requires Valid()
      reads this
      ensures r == Ready(View())
    {
      state == S_IDLE
    }

    function UartTxO(): (r: bool)
      requires Valid()
      reads this
      ensures r == Line(View())
    {
      FrameLevels(Active(), data);
      line
    }

    method Step(x: TxIn)
      requires Valid()
      modifies this
      ensures Valid() && View() == Next(old(View()), x)
    {
      match state {
        case S_IDLE => StepIdle(x);
        case S_START => StepStart(x);
        case S_DATA => StepData(x);
        case S_PARITY => StepParity(x);
        case S_STOP => StepStop(x);
      }
    }

    /** Waits for a start request and latches the format with the byte. */
    method StepIdle(x: TxIn)
      requires Valid() && state == S_IDLE
      modifies this
      ensures Valid() && View() == Next(old(View()), x)
    {
      done, line, bitIndex, stopBitIndex := false, true, 0, 0;
      if x.start && x.enable && x.txEnable {
        state, data := S_START, x.data;
        activeDataBits := DecodeDataBits(x.cfg.dataCode);
        activeStopBits := DecodeStopBits(x.cfg.stopCode);
        activeParity := x.cfg.parityCode;
        parityBit := ParityBit(x.data, DecodeDataBits(x.cfg.dataCode), x.cfg.parityCode);
        line := false;
        Advance(Frame(Active(), data), 0);
      }
    }

    /** The start bit is on the line. */
    method StepStart(x: TxIn)
      requires Valid() && state == S_START
      modifies this
      ensures Valid() && View() == Next(old(View()), x)
    {
      hide Frame, ParityBit;
      Advance(Frame(Active(), data), Position());
      done := false;
      if x.baudTick {
        state, bitIndex, line := S_DATA, 0, data[0];
      }
    }

    /** A data bit is on the line. */
    method StepData(x: TxIn)
      requires Valid() && state == S_DATA
      modifies this
      ensures Valid() && View() == Next(old(View()), x)
    {
      hide Frame, ParityBit;
      Advance(Frame(Active(), data), Position());
      done := false;
      if x.baudTick {
        if bitIndex == activeDataBits - 1 {
          bitIndex := 0;
          if activeParity == PARITY_EVEN || activeParity == PARITY_ODD {
            state, line := S_PARITY, parityBit;
          } else {
            state, stopBitIndex, line := S_STOP, 0, true;
          }
        } else {
          line := data[NextBitIndex(bitIndex)];
          bitIndex := bitIndex + 1;
        }
        assert Active() == old(Active()) && Position() == old(Position()) + 1;
      }
    }

    /** The parity bit is on the line. */
    method StepParity(x: TxIn)
      requires Valid() && state == S_PARITY
      modifies this
      ensures Valid() && View() == Next(old(View()), x)
    {
      hide Frame, ParityBit;
      Advance(Frame(Active(), data), Position());
      done := false;
      if x.baudTick {
        state, stopBitIndex, line := S_STOP, 0, true;
      }
    }

    /** A stop bit is on the line. */
    method StepStop(x: TxIn)
      requires Valid() && state == S_STOP
      modifies this
      ensures Valid() && View() == Next(old(View()), x)
    {
      hide Frame, ParityBit;
      Advance(Frame(Active(), data), Position());
      done := false;
      line := true;
      if x.baudTick {
        if stopBitIndex == activeStopBits - 1 {
          done, state := true, S_IDLE;
        } else {
          stopBitIndex := stopBitIndex + 1;
        }
      }
    }
  }

  // ---- Non-interference over whole runs ----

  function Run(v: TxView, xs: seq<TxIn>): TxView
    decreases |xs|
  {
    if xs == [] then v else Next(Run(v, xs[..|xs| - 1]), xs[|xs| - 1])
  }

  function BaudTicks(xs: seq<TxIn>): nat
    decreases |xs|
  {
    if xs == [] then 0 else BaudTicks(xs[..|xs| - 1]) + (if xs[|xs| - 1].baudTick then 1 else 0)
  }

  /** Number of done pulses raised by a run. */
  function DoneEvents(v: TxView, xs: seq<TxIn>): nat
    decreases |xs|
  {
    if xs == [] then 0
    else DoneEvents(v, xs[..|xs| - 1]) + (if Run(v, xs).done then 1 else 0)
  }

  /** From a launch on, the state is fixed by the launch values and the number of baud ticks alone: whatever
      the enables, the format inputs, the start request or the data input do, bit period j of the line is
      level j of the frame, no second character starts, and done comes with the last baud tick of the frame. */
  lemma {:induction false} FrameOnTheLine(v: TxView, launch: TxIn, xs: seq<TxIn>)
    requires Launches(v, launch)
    requires BaudTicks(xs) < Latch(launch.cfg).Length()
    ensures var frame := Frame(Latch(launch.cfg), launch.data);
            var w := Run(Next(v, launch), xs);
            w == TxView(frame[BaudTicks(xs)..], false) && Line(w) == frame[BaudTicks(xs)]
    ensures DoneEvents(Next(v, launch), xs) == 0
    decreases |xs|
  {
    if xs != [] {
      FrameOnTheLine(v, launch, xs[..|xs| - 1]);
    }
  }

  /** Done follows exactly bits-per-frame baud ticks after the launch, with the line back at idle. */
  lemma FrameDone(v: TxView, launch: TxIn, xs: seq<TxIn>, last: TxIn)
    requires Launches(v, launch) && last.baudTick
    requires BaudTicks(xs) == Latch(launch.cfg).Length() - 1
    ensures Run(Next(v, launch), xs + [last]) == TxView([], true)
    ensures DoneEvents(Next(v, launch), xs + [last]) == 1
  {
    FrameOnTheLine(v, launch, xs);
    assert (xs + [last])[..|xs|] == xs;
  }

  /** When starts are only requested on baud ticks (uart_core.sv does so), the next launch is at least
      bits-per-frame + 1 baud ticks after the previous one, its own tick included. */
  lemma LaunchSpacing(v: TxView, launch: TxIn, xs: seq<TxIn>, next: TxIn)
    requires Launches(v, launch)
    requires next.start ==> next.baudTick
    requires Launches(Run(Next(v, launch), xs), next)
    ensures BaudTicks(xs + [next]) >= Latch(launch.cfg).Length() + 1
  {
    assert (xs + [next])[..|xs|] == xs;
    if BaudTicks(xs) < Latch(launch.cfg).Length() {
      FrameOnTheLine(v, launch, xs);
      assert false;
    }
  }
}
