/** Character format of the UART: the encodings of uart_pkg.sv, the decode and parity functions that
    uart_tx.sv and uart_rx.sv share, the wire image of a character and the record read back from samples.
    A Verilog vector `logic [n-1:0]` is a sequence of bits with bit 0 first. */
module UartFormat {
  type Code = c: int | 0 <= c < 4 witness 0

  type Byte = b: seq<bool> | |b| == 8 witness [false, false, false, false, false, false, false, false]

  datatype Option<+T> = None | Some(value: T)

  const PARITY_NONE: Code := 0
  const PARITY_EVEN: Code := 1
  const PARITY_ODD: Code := 2
  const PARITY_RSVD: Code := 3
  const STOP_1: Code := 0
  const STOP_2: Code := 1
  const DATA_5: Code := 0
  const DATA_8: Code := 3
  const ZERO_BYTE: Byte := Fill(8, false)

  /** The format a serializer or decoder latches when a character starts. */
  datatype Format = Format(dataBits: nat, stopBits: nat, parity: Code) {
    predicate Valid() {
      5 <= dataBits <= 8 && 1 <= stopBits <= 2
    }

    predicate HasParity() {
      parity == PARITY_EVEN || parity == PARITY_ODD
    }

    /** Number of bit periods from the start bit to the last stop bit. */
    function Length(): nat {
      1 + dataBits + (if HasParity() then 1 else 0) + stopBits
    }
  }

  datatype Config = Config(dataCode: Code, stopCode: Code, parityCode: Code)

  function DecodeDataBits(code: Code): nat {
    match code
    case 0 => 5
    case 1 => 6
    case 2 => 7
    case _ => 8
  }

  function DecodeStopBits(code: Code): nat {
    if code == STOP_2 then 2 else 1
  }

  function Latch(cfg: Config): (f: Format)
    ensures f.Valid()
  {
    Format(DecodeDataBits(cfg.dataCode), DecodeStopBits(cfg.stopCode), cfg.parityCode)
  }

  /** Verilog's reduction xor. */
  function Parity(bits: seq<bool>): bool {
    if bits == [] then false else bits[0] != Parity(bits[1..])
  }

  function Fill(n: nat, b: bool): (s: seq<bool>)
    ensures |s| == n
    ensures forall i :: 0 <= i < n ==> s[i] == b
  {
    seq(n, _ => b)
  }

  /** uart_tx.sv's parity: over the transmitted data bits only. */
  function ParityBit(data: Byte, dataBits: nat, parity: Code): bool
    requires dataBits <= 8
  {
    if parity == PARITY_EVEN then Parity(data[..dataBits])
    else if parity == PARITY_ODD then !Parity(data[..dataBits])
    else false
  }

  /** uart_rx.sv's parity check: over the whole zero-filled byte. */
  function ParityError(data: Byte, parity: Code, bit: bool): bool {
    if parity == PARITY_EVEN then Parity(data) != bit
    else if parity == PARITY_ODD then Parity(data) == bit
    else false
  }

  /** Only the transmitted data bits survive; the others read as zero. */
  function Mask(data: Byte, dataBits: nat): Byte
    requires dataBits <= 8
  {
    data[..dataBits] + Fill(8 - dataBits, false)
  }

  function ParityField(f: Format, bit: bool): seq<bool> {
    if f.HasParity() then [bit] else []
  }

  /** The line levels of one character, one per bit period. */
  function Frame(f: Format, data: Byte): (s: seq<bool>)
    requires f.Valid()
    ensures |s| == f.Length()
  {
    [false] + data[..f.dataBits] + ParityField(f, ParityBit(data, f.dataBits, f.parity)) + Fill(f.stopBits, true)
  }

  datatype Record = Record(data: Byte, frameError: bool, parityError: bool, breakDetect: bool)

  function DataField(f: Format, samples: seq<bool>): (d: Byte)
    requires f.Valid() && |samples| == f.Length()
  {
    samples[1..1 + f.dataBits] + Fill(8 - f.dataBits, false)
  }

  function StopField(f: Format, samples: seq<bool>): seq<bool>
    requires f.Valid() && |samples| == f.Length()
  {
    samples[f.Length() - f.stopBits..]
  }

  /** The record a full list of mid-bit samples stands for. */
  function DecodeSamples(f: Format, samples: seq<bool>): Record
    requires f.Valid() && |samples| == f.Length()
  {
    var data := DataField(f, samples);
    var stopLow := false in StopField(f, samples);
    Record(data, stopLow, f.HasParity() && ParityError(data, f.parity, samples[1 + f.dataBits]),
           stopLow && data == ZERO_BYTE)
  }

  lemma {:induction false} ParityAppend(a: seq<bool>, b: seq<bool>)
    ensures Parity(a + b) == (Parity(a) != Parity(b))
  {
    if a == [] {
      assert a + b == b;
    } else {
      assert (a + b)[1..] == a[1..] + b;
      ParityAppend(a[1..], b);
    }
  }

  lemma {:induction false} ParityOfZeros(n: nat)
    ensures !Parity(Fill(n, false))
  {
    if n > 0 {
      assert Fill(n, false)[1..] == Fill(n - 1, false);
      ParityOfZeros(n - 1);
    }
  }

  /** The receiver's whole-byte parity equals the transmitter's width-limited parity. */
  lemma ParityAgrees(data: Byte, dataBits: nat)
    requires dataBits <= 8
    ensures Parity(Mask(data, dataBits)) == Parity(data[..dataBits])
  {
    ParityAppend(data[..dataBits], Fill(8 - dataBits, false));
    ParityOfZeros(8 - dataBits);
  }

  /** Round trip: the samples of a transmitted character decode to its masked byte with no flag set. */
  lemma DecodeOfFrame(f: Format, data: Byte)
    requires f.Valid()
    ensures DecodeSamples(f, Frame(f, data)) == Record(Mask(data, f.dataBits), false, false, false)
  {
    var s := Frame(f, data);
    assert s[1..1 + f.dataBits] == data[..f.dataBits];
    assert StopField(f, s) == Fill(f.stopBits, true);
    ParityAgrees(data, f.dataBits);
  }

  /** Converse: a low start sample and a clean record pin down every sample of the character. */
  lemma FrameOfDecode(f: Format, samples: seq<bool>)
    requires f.Valid() && |samples| == f.Length() && !samples[0]
    requires var r := DecodeSamples(f, samples); !r.frameError && !r.parityError
    ensures samples == Frame(f, DataField(f, samples))
  {
    var data := DataField(f, samples);
    var n := f.dataBits;
    assert data[..n] == samples[1..1 + n];
    ParityAgrees(data, n);
    assert Mask(data, n) == data;
    StopsHigh(StopField(f, samples));
    assert samples == samples[..1 + n] + samples[1 + n..f.Length() - f.stopBits] + StopField(f, samples);
    assert samples[..1 + n] == [false] + data[..n];
    assert f.HasParity() ==> samples[1 + n..f.Length() - f.stopBits] == [samples[1 + n]];
    hide Parity, Mask, StopField;
  }

  lemma StopsHigh(stops: seq<bool>)
    requires false !in stops
    ensures stops == Fill(|stops|, true)
  {
    forall i | 0 <= i < |stops|
      ensures stops[i]
    {
      assert stops[i] in stops;
    }
  }

  // ---- What parity means ----

  function Ones(bits: seq<bool>): nat {
    if bits == [] then 0 else (if bits[0] then 1 else 0) + Ones(bits[1..])
  }

  lemma {:induction false} ParityIsOdd(bits: seq<bool>)
    ensures Parity(bits) <==> Ones(bits) % 2 == 1
  {
    if bits != [] {
      ParityIsOdd(bits[1..]);
    }
  }

  /** The data bits of a frame and its parity bit hold an even number of ones for parity code 1 and an odd number
      for code 2; for the other two codes there is no parity bit. */
  lemma FrameParity(f: Format, data: Byte)
    requires f.Valid()
    ensures f.parity == 1 ==> Ones(Frame(f, data)[1..2 + f.dataBits]) % 2 == 0
    ensures f.parity == 2 ==> Ones(Frame(f, data)[1..2 + f.dataBits]) % 2 == 1
    ensures f.parity == 1 || f.parity == 2 <==> |Frame(f, data)| == 2 + f.dataBits + f.stopBits
    ensures f.parity == 0 || f.parity == 3 <==> |Frame(f, data)| == 1 + f.dataBits + f.stopBits
  {
    if f.parity == 1 || f.parity == 2 {
      var bit := ParityBit(data, f.dataBits, f.parity);
      var field := Frame(f, data)[1..2 + f.dataBits];
      assert field == data[..f.dataBits] + [bit];
      ParityIsOdd(field);
      ParityAppend(data[..f.dataBits], [bit]);
      assert [bit][1..] == [];
      hide Frame;
    }
  }

  /** What the format codes mean: five to eight data bits, two stop bits for code 1 alone. */
  lemma CodesMean(cfg: Config)
    ensures Latch(cfg).dataBits == 5 + cfg.dataCode
    ensures Latch(cfg).stopBits == if cfg.stopCode == 1 then 2 else 1
    ensures Latch(cfg).parity == cfg.parityCode
  {
  }
}
