/** The UART agents of the testbench: `send_item_` writes a character on the line, the receiving agent polls the
    line and `capture_frame_` reads a character back. Time is counted in clock edges; entry e of a waveform is
    the level read at edge e. */
module VipCodec {
  import opened UartFormat
  import opened Arithmetic

  datatype UartParity = NONE | EVEN | ODD

  datatype UartParams = UartParams(dataBits: nat, stopBits: nat, parity: UartParity, bitClks: nat,
                                   sampleClkIndex: nat, idleHigh: bool, lsbFirst: bool, idlePollClks: nat)
  {
    predicate Valid() {
      && 5 <= dataBits <= 8 && 1 <= stopBits <= 2
      && bitClks > 0 && 0 < sampleClkIndex <= bitClks
    }

    predicate ParityEnable() {
      parity != NONE
    }

    function BitsPerFrame(): nat {
      1 + dataBits + (if ParityEnable() then 1 else 0) + stopBits
    }

    /** Clock edges between two polls of an idle line. */
    function Poll(): (p: nat)
      ensures p >= 1
    {
      if idlePollClks == 0 then 1 else idlePollClks
    }

    /** Every sample point stays inside its bit wherever the poll first sees the start bit. */
    predicate Aligned() {
      sampleClkIndex + Poll() - 1 < bitClks
    }

    /** The same on the raw parameters; a poll interval of zero counts as one. */
    lemma AlignedExactly()
      ensures Aligned() <==> sampleClkIndex < bitClks && sampleClkIndex + idlePollClks <= bitClks
    {
    }
  }

  datatype VFrame = VFrame(data: Byte, parityError: bool, framingError: bool, breakDetect: bool)

  datatype TxItem = TxItem(data: Byte, forceBadStop: bool, forceBadParity: bool)

  /** `uart_parity_bit`. */
  function ParityLevel(data: Byte, params: UartParams): bool
    requires params.Valid()
  {
    match params.parity
    case EVEN => Parity(data[..params.dataBits])
    case ODD => !Parity(data[..params.dataBits])
    case NONE => false
  }

  /** `uart_data_parity`: the loop over the data bits is a reduction xor. */
  method DataParity(data: Byte, dataBits: nat) returns (parity: bool)
    ensures parity == Parity(data[..if dataBits > 8 then 8 else dataBits])
  {
    parity := false;
    var n := if dataBits > 8 then 8 else dataBits;
    for i := 0 to n
      invariant parity == Parity(data[..i])
    {
      ParityAppend(data[..i], [data[i]]);
      assert data[..i + 1] == data[..i] + [data[i]];
      parity := parity != data[i];
    }
  }

  /** Which data bit travels in place i. */
  function BitAt(params: UartParams, i: nat): (b: nat)
    requires i < params.dataBits
    ensures b < params.dataBits
  {
    if params.lsbFirst then i else params.dataBits - 1 - i
  }

  lemma BitAtInvolution(params: UartParams, i: nat)
    requires i < params.dataBits
    ensures BitAt(params, BitAt(params, i)) == i
  {
  }

  /** No two places carry the same data bit. */
  lemma BitAtInjective(params: UartParams, i: nat)
    requires i < params.dataBits
    ensures forall j :: 0 <= j < params.dataBits ==> (BitAt(params, j) == i <==> j == BitAt(params, i))
  {
  }

  // ---- Sending ----

  function DataLevels(params: UartParams, data: Byte): (s: seq<bool>)
    requires params.Valid()
    ensures |s| == params.dataBits
  {
    seq(params.dataBits, i requires 0 <= i < params.dataBits => data[BitAt(params, i)])
  }

  /** The levels of one character, one per bit period. */
  function Levels(params: UartParams, item: TxItem): (s: seq<bool>)
    requires params.Valid()
    ensures |s| == params.BitsPerFrame()
  {
    [!params.idleHigh]
    + DataLevels(params, item.data)
    + (if params.ParityEnable() then [ParityLevel(item.data, params) != item.forceBadParity] else [])
    + Fill(params.stopBits, params.idleHigh != item.forceBadStop)
  }

  /** Every level held for n edges. */
  function Stretch(levels: seq<bool>, n: nat): (w: seq<bool>)
    ensures |w| == |levels| * n
  {
    if levels == [] then []
    else
      assert |levels| * n == (|levels| - 1) * n + n;
      Stretch(levels[..|levels| - 1], n) + Fill(n, levels[|levels| - 1])
  }

  /** `send_item_`: drives the line bit by bit. */
  method SendItem(params: UartParams, item: TxItem) returns (wave: seq<bool>)
    requires params.Valid()
    ensures wave == Stretch(Levels(params, item), params.bitClks)
  {
    hide Levels, Stretch, Parity;
    var n := params.bitClks;
    ghost var levels := Levels(params, item);
    LevelsContents(params, item);
    var startLevel, stopLevel := !params.idleHigh, params.idleHigh;
    StretchFirst(levels, n);
    wave := Fill(n, startLevel);
    for bit := 0 to params.dataBits
      invariant wave == Stretch(levels[..1 + bit], n)
    {
      var srcBit := if params.lsbFirst then bit else params.dataBits - 1 - bit;
      assert levels[1 + bit] == item.data[BitAt(params, bit)];
      StretchNext(levels, 1 + bit, n);
      wave := wave + Fill(n, item.data[srcBit]);
    }
    ghost var base := 1 + params.dataBits;
    if params.ParityEnable() {
      var odd := DataParity(item.data, params.dataBits);
      var parityBit := if params.parity == EVEN then odd else !odd;
      if item.forceBadParity {
        parityBit := !parityBit;
      }
      StretchNext(levels, base, n);
      wave := wave + Fill(n, parityBit);
      base := base + 1;
    }
    for stop := 0 to params.stopBits
      invariant wave == Stretch(levels[..base + stop], n)
    {
      var stopBit := if item.forceBadStop then !stopLevel else stopLevel;
      StretchNext(levels, base + stop, n);
      wave := wave + Fill(n, stopBit);
    }
    assert levels[..|levels|] == levels;
  }

  /** Level by level. */
  lemma LevelsContents(params: UartParams, item: TxItem)
    requires params.Valid()
    ensures var levels, base := Levels(params, item), params.BitsPerFrame() - params.stopBits;
            && levels[0] == !params.idleHigh
            && (forall i :: 0 <= i < params.dataBits ==> levels[1 + i] == item.data[BitAt(params, i)])
            && (params.ParityEnable() ==>
                  levels[1 + params.dataBits] == (ParityLevel(item.data, params) != item.forceBadParity))
            && (forall i :: base <= i < |levels| ==> levels[i] == (params.idleHigh != item.forceBadStop))
  {
  }

  /** The data bits travel least or most significant first. */
  lemma BitOrder(params: UartParams, item: TxItem)
    requires params.Valid()
    ensures var sent := Levels(params, item)[1..1 + params.dataBits];
            forall i :: 0 <= i < params.dataBits ==>
              sent[i] == if params.lsbFirst then item.data[i] else item.data[params.dataBits - 1 - i]
  {
  }

  lemma StretchFirst(levels: seq<bool>, n: nat)
    requires levels != []
    ensures Stretch(levels[..1], n) == Fill(n, levels[0])
  {
    assert levels[..1][..0] == [];
    assert Stretch([], n) == [];
  }

  lemma StretchNext(levels: seq<bool>, k: nat, n: nat)
    requires k < |levels|
    ensures Stretch(levels[..k + 1], n) == Stretch(levels[..k], n) + Fill(n, levels[k])
  {
    assert levels[..k + 1][..k] == levels[..k];
  }

  // ---- Receiving ----

  /** The record of one list of samples. */
  function Decode(params: UartParams, samples: seq<bool>): VFrame
    requires params.Valid() && |samples| == params.BitsPerFrame()
  {
    var data := CapturedData(params, samples[1..1 + params.dataBits]);
    var stops := samples[params.BitsPerFrame() - params.stopBits..];
    var framing := samples[0] == params.idleHigh || !params.idleHigh in stops;
    VFrame(data,
           params.ParityEnable() && samples[1 + params.dataBits] != ParityLevel(data, params),
           framing,
           framing && data == ZERO_BYTE && params.idleHigh !in stops)
  }

  function CapturedData(params: UartParams, bits: seq<bool>): Byte
    requires params.Valid() && |bits| == params.dataBits
  {
    seq(params.dataBits, i requires 0 <= i < params.dataBits => bits[BitAt(params, i)])
    + Fill(8 - params.dataBits, false)
  }

  /** Sample k of a capture that starts at edge e. */
  function SampleEdge(params: UartParams, e: nat, k: nat): nat {
    e + params.sampleClkIndex + k * params.bitClks
  }

  function Samples(params: UartParams, wave: seq<bool>, e: nat): (s: seq<bool>)
    requires params.Valid() && SampleEdge(params, e, params.BitsPerFrame() - 1) < |wave|
    ensures |s| == params.BitsPerFrame()
  {
    EdgesInside(params, e, |wave|);
    seq(params.BitsPerFrame(), k requires 0 <= k < params.BitsPerFrame() => wave[SampleEdge(params, e, k)])
  }

  lemma EdgesInside(params: UartParams, e: nat, n: nat)
    requires params.Valid() && SampleEdge(params, e, params.BitsPerFrame() - 1) < n
    ensures forall k :: 0 <= k < params.BitsPerFrame() ==> SampleEdge(params, e, k) < n
  {
    forall k | 0 <= k < params.BitsPerFrame()
      ensures SampleEdge(params, e, k) < n
    {
      MulMonotone(k, params.BitsPerFrame() - 1, params.bitClks);
    }
  }

  /** `capture_frame_`: waits to the middle of the start bit, then takes one sample per bit period. */
  method CaptureFrame(params: UartParams, wave: seq<bool>, e: nat) returns (frame: VFrame, end: nat)
    requires params.Valid() && SampleEdge(params, e, params.BitsPerFrame() - 1) < |wave|
    ensures frame == Decode(params, Samples(params, wave, e))
    ensures end == SampleEdge(params, e, params.BitsPerFrame() - 1)
  {
    hide Parity, SampleEdge, Samples, CapturedData, ParityLevel;
    ghost var samples := Samples(params, wave, e);
    FirstEdge(params, e);
    SampleShown(params, wave, e, 0);
    var startFault := wave[e + params.sampleClkIndex] == params.idleHigh;
    var data;
    data, end := CaptureData(params, wave, e, samples);
    ghost var taken := params.dataBits;
    var parityError := false;
    if params.ParityEnable() {
      NextEdge(params, e, taken);
      SampleShown(params, wave, e, taken + 1);
      end := end + params.bitClks;
      taken := taken + 1;
      parityError := wave[end] != ParityLevel(data, params);
    }
    var stopFault, allStopLow;
    StopSamples(params, wave, e, taken);
    stopFault, allStopLow, end := CaptureStops(params, wave, e, taken, end, samples[taken + 1..]);
    var framingError := startFault || stopFault;
    frame := VFrame(data, parityError, framingError, framingError && data == ZERO_BYTE && allStopLow);
  }

  lemma SampleShown(params: UartParams, wave: seq<bool>, e: nat, k: nat)
    requires params.Valid() && SampleEdge(params, e, params.BitsPerFrame() - 1) < |wave| && k < params.BitsPerFrame()
    ensures SampleEdge(params, e, k) < |wave| && Samples(params, wave, e)[k] == wave[SampleEdge(params, e, k)]
  {
    EdgesInside(params, e, |wave|);
  }

  method CaptureData(params: UartParams, wave: seq<bool>, e: nat, ghost samples: seq<bool>)
    returns (data: Byte, end: nat)
    requires params.Valid() && SampleEdge(params, e, params.BitsPerFrame() - 1) < |wave|
    requires samples == Samples(params, wave, e)
    ensures data == CapturedData(params, samples[1..1 + params.dataBits])
    ensures end == SampleEdge(params, e, params.dataBits)
  {
    FirstEdge(params, e);
    hide SampleEdge, Samples;
    end := e + params.sampleClkIndex;
    data := ZERO_BYTE;
    for bit := 0 to params.dataBits
      invariant end == SampleEdge(params, e, bit)
      invariant |data| == 8
      invariant forall j :: 0 <= j < 8 ==>
                  data[j] == (j < params.dataBits && BitAt(params, j) < bit && samples[1 + BitAt(params, j)])
    {
      NextEdge(params, e, bit);
      SampleShown(params, wave, e, bit + 1);
      end := end + params.bitClks;
      var sample := wave[end];
      assert samples[1 + bit] == sample;
      BitAtInjective(params, bit);
      var dstBit := if params.lsbFirst then bit else params.dataBits - 1 - bit;
      if sample {
        data := data[dstBit := true];
      }
    }
  }

  method CaptureStops(params: UartParams, wave: seq<bool>, e: nat, ghost taken: nat, end0: nat, ghost stops: seq<bool>)
    returns (fault: bool, allStopLow: bool, end: nat)
    requires |stops| == params.stopBits && end0 == SampleEdge(params, e, taken)
    requires forall i :: 0 <= i < |stops| ==> ShowsAt(params, wave, e, taken + 1 + i, stops[i])
    ensures fault == (!params.idleHigh in stops) && allStopLow == (params.idleHigh !in stops)
    ensures end == SampleEdge(params, e, taken + params.stopBits)
  {
    hide SampleEdge;
    SomeStopMeans(stops, |stops|, params.idleHigh);
    SomeStopMeans(stops, |stops|, !params.idleHigh);
    fault, allStopLow, end := false, true, end0;
    for stop := 0 to params.stopBits
      invariant end == SampleEdge(params, e, taken + stop)
      invariant fault == SomeStop(stops, stop, !params.idleHigh)
      invariant allStopLow == !SomeStop(stops, stop, params.idleHigh)
    {
      NextEdge(params, e, taken + stop);
      assert ShowsAt(params, wave, e, taken + 1 + stop, stops[stop]);
      end := end + params.bitClks;
      fault := fault || wave[end] != params.idleHigh;
      allStopLow := allStopLow && wave[end] == !params.idleHigh;
    }
  }

  /** Sample k reads the given level. */
  predicate ShowsAt(params: UartParams, wave: seq<bool>, e: nat, k: nat, level: bool) {
    SampleEdge(params, e, k) < |wave| && wave[SampleEdge(params, e, k)] == level
  }

  lemma StopSamples(params: UartParams, wave: seq<bool>, e: nat, taken: nat)
    requires params.Valid() && SampleEdge(params, e, params.BitsPerFrame() - 1) < |wave|
    requires taken + 1 + params.stopBits == params.BitsPerFrame()
    ensures var stops := Samples(params, wave, e)[taken + 1..];
            |stops| == params.stopBits
            && forall i :: 0 <= i < |stops| ==> ShowsAt(params, wave, e, taken + 1 + i, stops[i])
  {
    EdgesInside(params, e, |wave|);
  }

  /** One of the first k samples has the given level. */
  predicate SomeStop(stops: seq<bool>, k: nat, level: bool)
    requires k <= |stops|
  {
    k > 0 && (SomeStop(stops, k - 1, level) || stops[k - 1] == level)
  }

  lemma {:induction false} SomeStopMeans(stops: seq<bool>, k: nat, level: bool)
    requires k <= |stops|
    ensures SomeStop(stops, k, level) <==> exists i :: 0 <= i < k && stops[i] == level
  {
    if k > 0 {
      SomeStopMeans(stops, k - 1, level);
    }
  }

  lemma Later(params: UartParams, e: nat, k: nat)
    requires params.Valid()
    ensures SampleEdge(params, e, k) > e
  {
  }

  lemma FirstEdge(params: UartParams, e: nat)
    ensures SampleEdge(params, e, 0) == e + params.sampleClkIndex
  {
  }

  lemma NextEdge(params: UartParams, e: nat, k: nat)
    ensures SampleEdge(params, e, k + 1) == SampleEdge(params, e, k) + params.bitClks
  {
  }

  /** Everything the receiving agent records from edge e to the end of the waveform. */
  function CaptureAll(params: UartParams, wave: seq<bool>, e: nat): seq<VFrame>
    requires params.Valid()
    decreases |wave| - e
  {
    if e >= |wave| then []
    else if wave[e] == params.idleHigh then CaptureAll(params, wave, e + params.Poll())
    else
      var end := SampleEdge(params, e, params.BitsPerFrame() - 1);
      if end >= |wave| then []
      else [Decode(params, Samples(params, wave, e))] + CaptureAll(params, wave, end)
  }

  /** The `agent` loop of the receiver, run to the end of a waveform. */
  method Agent(params: UartParams, wave: seq<bool>) returns (history: seq<VFrame>)
    requires params.Valid()
    ensures history == CaptureAll(params, wave, 0)
  {
    hide Decode, Samples, SampleEdge;
    history := [];
    var e := 0;
    while e < |wave|
      invariant history + CaptureAll(params, wave, e) == CaptureAll(params, wave, 0)
      decreases |wave| - e
    {
      if wave[e] == params.idleHigh {
        e := e + params.Poll();
      } else if SampleEdge(params, e, params.BitsPerFrame() - 1) < |wave| {
        ghost var rest := CaptureAll(params, wave, e);
        var frame, end := CaptureFrame(params, wave, e);
        assert rest == [frame] + CaptureAll(params, wave, end);
        assert history + rest == (history + [frame]) + CaptureAll(params, wave, end);
        history := history + [frame];
        Later(params, e, params.BitsPerFrame() - 1);
        e := end;
      } else {
        return;
      }
    }
  }

  // ---- Round trip ----

  /** What a sent item should be recorded as. */
  function Expected(params: UartParams, item: TxItem): VFrame
    requires params.Valid()
  {
    var data := Mask(item.data, params.dataBits);
    VFrame(data, params.ParityEnable() && item.forceBadParity, item.forceBadStop,
           item.forceBadStop && data == ZERO_BYTE)
  }

  lemma CapturedLevels(params: UartParams, data: Byte)
    requires params.Valid()
    ensures CapturedData(params, DataLevels(params, data)) == Mask(data, params.dataBits)
  {
    var c, m := CapturedData(params, DataLevels(params, data)), Mask(data, params.dataBits);
    forall j | 0 <= j < 8
      ensures c[j] == m[j]
    {
      if j < params.dataBits {
        BitAtInvolution(params, j);
      }
    }
  }

  /** Decoding the levels of an item: parity errors exactly where forced and enabled, framing errors exactly
      where forced, and then a break exactly when the masked data is zero. */
  lemma DecodeLevels(params: UartParams, item: TxItem)
    requires params.Valid()
    ensures Decode(params, Levels(params, item)) == Expected(params, item)
  {
    var levels, n := Levels(params, item), params.dataBits;
    CapturedLevels(params, item.data);
    assert levels[1..1 + n] == DataLevels(params, item.data);
    assert Mask(item.data, n)[..n] == item.data[..n];
    var stops := levels[params.BitsPerFrame() - params.stopBits..];
    assert stops == Fill(params.stopBits, params.idleHigh != item.forceBadStop);
    assert stops[0] in stops;
    hide Parity;
  }

  /** An item and the idle edges after it: inter-frame gap, polls of an empty queue, waits for RTS. */
  datatype Sent = Sent(item: TxItem, gap: nat)

  function Slot(params: UartParams, s: Sent): seq<bool>
    requires params.Valid()
  {
    Stretch(Levels(params, s.item), params.bitClks) + Fill(s.gap, params.idleHigh)
  }

  /** Items sent one after the other, back to back where the gap is 0. */
  function Burst(params: UartParams, items: seq<Sent>): seq<bool>
    requires params.Valid()
  {
    if items == [] then [] else Slot(params, items[0]) + Burst(params, items[1..])
  }

  function ExpectedAll(params: UartParams, items: seq<Sent>): (s: seq<VFrame>)
    requires params.Valid()
    ensures |s| == |items|
  {
    if items == [] then [] else [Expected(params, items[0].item)] + ExpectedAll(params, items[1..])
  }

  lemma {:induction false} StretchAt(levels: seq<bool>, n: nat, k: nat, j: nat)
    requires k < |levels| && j < n
    ensures k * n + j < |levels| * n
    ensures Stretch(levels, n)[k * n + j] == levels[k]
  {
    MulMonotone(k + 1, |levels|, n);
    assert (k + 1) * n == k * n + n;
    var last := |levels| - 1;
    assert |levels| * n == last * n + n;
    if k < last {
      MulMonotone(k + 1, last, n);
      StretchAt(levels[..last], n, k, j);
    }
  }

  /** The line is at idle level from edge e up to edge n. */
  predicate IdleBetween(params: UartParams, wave: seq<bool>, e: nat, n: nat) {
    forall i :: e <= i < n && i < |wave| ==> wave[i] == params.idleHigh
  }

  /** Polling an idle line finds nothing until the idle stretch is over, and overshoots by less than a poll. */
  lemma {:induction false} SkipIdle(params: UartParams, wave: seq<bool>, e: nat, n: nat) returns (e': nat)
    requires params.Valid() && IdleBetween(params, wave, e, n) && n <= |wave| && e < n + params.Poll()
    ensures n <= e' < n + params.Poll()
    ensures CaptureAll(params, wave, e) == CaptureAll(params, wave, e')
    decreases n - e
  {
    if e < n {
      e' := SkipIdle(params, wave, e + params.Poll(), n);
    } else {
      e' := e;
    }
  }

  /** The waveform shows the given levels, one per bit period, from edge `start` on. */
  predicate Shows(params: UartParams, wave: seq<bool>, start: nat, levels: seq<bool>) {
    start + |levels| * params.bitClks <= |wave|
    && wave[start..start + |levels| * params.bitClks] == Stretch(levels, params.bitClks)
  }

  /** With aligned parameters every sample of a capture that begins less than a poll after the start edge falls
      into its own bit, whatever the levels are. */
  lemma CaptureAligned(params: UartParams, wave: seq<bool>, start: nat, e: nat, levels: seq<bool>)
    requires params.Valid() && params.Aligned() && |levels| == params.BitsPerFrame()
    requires Shows(params, wave, start, levels) && start <= e < start + params.Poll()
    ensures e < |wave| && wave[e] == levels[0]
    ensures var end := SampleEdge(params, e, params.BitsPerFrame() - 1);
            && start + (|levels| - 1) * params.bitClks <= end < start + |levels| * params.bitClks
            && Samples(params, wave, e) == levels
  {
    hide Stretch;
    var n, last := params.bitClks, |levels| - 1;
    assert |levels| * n == last * n + n;
    MulMonotone(1, |levels|, n);
    StretchAt(levels, n, 0, e - start);
    assert wave[start..start + |levels| * n][e - start] == wave[e];
    forall k | 0 <= k < |levels|
      ensures SampleEdge(params, e, k) < |wave| && wave[SampleEdge(params, e, k)] == levels[k]
    {
      var j := e - start + params.sampleClkIndex;
      StretchAt(levels, n, k, j);
      assert SampleEdge(params, e, k) == start + (k * n + j);
      assert wave[start..start + |levels| * n][k * n + j] == wave[start + (k * n + j)];
    }
  }

  lemma IdleLastBit(params: UartParams, wave: seq<bool>, start: nat, e: nat, levels: seq<bool>)
    requires params.Valid() && levels != [] && levels[|levels| - 1] == params.idleHigh
    requires Shows(params, wave, start, levels) && e >= start + (|levels| - 1) * params.bitClks
    ensures IdleBetween(params, wave, e, start + |levels| * params.bitClks)
  {
    var n, last := params.bitClks, |levels| - 1;
    assert |levels| * n == last * n + n;
    forall i | e <= i < start + |levels| * n && i < |wave|
      ensures wave[i] == params.idleHigh
    {
      var j := i - start - last * n;
      StretchAt(levels, n, last, j);
      assert wave[start..start + |levels| * n][last * n + j] == wave[i];
    }
  }

  /** The frame of an item and its gap, as pieces of the waveform. */
  lemma SlotPieces(params: UartParams, s: Sent, wave: seq<bool>, start: nat)
    requires params.Valid() && start + |Slot(params, s)| <= |wave|
    requires wave[start..start + |Slot(params, s)|] == Slot(params, s)
    ensures Shows(params, wave, start, Levels(params, s.item))
    ensures var next := start + |Stretch(Levels(params, s.item), params.bitClks)|;
            next + s.gap == start + |Slot(params, s)| && IdleBetween(params, wave, next, next + s.gap)
  {
    hide Levels, Stretch;
    var first, rest := Stretch(Levels(params, s.item), params.bitClks), Fill(s.gap, params.idleHigh);
    SplitBurst(wave, start, first, rest);
    var next := start + |first|;
    forall i | next <= i < next + s.gap && i < |wave|
      ensures wave[i] == params.idleHigh
    {
      assert wave[next..next + s.gap][i - next] == rest[i - next];
    }
  }

  /** From an idle stretch on, a burst of items with good stop bits is recorded item by item, up to a point in
      the idle stretch behind it. */
  lemma {:induction false} BurstCaptured(params: UartParams, items: seq<Sent>, wave: seq<bool>, e: nat, start: nat)
    returns (end: nat)
    requires params.Valid() && params.Aligned()
    requires forall i :: 0 <= i < |items| ==> !items[i].item.forceBadStop
    requires e < start + params.Poll() && IdleBetween(params, wave, e, start)
    requires start + |Burst(params, items)| <= |wave|
    requires wave[start..start + |Burst(params, items)|] == Burst(params, items)
    ensures var next := start + |Burst(params, items)|;
            end < next + params.Poll() && IdleBetween(params, wave, end, next)
    ensures CaptureAll(params, wave, e) == ExpectedAll(params, items) + CaptureAll(params, wave, end)
    decreases |items|
  {
    hide Levels, Stretch, Expected, CaptureAll, Slot, IdleBetween, Shows;
    if items == [] {
      end := e;
    } else {
      var first := Slot(params, items[0]);
      SplitBurst(wave, start, first, Burst(params, items[1..]));
      SlotPieces(params, items[0], wave, start);
      var e' := OneItem(params, items[0].item, wave, e, start);
      IdleJoin(params, wave, e', start + |first| - items[0].gap, start + |first|);
      end := BurstCaptured(params, items[1..], wave, e', start + |first|);
    }
  }

  lemma IdleJoin(params: UartParams, wave: seq<bool>, a: nat, b: nat, c: nat)
    requires IdleBetween(params, wave, a, b) && IdleBetween(params, wave, b, c)
    ensures IdleBetween(params, wave, a, c)
  {
  }

  /** One item with good stop bits is recorded as it should be, and the line is idle until the next one. */
  lemma OneItem(params: UartParams, item: TxItem, wave: seq<bool>, e: nat, start: nat) returns (end: nat)
    requires params.Valid() && params.Aligned() && !item.forceBadStop
    requires e < start + params.Poll() && IdleBetween(params, wave, e, start)
    requires Shows(params, wave, start, Levels(params, item))
    ensures var next := start + |Stretch(Levels(params, item), params.bitClks)|;
            end < next <= |wave| && IdleBetween(params, wave, end, next)
    ensures CaptureAll(params, wave, e) == [Expected(params, item)] + CaptureAll(params, wave, end)
  {
    hide Levels, Decode, Expected, CaptureAll, Samples, SampleEdge, Shows, Stretch, IdleBetween;
    var levels := Levels(params, item);
    LevelsContents(params, item);
    DecodeLevels(params, item);
    ShowsInside(params, wave, start, levels);
    var e' := SkipIdle(params, wave, e, start);
    CaptureAligned(params, wave, start, e', levels);
    end := SampleEdge(params, e', params.BitsPerFrame() - 1);
    IdleLastBit(params, wave, start, end, levels);
    CaptureHere(params, wave, e');
  }

  lemma ShowsInside(params: UartParams, wave: seq<bool>, start: nat, levels: seq<bool>)
    requires Shows(params, wave, start, levels)
    ensures start + |levels| * params.bitClks <= |wave|
  {
  }

  lemma CaptureHere(params: UartParams, wave: seq<bool>, e: nat)
    requires params.Valid() && e < |wave| && wave[e] != params.idleHigh
    requires SampleEdge(params, e, params.BitsPerFrame() - 1) < |wave|
    ensures CaptureAll(params, wave, e)
         == [Decode(params, Samples(params, wave, e))]
            + CaptureAll(params, wave, SampleEdge(params, e, params.BitsPerFrame() - 1))
  {
    hide Decode, Samples, SampleEdge;
  }

  lemma SplitBurst(wave: seq<bool>, start: nat, first: seq<bool>, rest: seq<bool>)
    requires start + |first + rest| <= |wave|
    requires wave[start..start + |first + rest|] == first + rest
    ensures wave[start..start + |first|] == first
    ensures wave[start + |first|..start + |first| + |rest|] == rest
  {
    var w := wave[start..start + |first + rest|];
    assert wave[start..start + |first|] == w[..|first|];
    assert wave[start + |first|..start + |first| + |rest|] == w[|first|..];
  }

  /** Codec round trip. For aligned parameters, either polarity and either bit order, any sequence of items
      without forced bad stops, with any gaps between them, is captured as the same list of frames, and parity
      errors are recorded exactly where they were forced with parity enabled. */
  lemma RoundTrip(params: UartParams, items: seq<Sent>, before: nat, after: nat)
    requires params.Valid() && params.Aligned()
    requires forall i :: 0 <= i < |items| ==> !items[i].item.forceBadStop
    ensures CaptureAll(params, Fill(before, params.idleHigh) + Burst(params, items) + Fill(after, params.idleHigh), 0)
         == ExpectedAll(params, items)
  {
    hide Burst, ExpectedAll;
    var burst, idle := Burst(params, items), params.idleHigh;
    var wave := Fill(before, idle) + burst + Fill(after, idle);
    Embed(Fill(before, idle), burst, Fill(after, idle));
    var e := BurstCaptured(params, items, wave, 0, before);
    IdleRest(params, wave, e, before + |burst|);
  }

  /** Nothing is captured from an idle rest. */
  lemma IdleRest(params: UartParams, wave: seq<bool>, e: nat, n: nat)
    requires params.Valid() && IdleBetween(params, wave, e, n) && IdleBetween(params, wave, n, |wave|)
    requires e < n + params.Poll() && n <= |wave|
    ensures CaptureAll(params, wave, e) == []
  {
    IdleJoin(params, wave, e, n, |wave|);
    var end := SkipIdle(params, wave, e, |wave|);
  }

  lemma Embed(a: seq<bool>, b: seq<bool>, c: seq<bool>)
    ensures (a + b + c)[|a|..|a| + |b|] == b
    ensures forall i :: 0 <= i < |a| ==> (a + b + c)[i] == a[i]
    ensures forall i :: 0 <= i < |c| ==> (a + b + c)[|a| + |b| + i] == c[i]
  {
  }

  /** A forced bad stop with an idle stretch of a frame behind it: the item itself is recorded as it should be,
      then the agent, which polls levels and not edges, finds the line still active and records one frame that
      nobody sent. */
  lemma BadStopItem(params: UartParams, item: TxItem, wave: seq<bool>, e: nat, start: nat, gap: nat) returns (end: nat)
    requires params.Valid() && params.Aligned() && item.forceBadStop
    requires e < start + params.Poll() && IdleBetween(params, wave, e, start)
    requires Shows(params, wave, start, Levels(params, item)) && gap >= params.BitsPerFrame() * params.bitClks
    requires var next := start + |Stretch(Levels(params, item), params.bitClks)|;
             next + gap <= |wave| && IdleBetween(params, wave, next, next + gap)
    ensures var next := start + |Stretch(Levels(params, item), params.bitClks)|;
            end < next + gap && IdleBetween(params, wave, end, next + gap)
    ensures |CaptureAll(params, wave, e)| == 2 + |CaptureAll(params, wave, end)|
    ensures CaptureAll(params, wave, e)[0] == Expected(params, item)
  {
    hide Levels, Stretch, Decode, Expected, CaptureAll, Samples, SampleEdge, Shows;
    var e' := FirstOfTwo(params, item, wave, e, start);
    var next := start + |Stretch(Levels(params, item), params.bitClks)|;
    SecondCapture(params, e', next, gap);
    SecondLate(params, e', start, next, item);
    CaptureHere(params, wave, e');
    end := SampleEdge(params, e', params.BitsPerFrame() - 1);
  }

  /** The item itself; the line is still active at the last sample. */
  lemma FirstOfTwo(params: UartParams, item: TxItem, wave: seq<bool>, e: nat, start: nat) returns (end: nat)
    requires params.Valid() && params.Aligned() && item.forceBadStop
    requires e < start + params.Poll() && IdleBetween(params, wave, e, start)
    requires Shows(params, wave, start, Levels(params, item))
    ensures start + (params.BitsPerFrame() - 1) * params.bitClks <= end
         < start + |Stretch(Levels(params, item), params.bitClks)|
    ensures end < |wave| && wave[end] != params.idleHigh
    ensures CaptureAll(params, wave, e) == [Expected(params, item)] + CaptureAll(params, wave, end)
  {
    hide Levels, Decode, Expected, CaptureAll, Samples, SampleEdge, Shows, Stretch;
    var levels := Levels(params, item);
    LevelsContents(params, item);
    DecodeLevels(params, item);
    ShowsInside(params, wave, start, levels);
    var e' := SkipIdle(params, wave, e, start);
    CaptureAligned(params, wave, start, e', levels);
    end := SampleEdge(params, e', params.BitsPerFrame() - 1);
    BadStopStillThere(params, wave, start, end, levels);
    CaptureHere(params, wave, e');
  }

  /** The second capture ends behind the frame. */
  lemma SecondLate(params: UartParams, e: nat, start: nat, next: nat, item: TxItem)
    requires params.Valid() && start + (params.BitsPerFrame() - 1) * params.bitClks <= e
    requires next == start + |Stretch(Levels(params, item), params.bitClks)|
    ensures SampleEdge(params, e, params.BitsPerFrame() - 1) >= next
  {
    var k, n := params.BitsPerFrame() - 1, params.bitClks;
    assert |Levels(params, item)| == k + 1;
    assert (k + 1) * n == k * n + n;
    MulMonotone(1, k, n);
  }

  function BadStops(items: seq<Sent>): nat {
    if items == [] then 0 else (if items[0].item.forceBadStop then 1 else 0) + BadStops(items[1..])
  }

  /** Where a frame's length of idle line follows every item, one phantom frame is recorded for each forced bad
      stop, on top of the items. */
  lemma {:induction false} SpacedCount(params: UartParams, items: seq<Sent>, wave: seq<bool>, e: nat, start: nat)
    requires params.Valid() && params.Aligned()
    requires forall i :: 0 <= i < |items| ==> items[i].gap >= params.BitsPerFrame() * params.bitClks
    requires e < start + params.Poll() && IdleBetween(params, wave, e, start)
    requires start + |Burst(params, items)| <= |wave|
    requires wave[start..start + |Burst(params, items)|] == Burst(params, items)
    requires IdleBetween(params, wave, start + |Burst(params, items)|, |wave|)
    ensures |CaptureAll(params, wave, e)| == |items| + BadStops(items)
    decreases |items|
  {
    hide Levels, Stretch, Expected, CaptureAll, Slot, IdleBetween, Shows;
    if items == [] {
      IdleRest(params, wave, e, start);
    } else {
      var first := Slot(params, items[0]);
      SplitBurst(wave, start, first, Burst(params, items[1..]));
      SlotPieces(params, items[0], wave, start);
      var end;
      if items[0].item.forceBadStop {
        end := BadStopItem(params, items[0].item, wave, e, start, items[0].gap);
      } else {
        end := OneItem(params, items[0].item, wave, e, start);
        IdleJoin(params, wave, end, start + |first| - items[0].gap, start + |first|);
      }
      SpacedCount(params, items[1..], wave, end, start + |first|);
    }
  }

  lemma {:induction false} NoBadStops(items: seq<Sent>)
    ensures BadStops(items) == 0 <==> forall i :: 0 <= i < |items| ==> !items[i].item.forceBadStop
  {
    if items != [] {
      NoBadStops(items[1..]);
      assert forall i :: 1 <= i < |items| ==> items[i] == items[1..][i - 1];
    }
  }

  /** The exact condition of the round trip for spaced items: none has a forced bad stop. */
  lemma SpacedExact(params: UartParams, items: seq<Sent>, before: nat, after: nat)
    requires params.Valid() && params.Aligned()
    requires forall i :: 0 <= i < |items| ==> items[i].gap >= params.BitsPerFrame() * params.bitClks
    ensures CaptureAll(params, Fill(before, params.idleHigh) + Burst(params, items) + Fill(after, params.idleHigh), 0)
         == ExpectedAll(params, items)
       <==> forall i :: 0 <= i < |items| ==> !items[i].item.forceBadStop
  {
    hide Burst, CaptureAll;
    var burst, idle := Burst(params, items), params.idleHigh;
    var wave := Fill(before, idle) + burst + Fill(after, idle);
    Embed(Fill(before, idle), burst, Fill(after, idle));
    NoBadStops(items);
    if BadStops(items) == 0 {
      RoundTrip(params, items, before, after);
    } else {
      SpacedCount(params, items, wave, 0, before);
    }
  }

  /** A lone forced bad stop: its own record is right, and exactly one more follows. */
  lemma PhantomAfterBadStop(params: UartParams, item: TxItem, before: nat, after: nat)
    requires params.Valid() && params.Aligned() && item.forceBadStop
    requires after >= params.BitsPerFrame() * params.bitClks
    ensures var levels := Levels(params, item);
            var wave := Fill(before, params.idleHigh) + Stretch(levels, params.bitClks) + Fill(after, params.idleHigh);
            var history := CaptureAll(params, wave, 0);
            |history| == 2 && history[0] == Expected(params, item)
  {
    var idle := params.idleHigh;
    var body := Stretch(Levels(params, item), params.bitClks);
    var wave := Fill(before, idle) + body + Fill(after, idle);
    Embed(Fill(before, idle), body, Fill(after, idle));
    hide Levels, Stretch, Decode, Expected, CaptureAll, Shows;
    ShownBody(params, wave, before, Levels(params, item));
    var end := BadStopItem(params, item, wave, 0, before, after);
    IdleRest(params, wave, end, |wave|);
  }

  lemma ShownBody(params: UartParams, wave: seq<bool>, start: nat, levels: seq<bool>)
    requires start + |Stretch(levels, params.bitClks)| <= |wave|
    requires wave[start..start + |Stretch(levels, params.bitClks)|] == Stretch(levels, params.bitClks)
    ensures Shows(params, wave, start, levels)
  {
  }

  lemma BadStopStillThere(params: UartParams, wave: seq<bool>, start: nat, e: nat, levels: seq<bool>)
    requires levels != [] && levels[|levels| - 1] != params.idleHigh && Shows(params, wave, start, levels)
    requires start + (|levels| - 1) * params.bitClks <= e < start + |levels| * params.bitClks
    ensures e < |wave| && wave[e] != params.idleHigh
  {
    var n, last := params.bitClks, |levels| - 1;
    assert |levels| * n == last * n + n;
    StretchAt(levels, n, last, e - start - last * n);
    assert wave[start..start + |levels| * n][e - start] == wave[e];
  }

  lemma SecondCapture(params: UartParams, e: nat, next: nat, after: nat)
    requires params.Valid() && e < next && after >= params.BitsPerFrame() * params.bitClks
    ensures SampleEdge(params, e, params.BitsPerFrame() - 1) < next + after
  {
    var n := params.bitClks;
    assert params.BitsPerFrame() * n == (params.BitsPerFrame() - 1) * n + n;
  }

  /** The alignment condition is needed: without it there is an idle time before the first item, and an item,
      for which the agent samples every bit one period late and records something else. */
  lemma AlignmentNeeded(params: UartParams) returns (before: nat, item: TxItem)
    requires params.Valid() && !params.Aligned()
    ensures !item.forceBadStop
    ensures var wave := Fill(before, params.idleHigh) + Burst(params, [Sent(item, 0)]) + Fill(1, params.idleHigh);
            CaptureAll(params, wave, 0) != ExpectedAll(params, [Sent(item, 0)])
  {
    hide Levels, Stretch, Burst, Decode, CaptureAll;
    var n, p, idle := params.bitClks, params.Poll(), params.idleHigh;
    item := TxItem(Fill(8, idle), false, false);
    var delta := n - params.sampleClkIndex;
    before := if delta == 0 then 0 else p - delta;
    var levels := Levels(params, item);
    LevelsContents(params, item);
    assert levels[1] == item.data[BitAt(params, 0)];
    var body := Stretch(levels, n);
    BurstOfOne(params, item);
    var wave := Fill(before, idle) + body + Fill(1, idle);
    Embed(Fill(before, idle), body, Fill(1, idle));
    ShownBody(params, wave, before, levels);
    LateSamples(params, wave, before, delta, levels);
    assert item.data[BitAt(params, 0)] == idle;
    assert before > 0 ==> wave[0] == Fill(before, idle)[0];
    assert wave[before + delta] != idle;
    hide BitAt, SampleEdge;
    LateCapture(params, wave, before + delta, before);
  }

  lemma BurstOfOne(params: UartParams, item: TxItem)
    requires params.Valid()
    ensures Burst(params, [Sent(item, 0)]) == Stretch(Levels(params, item), params.bitClks)
    ensures ExpectedAll(params, [Sent(item, 0)]) == [Expected(params, item)]
  {
    assert [Sent(item, 0)][1..] == [];
  }

  /** Samples taken a whole bit period after the start edge. */
  lemma LateSamples(params: UartParams, wave: seq<bool>, start: nat, delta: nat, levels: seq<bool>)
    requires params.Valid() && delta + params.sampleClkIndex == params.bitClks && |levels| == params.BitsPerFrame()
    requires Shows(params, wave, start, levels) && start + |levels| * params.bitClks < |wave|
    ensures start + delta < |wave| && wave[start + delta] == levels[0]
    ensures SampleEdge(params, start + delta, 0) < |wave| && wave[SampleEdge(params, start + delta, 0)] == levels[1]
    ensures SampleEdge(params, start + delta, params.BitsPerFrame() - 1) < |wave|
  {
    var n := params.bitClks;
    assert |levels| * n == (|levels| - 1) * n + n;
    MulMonotone(2, |levels|, n);
    StretchAt(levels, n, 0, delta);
    StretchAt(levels, n, 1, 0);
    assert wave[start..start + |levels| * n][delta] == wave[start + delta];
    assert wave[start..start + |levels| * n][n] == wave[start + n];
  }

  lemma LateCapture(params: UartParams, wave: seq<bool>, e: nat, before: nat)
    requires params.Valid() && e < |wave| && wave[e] != params.idleHigh
    requires SampleEdge(params, e, params.BitsPerFrame() - 1) < |wave|
    requires SampleEdge(params, e, 0) < |wave| && wave[SampleEdge(params, e, 0)] == params.idleHigh
    requires e == 0 || (e == params.Poll() && wave[0] == params.idleHigh)
    ensures CaptureAll(params, wave, 0) != [] && CaptureAll(params, wave, 0)[0].framingError
  {
    CaptureHere(params, wave, e);
    assert Samples(params, wave, e)[0] == params.idleHigh;
  }

  // ---- The two decoders ----

  /** The testbench parameters that describe an RTL format on an idle-high, LSB-first line. */
  predicate Describes(params: UartParams, f: Format) {
    && params.dataBits == f.dataBits && params.stopBits == f.stopBits && params.idleHigh && params.lsbFirst
    && params.parity == (if f.parity == PARITY_EVEN then EVEN else if f.parity == PARITY_ODD then ODD else NONE)
  }

  /** The stop samples one by one. */
  lemma StopSet(f: Format, samples: seq<bool>)
    requires f.Valid() && |samples| == f.Length()
    ensures var stops, last := StopField(f, samples), f.Length() - 1;
            && stops == samples[f.Length() - f.stopBits..]
            && forall level :: level in stops <==> samples[last] == level || (f.stopBits == 2 && samples[last - 1] == level)
  {
    var stops := StopField(f, samples);
    assert stops == if f.stopBits == 1 then [samples[f.Length() - 1]]
                    else [samples[f.Length() - 2], samples[f.Length() - 1]];
  }

  /** The RTL decoder and the testbench decoder agree on every list of samples with a low start sample: same
      data, same parity error, same frame error; and the same break flag unless the data is zero and two stop
      samples differ. */
  lemma DecodersAgree(params: UartParams, f: Format, samples: seq<bool>)
    requires f.Valid() && params.Valid() && Describes(params, f)
    requires |samples| == f.Length() && !samples[0]
    ensures var r, v := DecodeSamples(f, samples), Decode(params, samples);
            && r.data == v.data && r.parityError == v.parityError && r.frameError == v.framingError
            && (r.breakDetect == v.breakDetect <==>
                  !(v.data == ZERO_BYTE && f.stopBits == 2 && samples[f.Length() - 1] != samples[f.Length() - 2]))
  {
    DataAgrees(params, f, samples);
    if f.HasParity() {
      ParityAgree(params, f, DataField(f, samples), samples[1 + f.dataBits]);
    }
    StopSet(f, samples);
    hide Parity, CapturedData, Mask, DataField, StopField, ParityError, ParityLevel;
  }

  lemma DataAgrees(params: UartParams, f: Format, samples: seq<bool>)
    requires f.Valid() && params.Valid() && Describes(params, f) && |samples| == f.Length()
    ensures CapturedData(params, samples[1..1 + params.dataBits]) == DataField(f, samples)
    ensures Mask(DataField(f, samples), f.dataBits) == DataField(f, samples)
  {
    assert DataField(f, samples)[..f.dataBits] == samples[1..1 + f.dataBits];
  }

  lemma ParityAgree(params: UartParams, f: Format, data: Byte, bit: bool)
    requires f.Valid() && params.Valid() && Describes(params, f) && f.HasParity() && Mask(data, f.dataBits) == data
    ensures ParityError(data, f.parity, bit) == (bit != ParityLevel(data, params))
  {
    ParityAgrees(data, f.dataBits);
    hide Parity, Mask;
  }
}
