/** From the testbench agent to the RTL decoder: what `send_item_` drives with the planned parameters is what
    the core receives, forced errors included. */
module AgentToCore {
  import opened UartFormat
  import opened UartCore
  import opened VipCodec
  import Arithmetic
  import SamplingMargin
  import BaudPlan
  import BaudGen

  /** The pin follows a waveform, one entry a clock; the receiver is on, with a fixed format and increment. */
  predicate Driven(cfg: Config, inc: nat, wave: seq<bool>, xs: seq<CoreIn>) {
    forall i :: 0 <= i < |xs| ==>
      && xs[i].enable && xs[i].rxEnable && xs[i].cfg == cfg && xs[i].baudInc == inc
      && (i < |wave| ==> xs[i].rxPin == wave[i])
  }

  /** A stretched list of levels shows one level per period. */
  lemma DrivenIsExternal(p: Params, cfg: Config, inc: nat, period: nat, levels: seq<bool>, xs: seq<CoreIn>)
    requires period >= 1 && Driven(cfg, inc, Stretch(levels, period), xs)
    ensures SamplingMargin.External(p, cfg, inc, period, levels, xs)
  {
    hide Stretch;
    forall i | 0 <= i < |xs| && i / period < |levels|
      ensures xs[i].rxPin == levels[i / period]
    {
      var k, j := i / period, i % period;
      assert i == k * period + j;
      Arithmetic.MulMonotone(k + 1, |levels|, period);
      assert (k + 1) * period == k * period + period;
      StretchAt(levels, period, k, j);
    }
  }

  /** The record an item should become. */
  function ItemRecord(params: UartParams, item: TxItem): Record
    requires params.Valid()
  {
    var data := Mask(item.data, params.dataBits);
    Record(data, item.forceBadStop, params.ParityEnable() && item.forceBadParity,
           item.forceBadStop && data == ZERO_BYTE)
  }

  /** The RTL decoder reads the levels of an item as that record. */
  lemma CoreDecodesItem(params: UartParams, f: Format, item: TxItem)
    requires f.Valid() && params.Valid() && Describes(params, f)
    ensures |Levels(params, item)| == f.Length() && !Levels(params, item)[0]
    ensures DecodeSamples(f, Levels(params, item)) == ItemRecord(params, item)
  {
    var levels := Levels(params, item);
    LevelsContents(params, item);
    DecodeLevels(params, item);
    hide Levels, Decode, DecodeSamples;
    DecodersAgree(params, f, levels);
  }

  // ---- The bench's own reading of the format codes ----

  function DataBitsFromCfg(mode: Code): nat {
    5 + mode
  }

  function StopBitsFromCfg(mode: Code): nat {
    if mode == 1 then 2 else 1
  }

  function ParityFromCfg(mode: Code): UartParity {
    match mode
    case 1 => EVEN
    case 2 => ODD
    case _ => NONE
  }

  /** The agent's parameters for a configuration and a bit period. */
  function ParamsOf(cfg: Config, bitClks: nat): UartParams {
    UartParams(DataBitsFromCfg(cfg.dataCode), StopBitsFromCfg(cfg.stopCode), ParityFromCfg(cfg.parityCode),
               bitClks, bitClks / 2, true, true, 1)
  }

  /** The core reads every configuration as the bench does. */
  lemma CodesAgree(cfg: Config, bitClks: nat)
    requires bitClks >= 2
    ensures ParamsOf(cfg, bitClks).Valid() && Describes(ParamsOf(cfg, bitClks), Latch(cfg))
  {
  }

  lemma PlannedValid(baudRate: nat)
    requires 0 < baudRate && BaudPlan.OVERSAMPLE * baudRate < BaudPlan.CLK_HZ
    ensures BaudPlan.BitClks(baudRate) >= 2
  {
    BaudPlan.PeriodValue(baudRate);
    hide BaudPlan.BitClks;
    if BaudPlan.BitClks(baudRate) <= 1 {
      Arithmetic.MulMonotone(BaudPlan.BitClks(baudRate), 1, baudRate);
    }
  }

  /** An item of the sending agent with the parameters for a configuration and a planned baud rate, on a core with
      that configuration and the planned increment in any phase, becomes exactly one record by four clocks after
      its last bit: its data, a parity error exactly where one was forced with parity enabled, a frame error
      exactly where a bad stop was forced, and a break exactly when the data is then zero. */
  lemma ItemReceived(baudRate: nat, p: Params, cfg: Config, params: UartParams, item: TxItem, v: CoreView,
                     xs: seq<CoreIn>) returns (done: nat)
    requires 0 < baudRate && BaudPlan.OVERSAMPLE * baudRate < BaudPlan.CLK_HZ
    requires p.accWidth == 32 && p.oversample == BaudPlan.OVERSAMPLE && SamplingMargin.Waiting(v)
    requires params == ParamsOf(cfg, BaudPlan.BitClks(baudRate)) && params.Valid()
    requires params.BitsPerFrame() * params.bitClks + 4 <= |xs|
    requires Driven(cfg, BaudPlan.CalcBaudInc(baudRate), Stretch(Levels(params, item), params.bitClks), xs)
    ensures done <= params.BitsPerFrame() * params.bitClks + 4
    ensures SamplingMargin.RunFrom(p, v, xs[..done]).rx.out == Some(ItemRecord(params, item))
    ensures forall i :: 0 <= i < done ==> SamplingMargin.RunFrom(p, v, xs[..i]).rx.out.None?
  {
    var f, levels, inc := Latch(cfg), Levels(params, item), BaudPlan.CalcBaudInc(baudRate);
    PlannedValid(baudRate);
    CodesAgree(cfg, BaudPlan.BitClks(baudRate));
    CoreDecodesItem(params, f, item);
    hide Levels, Stretch, Driven, SamplingMargin.RunFrom, SamplingMargin.External, SamplingMargin.Margin;
    hide BaudPlan.BitClks, BaudPlan.CalcBaudInc, DecodeSamples, ItemRecord;
    DrivenIsExternal(p, cfg, inc, params.bitClks, levels, xs);
    BaudPlan.AccumulatorModulus(p);
    BaudPlan.PlannedMargin(baudRate, f.Length());
    done := SamplingMargin.ExternalDecode(p, cfg, inc, params.bitClks, levels, v, xs);
  }
}
