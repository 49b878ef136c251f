/** uart_hw_flow_ctrl.sv: RTS hysteresis on the RX FIFO level and the CTS gate on TX launches. */
module FlowCtrl {

  /** The `rts_active_q` register and the three CTS synchronizer stages, newest first. */
  datatype FlowView = FlowView(rts: bool, c0: bool, c1: bool, c2: bool)

  datatype FlowIn = FlowIn(enable: bool, rxEnable: bool, hwFlow: bool, ctsPin: bool, rxLevel: nat)

  function Reset(ctsActiveLow: bool): FlowView {
    FlowView(true, !ctsActiveLow, !ctsActiveLow, !ctsActiveLow)
  }

  function NextRts(rts: bool, assertLevel: nat, deassertLevel: nat, x: FlowIn): bool {
    if !x.enable || !x.rxEnable then false
    else if !x.hwFlow then true
    else if rts then x.rxLevel < deassertLevel
    else x.rxLevel <= assertLevel
  }

  function Next(v: FlowView, assertLevel: nat, deassertLevel: nat, x: FlowIn): FlowView {
    FlowView(NextRts(v.rts, assertLevel, deassertLevel, x), x.ctsPin, v.c0, v.c1)
  }

  function CtsRaw(v: FlowView, ctsActiveLow: bool): bool {
    v.c2 != ctsActiveLow
  }

  /** The peer permits a launch, or nobody asks it. */
  predicate StartAllowed(v: FlowView, ctsActiveLow: bool, hwFlow: bool) {
    !hwFlow || CtsRaw(v, ctsActiveLow)
  }

  /** `rts_active`: this core permits the peer to send. */
  predicate RtsActive(v: FlowView, enable: bool, rxEnable: bool, hwFlow: bool) {
    if hwFlow then v.rts else enable && rxEnable
  }

  class FlowController {
    const rtsActiveLow: bool
    const ctsActiveLow: bool
    const deassertLevel: nat
    const assertLevel: nat
    var rtsActive: bool
    var ctsSync: seq<bool>

    ghost predicate Valid()
      reads this
    {
      |ctsSync| == 3
    }

    ghost function View(): FlowView
      requires Valid()
      reads this
    {
      FlowView(rtsActive, ctsSync[0], ctsSync[1], ctsSync[2])
    }

    constructor (rtsActiveLow: bool, ctsActiveLow: bool, deassertLevel: nat, assertLevel: nat)
      ensures Valid() && View() == Reset(ctsActiveLow)
      ensures this.rtsActiveLow == rtsActiveLow && this.ctsActiveLow == ctsActiveLow
      ensures this.deassertLevel == deassertLevel && this.assertLevel == assertLevel
    {
      this.rtsActiveLow, this.ctsActiveLow := rtsActiveLow, ctsActiveLow;
      this.deassertLevel, this.assertLevel := deassertLevel, assertLevel;
      rtsActive := true;
      ctsSync := [!ctsActiveLow, !ctsActiveLow, !ctsActiveLow];
    }

    function CtsActiveRaw(): (r: bool)
      requires Valid()
      reads this
      ensures r == CtsRaw(View(), ctsActiveLow)
    {
      if ctsActiveLow then !ctsSync[2] else ctsSync[2]
    }

    function TxStartAllowed(hwFlow: bool): (r: bool)
      requires Valid()
      reads this
      ensures r == StartAllowed(View(), ctsActiveLow, hwFlow)
    {
      !hwFlow || CtsActiveRaw()
    }

    /** `uart_rts_o`: the pin shows `rts_active` in the configured polarity. */
    function UartRtsO(enable: bool, rxEnable: bool, hwFlow: bool): (pin: bool)
      requires Valid()
      reads this
      ensures (if rtsActiveLow then !pin else pin) == RtsActive(View(), enable, rxEnable, hwFlow)
    {
      var selected := if hwFlow then rtsActive else enable && rxEnable;
      if rtsActiveLow then !selected else selected
    }

    method Step(x: FlowIn)
      requires Valid()
      modifies this
      ensures Valid() && View() == Next(old(View()), assertLevel, deassertLevel, x)
    {
      ctsSync := [x.ctsPin] + ctsSync[..2];
      if !x.enable || !x.rxEnable {
        rtsActive := false;
      } else if !x.hwFlow {
        rtsActive := true;
      } else if rtsActive && x.rxLevel >= deassertLevel {
        rtsActive := false;
      } else if !rtsActive && x.rxLevel <= assertLevel {
        rtsActive := true;
      }
    }
  }
}
