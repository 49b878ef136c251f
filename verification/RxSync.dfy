/** uart_rx_sync.sv: the three-stage input synchronizer, a delay line that resets to the idle level. */
module RxSync {

  /** Stage 0 is the newest sample; stage 2 drives `rx_sync_o`. */
  datatype SyncView = SyncView(s0: bool, s1: bool, s2: bool)

  const RESET := SyncView(true, true, true)

  function Next(v: SyncView, line: bool): SyncView {
    SyncView(line, v.s0, v.s1)
  }

  class Synchronizer {
    var rxSync: seq<bool>

    ghost predicate Valid()
      reads this
    {
      |rxSync| == 3
    }

    ghost function View(): SyncView
      requires Valid()
      reads this
    {
      SyncView(rxSync[0], rxSync[1], rxSync[2])
    }

    constructor ()
      ensures Valid() && View() == RESET
    {
      rxSync := [true, true, true];
    }

    function RxSyncO(): (r: bool)
      requires Valid()
      reads this
      ensures r == View().s2
    {
      rxSync[2]
    }

    method Step(line: bool)
      requires Valid()
      modifies this
      ensures Valid() && View() == Next(old(View()), line)
    {
      rxSync := [line] + rxSync[..2];
    }
  }
}
