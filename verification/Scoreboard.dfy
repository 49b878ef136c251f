/** scb_uart_stream.cpp: the scoreboard that matches observed frames against expected ones, port by port. */
module Scoreboard {
  import opened UartFormat
  import opened VipCodec

  type Port = string

  datatype Event = Expect(port: Port, frame: VFrame) | Observe(port: Port, frame: VFrame)

  /** The switches of the scoreboard; the data width is that of its parameters. */
  datatype Settings = Settings(dataBits: nat, strictStatus: bool, failOnUnexpected: bool)

  /** The pending expectations and the number of failures and of warnings noted so far. */
  datatype ScbView = ScbView(pending: map<Port, seq<VFrame>>, fails: nat, warns: nat) {
    /** Unexpected observations and mismatches, however they were reported. */
    function Noted(): nat {
      fails + warns
    }
  }

  const RESET := ScbView(map[], 0, 0)

  function Queue(pending: map<Port, seq<VFrame>>, port: Port): seq<VFrame> {
    if port in pending then pending[port] else []
  }

  function Masked(f: VFrame, dataBits: nat): VFrame
    requires dataBits <= 8
  {
    f.(data := Mask(f.data, dataBits))
  }

  /** Masked data agrees and, in strict comparison, so do all three status flags. */
  predicate Matches(expected: VFrame, observed: VFrame, opts: Settings)
    requires opts.dataBits <= 8
  {
    && Mask(expected.data, opts.dataBits) == Mask(observed.data, opts.dataBits)
    && (opts.strictStatus ==> expected.(data := ZERO_BYTE) == observed.(data := ZERO_BYTE))
  }

  lemma MaskTwice(data: Byte, n: nat)
    requires n <= 8
    ensures Mask(Mask(data, n), n) == Mask(data, n)
  {
    assert Mask(data, n)[..n] == data[..n];
  }

  function Next(v: ScbView, e: Event, opts: Settings): ScbView
    requires opts.dataBits <= 8
  {
    var q := Queue(v.pending, e.port);
    match e
    case Expect(port, frame) => v.(pending := v.pending[port := q + [Masked(frame, opts.dataBits)]])
    case Observe(port, frame) =>
      if q == [] then
        ScbView(v.pending[port := []], if opts.failOnUnexpected then v.fails + 1 else v.fails,
                if opts.failOnUnexpected then v.warns else v.warns + 1)
      else
        ScbView(v.pending[port := q[1..]], if Matches(q[0], frame, opts) then v.fails else v.fails + 1, v.warns)
  }

  class UartStream {
    const opts: Settings
    var expected: map<Port, seq<VFrame>>
    var observed: map<Port, nat>
    var fails: nat
    var warns: nat

    function View(): ScbView
      reads this
    {
      ScbView(expected, fails, warns)
    }

    constructor (opts: Settings)
      ensures this.opts == opts && View() == RESET
    {
      this.opts := opts;
      expected, observed, fails, warns := map[], map[], 0, 0;
    }

    method ResetCase()
      modifies this
      ensures View() == old(View()).(pending := map[]) && observed == map[]
    {
      expected, observed := map[], map[];
    }

    method ExpectFrame(port: Port, frame: VFrame)
      requires opts.dataBits <= 8
      modifies this
      ensures View() == Next(old(View()), Expect(port, frame), opts)
      ensures observed == old(observed)
    {
      expected := expected[port := Queue(expected, port) + [Masked(frame, opts.dataBits)]];
    }

    method ObserveFrame(port: Port, frame0: VFrame)
      requires opts.dataBits <= 8
      modifies this
      ensures View() == Next(old(View()), Observe(port, frame0), opts)
      ensures observed == old(observed)[port := (if port in old(observed) then old(observed)[port] else 0) + 1]
    {
      var frame := Masked(frame0, opts.dataBits);
      MaskTwice(frame0.data, opts.dataBits);
      observed := observed[port := (if port in observed then observed[port] else 0) + 1];
      var q := Queue(expected, port);
      if q == [] {
        expected := expected[port := []];
        if opts.failOnUnexpected {
          fails := fails + 1;
        } else {
          warns := warns + 1;
        }
        return;
      }
      var exp := q[0];
      expected := expected[port := q[1..]];
      var dataMatch := Mask(exp.data, opts.dataBits) == Mask(frame.data, opts.dataBits);
      var statusMatch := !opts.strictStatus
                         || (exp.parityError == frame.parityError && exp.framingError == frame.framingError
                             && exp.breakDetect == frame.breakDetect);
      if !dataMatch || !statusMatch {
        fails := fails + 1;
      }
    }

    /** Every port with outstanding expectations is a failure, unless the caller waives the check. */
    method EndCaseCheck(failOnOutstanding: bool)
      modifies `fails
      ensures fails >= old(fails)
      ensures fails == old(fails) <==> failOnOutstanding ==> forall port :: port in expected ==> expected[port] == []
    {
      if !failOnOutstanding {
        return;
      }
      var todo := expected.Keys;
      while todo != {}
        invariant todo <= expected.Keys && fails >= old(fails)
        invariant fails == old(fails) <==> forall port :: port in expected && port !in todo ==> expected[port] == []
        decreases todo
      {
        var port :| port in todo;
        if expected[port] != [] {
          fails := fails + 1;
        }
        todo := todo - {port};
      }
    }
  }

  // ---- What "no failure" means ----

  /** Some events after a given state. */
  function Apply(v: ScbView, events: seq<Event>, opts: Settings): ScbView
    requires opts.dataBits <= 8
  {
    if events == [] then v
    else Next(Apply(v, events[..|events| - 1], opts), events[|events| - 1], opts)
  }

  lemma ApplySnoc(v: ScbView, events: seq<Event>, e: Event, opts: Settings)
    requires opts.dataBits <= 8
    ensures Apply(v, events + [e], opts) == Next(Apply(v, events, opts), e, opts)
  {
    hide Next;
    assert (events + [e])[..|events|] == events;
  }

  function Run(events: seq<Event>, opts: Settings): ScbView
    requires opts.dataBits <= 8
  {
    Apply(RESET, events, opts)
  }

  /** The frames expected, or observed, on one port, in order. */
  function Frames(events: seq<Event>, port: Port, expects: bool): seq<VFrame> {
    if events == [] then []
    else
      var rest, e := Frames(events[..|events| - 1], port, expects), events[|events| - 1];
      if e.port == port && e.Expect? == expects then rest + [e.frame] else rest
  }

  /** The frames are equal once their data is masked; without strict comparison, their masked data is. */
  predicate SameFrame(want: VFrame, got: VFrame, opts: Settings)
    requires opts.dataBits <= 8
  {
    if opts.strictStatus then want.(data := Mask(want.data, opts.dataBits)) == got.(data := Mask(got.data, opts.dataBits))
    else Mask(want.data, opts.dataBits) == Mask(got.data, opts.dataBits)
  }

  /** The comparison of the scoreboard, on a stored expectation and a raw observation, is that equality. */
  lemma MatchesExact(want: VFrame, got: VFrame, opts: Settings)
    requires opts.dataBits <= 8
    ensures Matches(Masked(want, opts.dataBits), got, opts) <==> SameFrame(want, got, opts)
  {
    MaskTwice(want.data, opts.dataBits);
    hide Mask;
  }

  /** On this port the i-th observation matches the i-th expectation. */
  ghost predicate Agree(events: seq<Event>, port: Port, opts: Settings)
    requires opts.dataBits <= 8
  {
    var want, got := Frames(events, port, true), Frames(events, port, false);
    |got| <= |want| && forall i :: 0 <= i < |got| ==> SameFrame(want[i], got[i], opts)
  }

  /** Nothing was observed before it was expected, and everything observed matched. */
  ghost predicate InOrder(events: seq<Event>, port: Port, opts: Settings)
    requires opts.dataBits <= 8
  {
    forall k :: 0 <= k <= |events| ==> Agree(events[..k], port, opts)
  }

  function MaskedAll(frames: seq<VFrame>, opts: Settings): (s: seq<VFrame>)
    requires opts.dataBits <= 8
    ensures |s| == |frames| && forall i :: 0 <= i < |s| ==> s[i] == Masked(frames[i], opts.dataBits)
  {
    seq(|frames|, i requires 0 <= i < |frames| => Masked(frames[i], opts.dataBits))
  }

  /** While nothing has failed, a port's queue is what was expected and not yet observed. */
  ghost predicate QueueExact(events: seq<Event>, port: Port, opts: Settings, v: ScbView)
    requires opts.dataBits <= 8
  {
    var want, got := Frames(events, port, true), Frames(events, port, false);
    |got| <= |want| && Queue(v.pending, port) == MaskedAll(want[|got|..], opts)
  }

  lemma FramesSnoc(events: seq<Event>, e: Event, port: Port, expects: bool)
    ensures Frames(events + [e], port, expects)
         == Frames(events, port, expects) + (if e.port == port && e.Expect? == expects then [e.frame] else [])
  {
    assert (events + [e])[..|events|] == events;
    assert Frames(events, port, expects) + [] == Frames(events, port, expects);
  }

  /** One event on one port. */
  lemma PortStep(events: seq<Event>, e: Event, port: Port, opts: Settings, v: ScbView)
    requires opts.dataBits <= 8 && QueueExact(events, port, opts, v) && Agree(events, port, opts)
    ensures var w := Next(v, e, opts);
            && (e.port != port || w.Noted() == v.Noted() <==> e.port != port || Agree(events + [e], port, opts))
            && (e.port != port ==> Agree(events + [e], port, opts))
            && (w.Noted() == v.Noted() ==> QueueExact(events + [e], port, opts, w))
  {
    FramesSnoc(events, e, port, true);
    FramesSnoc(events, e, port, false);
    var want, got := Frames(events, port, true), Frames(events, port, false);
    if e.port == port {
      if e.Observe? && |got| < |want| {
        MatchesExact(want[|got|], e.frame, opts);
        hide SameFrame, Matches, Mask;
        assert Frames(events + [e], port, false)[|got|] == e.frame;
      }
    }
  }

  ghost predicate AllInOrder(events: seq<Event>, opts: Settings)
    requires opts.dataBits <= 8
  {
    forall port: Port :: InOrder(events, port, opts)
  }

  ghost predicate AllExact(events: seq<Event>, opts: Settings, v: ScbView)
    requires opts.dataBits <= 8
  {
    forall port: Port :: QueueExact(events, port, opts, v)
  }

  lemma NotedGrows(v: ScbView, e: Event, opts: Settings)
    requires opts.dataBits <= 8
    ensures Next(v, e, opts).Noted() >= v.Noted()
  {
  }

  /** An event keeps a clean scoreboard clean exactly when its own port stays in order. */
  lemma CleanStep(t: seq<Event>, e: Event, opts: Settings, v: ScbView)
    requires opts.dataBits <= 8
    requires AllInOrder(t, opts) && AllExact(t, opts, v)
    ensures var w := Next(v, e, opts);
            && (w.Noted() == v.Noted() <==> AllInOrder(t + [e], opts))
            && (w.Noted() == v.Noted() ==> AllExact(t + [e], opts, w))
  {
    var w := Next(v, e, opts);
    hide Next, QueueExact, Agree, InOrder, ScbView.Noted;
    forall port: Port
      ensures InOrder(t + [e], port, opts) <==> e.port != port || w.Noted() == v.Noted()
      ensures w.Noted() == v.Noted() ==> QueueExact(t + [e], port, opts, w)
    {
      OrderSnoc(t, e, port, opts);
      PortStep(t, e, port, opts, v);
    }
    assert InOrder(t + [e], e.port, opts) <==> w.Noted() == v.Noted();
  }

  /** What is out of order stays so. */
  lemma DirtyStep(t: seq<Event>, e: Event, opts: Settings)
    requires opts.dataBits <= 8 && !AllInOrder(t, opts)
    ensures !AllInOrder(t + [e], opts)
  {
    hide InOrder, Agree;
    var port: Port :| !InOrder(t, port, opts);
    OrderSnoc(t, e, port, opts);
  }

  lemma NothingYet(port: Port, opts: Settings)
    requires opts.dataBits <= 8
    ensures InOrder([], port, opts) && QueueExact([], port, opts, RESET)
  {
    var none: seq<Event> := [];
    assert none[..0] == [];
  }

  /** Nothing was noted, as a failure or as a warning, if and only if every port is in order. */
  lemma {:induction false} FailsExact(events: seq<Event>, opts: Settings)
    requires opts.dataBits <= 8
    ensures var v := Run(events, opts);
            && (v.Noted() == 0 <==> AllInOrder(events, opts))
            && (v.Noted() == 0 ==> AllExact(events, opts, v))
  {
    if events == [] {
      hide InOrder, QueueExact;
      forall port: Port
        ensures InOrder(events, port, opts) && QueueExact(events, port, opts, RESET)
      {
        NothingYet(port, opts);
      }
    } else {
      var m := |events| - 1;
      var t, e := events[..m], events[m];
      assert events == t + [e];
      FailsExact(t, opts);
      var v := Run(t, opts);
      assert Run(events, opts) == Next(v, e, opts);
      NotedGrows(v, e, opts);
      hide Run, Next, AllExact, AllInOrder;
      if v.Noted() == 0 {
        CleanStep(t, e, opts, v);
      } else {
        DirtyStep(t, e, opts);
      }
    }
  }

  /** On this port no observation ever outnumbered the expectations. */
  predicate Counted(events: seq<Event>, port: Port) {
    events == []
    || (Counted(events[..|events| - 1], port) && |Frames(events, port, false)| <= |Frames(events, port, true)|)
  }

  predicate QueueCounts(events: seq<Event>, port: Port, v: ScbView) {
    |Queue(v.pending, port)| == |Frames(events, port, true)| - |Frames(events, port, false)|
  }

  lemma CountStep(t: seq<Event>, e: Event, port: Port, opts: Settings, v: ScbView)
    requires opts.dataBits <= 8 && !opts.failOnUnexpected && Counted(t, port) && QueueCounts(t, port, v)
    ensures var w := Next(v, e, opts);
            && (Counted(t + [e], port) <==> e.port != port || w.warns == v.warns)
            && (w.warns == v.warns ==> QueueCounts(t + [e], port, w))
  {
    FramesSnoc(t, e, port, true);
    FramesSnoc(t, e, port, false);
    assert (t + [e])[..|t|] == t;
    hide Frames, Matches;
  }

  ghost predicate AllCounted(events: seq<Event>, v: ScbView) {
    forall port: Port :: Counted(events, port) && QueueCounts(events, port, v)
  }

  /** Where unexpected observations are waived they, and nothing else, are warnings: there is none if and only if
      observations never outnumber expectations. Mismatches are failures there too. */
  lemma {:induction false} WarnsExact(events: seq<Event>, opts: Settings)
    requires opts.dataBits <= 8 && !opts.failOnUnexpected
    ensures var v := Run(events, opts);
            && (v.warns == 0 <==> forall port: Port :: Counted(events, port))
            && (v.warns == 0 ==> AllCounted(events, v))
  {
    if events != [] {
      var t, e := events[..|events| - 1], events[|events| - 1];
      assert events == t + [e];
      WarnsExact(t, opts);
      var v := Run(t, opts);
      var w := Next(v, e, opts);
      assert Run(events, opts) == w && w.warns >= v.warns;
      hide Run, Next, QueueCounts;
      if v.warns == 0 {
        forall port: Port
          ensures Counted(events, port) <==> e.port != port || w.warns == v.warns
          ensures w.warns == v.warns ==> QueueCounts(events, port, w)
        {
          CountStep(t, e, port, opts, v);
        }
        assert Counted(events, e.port) <==> w.warns == v.warns;
      } else {
        var port: Port :| !Counted(t, port);
        assert !Counted(events, port);
      }
    } else {
      NoneCounted();
    }
  }

  lemma NoneCounted()
    ensures AllCounted([], RESET)
  {
  }

  /** Warnings stand for failures only where unexpected observations are waived. */
  lemma {:induction false} NoWarnings(events: seq<Event>, opts: Settings)
    requires opts.dataBits <= 8 && opts.failOnUnexpected
    ensures Run(events, opts).warns == 0
  {
    if events != [] {
      NoWarnings(events[..|events| - 1], opts);
    }
  }

  lemma OrderSnoc(events: seq<Event>, e: Event, port: Port, opts: Settings)
    requires opts.dataBits <= 8
    ensures InOrder(events + [e], port, opts) <==> InOrder(events, port, opts) && Agree(events + [e], port, opts)
    ensures InOrder(events, port, opts) ==> Agree(events, port, opts)
  {
    var all := events + [e];
    assert all[..|all|] == all && events[..|events|] == events;
    forall k | 0 <= k <= |events|
      ensures all[..k] == events[..k]
    {
    }
    if InOrder(events, port, opts) && Agree(all, port, opts) {
      forall k | 0 <= k <= |all|
        ensures Agree(all[..k], port, opts)
      {
        if k <= |events| {
          assert Agree(events[..k], port, opts);
        }
      }
    }
    if InOrder(all, port, opts) {
      forall k | 0 <= k <= |events|
        ensures Agree(events[..k], port, opts)
      {
        assert Agree(all[..k], port, opts);
      }
    }
  }

  /** Every port saw exactly the frames it was promised, each one after it was promised. */
  ghost predicate StreamsEqual(events: seq<Event>, opts: Settings)
    requires opts.dataBits <= 8
  {
    forall port: Port ::
      InOrder(events, port, opts) && |Frames(events, port, true)| == |Frames(events, port, false)|
  }

  /** The verdict is exact: a case ends without a failure, outstanding expectations counted, if and only if the
      streams are equal on every port, for strict and relaxed comparison alike. Where unexpected observations
      are waived, the same holds of failures and warnings together. */
  lemma NoFailureExact(events: seq<Event>, opts: Settings)
    requires opts.dataBits <= 8
    ensures Clean(Run(events, opts)) <==> StreamsEqual(events, opts)
    ensures opts.failOnUnexpected ==> Run(events, opts).Noted() == Run(events, opts).fails
  {
    FailsExact(events, opts);
    var v := Run(events, opts);
    if opts.failOnUnexpected {
      NoWarnings(events, opts);
    }
    if v.Noted() == 0 {
      CleanExact(events, opts, v);
    }
    hide Run, InOrder, QueueExact, Frames;
  }

  /** With every port in order, nothing is outstanding exactly when the streams are equally long. */
  lemma CleanExact(events: seq<Event>, opts: Settings, v: ScbView)
    requires opts.dataBits <= 8 && v.Noted() == 0
    requires AllInOrder(events, opts) && AllExact(events, opts, v)
    ensures Clean(v) <==> StreamsEqual(events, opts)
  {
    hide InOrder, QueueExact, Frames;
    if StreamsEqual(events, opts) {
      forall port | port in v.pending
        ensures v.pending[port] == []
      {
        PortDone(events, port, opts, v);
      }
    } else {
      var port: Port :| |Frames(events, port, true)| != |Frames(events, port, false)|;
      PortDone(events, port, opts, v);
    }
  }

  lemma PortDone(events: seq<Event>, port: Port, opts: Settings, v: ScbView)
    requires opts.dataBits <= 8 && QueueExact(events, port, opts, v)
    ensures (port in v.pending ==> v.pending[port] == [])
       <==> |Frames(events, port, true)| == |Frames(events, port, false)|
  {
  }

  /** Nothing noted and nothing outstanding. */
  ghost predicate Clean(v: ScbView) {
    v.Noted() == 0 && forall port :: port in v.pending ==> v.pending[port] == []
  }
}
