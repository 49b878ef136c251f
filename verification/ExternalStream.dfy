/** A stream of external characters, back to back or with any gaps, on one line: decoded character by character. */
module ExternalStream {
  import opened UartFormat
  import opened UartCore
  import opened Arithmetic
  import opened SamplingMargin
  import BaudGen
  import RxSync
  import UartRx
  import Loopback

  /** A character and the clock in which its start bit begins. */
  datatype Char = Char(start: nat, data: Byte)

  function Bytes(cs: seq<Char>): (s: seq<Byte>)
    ensures |s| == |cs| && forall i :: 0 <= i < |s| ==> s[i] == cs[i].data
  {
    seq(|cs|, i requires 0 <= i < |cs| => cs[i].data)
  }

  /** Margin for streams: after the last sample the decoder still needs three clocks of the stop bit to publish
      the record and to be armed again. */
  predicate StreamMargin(modulus: nat, inc: nat, oversample: nat, period: nat, length: nat)
    requires length >= 1
  {
    && Margin(modulus, inc, oversample, period, length)
    && period >= 3 && length * period >= 3
    && LastWithin(modulus, inc, oversample, length, length * period - 2)
  }

  /** Clocks of one character. */
  function Span(cfg: Config, period: nat): nat {
    Latch(cfg).Length() * period
  }

  function LevelAt(levels: seq<bool>, k: nat): bool {
    if k < |levels| then levels[k] else true
  }

  /** Where the idle stretch before character j, or behind the last one, begins and ends. */
  function IdleFrom(cfg: Config, period: nat, cs: seq<Char>, j: nat): nat
    requires j <= |cs|
  {
    if j == 0 then 0 else cs[j - 1].start + Span(cfg, period)
  }

  function IdleTo(cs: seq<Char>, j: nat, end: nat): nat {
    if j < |cs| then cs[j].start else end
  }

  predicate Spaced(cfg: Config, period: nat, cs: seq<Char>) {
    forall j :: 0 <= j < |cs| - 1 ==> cs[j].start + Span(cfg, period) <= cs[j + 1].start
  }

  /** The line shows the frames of the characters and is high elsewhere; the receiver is on, with a fixed format
      and increment; every character has been sent to its end. */
  ghost predicate OnLine(cfg: Config, inc: nat, period: nat, cs: seq<Char>, xs: seq<CoreIn>)
    requires period >= 1
  {
    && Spaced(cfg, period, cs)
    && (forall i :: 0 <= i < |xs| ==>
          xs[i].enable && xs[i].rxEnable && xs[i].cfg == cfg && xs[i].baudInc == inc)
    && (forall j, i :: 0 <= j < |cs| && cs[j].start <= i < cs[j].start + Span(cfg, period) && i < |xs| ==>
          xs[i].rxPin == LevelAt(Frame(Latch(cfg), cs[j].data), (i - cs[j].start) / period))
    && (forall j, i :: 0 <= j <= |cs| && IdleFrom(cfg, period, cs, j) <= i < IdleTo(cs, j, |xs|) && i < |xs| ==>
          xs[i].rxPin)
    && (forall j :: 0 <= j < |cs| ==> cs[j].start + Span(cfg, period) + 4 <= |xs|)
  }

  // ---- Runs in pieces ----

  lemma {:induction false} RunFromSplit(p: Params, v: CoreView, xs: seq<CoreIn>, s: nat, m: nat)
    requires s + m <= |xs|
    ensures RunFrom(p, RunFrom(p, v, xs[..s]), xs[s..][..m]) == RunFrom(p, v, xs[..s + m])
  {
    hide Next;
    if m > 0 {
      RunFromSplit(p, v, xs, s, m - 1);
      assert xs[s..][..m][..m - 1] == xs[s..][..m - 1];
      assert xs[..s + m][..s + m - 1] == xs[..s + m - 1];
    } else {
      assert xs[s..][..0] == [] && xs[..s + 0] == xs[..s];
    }
  }

  /** The synchronizer holds the last three levels of the line. */
  lemma {:induction false} SyncPast(p: Params, v: CoreView, xs: seq<CoreIn>, n: nat)
    requires Quiet(v) && n <= |xs|
    ensures RunFrom(p, v, xs[..n]).sync
         == RxSync.SyncView(n < 1 || xs[n - 1].rxPin, n < 2 || xs[n - 2].rxPin, n < 3 || xs[n - 3].rxPin)
  {
    if n > 0 {
      SyncPast(p, v, xs, n - 1);
      RunFromPrefix(p, v, xs, n - 1);
      hide RunFrom, UartRx.Next;
    } else {
      assert xs[..0] == [];
    }
  }

  predicate HighSeen(xs: seq<CoreIn>, a: nat, b: nat)
    requires b <= |xs|
  {
    forall i :: 0 <= i && a - 3 <= i < b - 3 ==> xs[i].rxPin
  }

  /** A decoder that hunts on a high line is armed and publishes nothing. */
  lemma {:induction false} IdleHunt(p: Params, v: CoreView, xs: seq<CoreIn>, a: nat, b: nat)
    requires Quiet(v) && a < b <= |xs| && RunFrom(p, v, xs[..a]).rx.phase.Hunting? && HighSeen(xs, a, b)
    ensures RunFrom(p, v, xs[..b]).rx == UartRx.RxView(UartRx.Hunting(true), None)
    decreases b
  {
    hide RunFrom;
    var n := b - 1;
    if a < n {
      IdleHunt(p, v, xs, a, n);
    }
    SyncPast(p, v, xs, n);
    RunFromPrefix(p, v, xs, n);
    assert n < 3 || xs[n - 3].rxPin;
    hide HighSeen, Next, RxSync.Next, BaudGen.Next;
  }

  // ---- What is heard ----

  /** The records that have appeared, in order. */
  function Heard(p: Params, v: CoreView, xs: seq<CoreIn>): seq<Record>
    decreases |xs|
  {
    if xs == [] then [] else Heard(p, v, xs[..|xs| - 1]) + UartRx.Pulse(RunFrom(p, v, xs).rx.out)
  }

  lemma HeardNext(p: Params, v: CoreView, xs: seq<CoreIn>, n: nat)
    requires 0 < n <= |xs|
    ensures Heard(p, v, xs[..n]) == Heard(p, v, xs[..n - 1]) + UartRx.Pulse(RunFrom(p, v, xs[..n]).rx.out)
  {
    hide RunFrom;
    assert xs[..n][..n - 1] == xs[..n - 1];
  }

  lemma {:induction false} HeardSame(p: Params, v: CoreView, xs: seq<CoreIn>, a: nat, b: nat)
    requires a <= b <= |xs| && forall i :: a < i <= b ==> RunFrom(p, v, xs[..i]).rx.out.None?
    ensures Heard(p, v, xs[..b]) == Heard(p, v, xs[..a])
    decreases b
  {
    if a < b {
      HeardNext(p, v, xs, b);
      HeardSame(p, v, xs, a, b - 1);
      hide RunFrom, Heard;
    }
  }

  // ---- One character of the stream ----

  /** The state in which character j is about to be seen, three clocks behind the line; at the end of the
      characters, the end of the run. */
  function Edge(cs: seq<Char>, j: nat, end: nat): nat {
    if j < |cs| then cs[j].start + 3 else end
  }

  ghost predicate AtChar(p: Params, v: CoreView, cfg: Config, cs: seq<Char>, xs: seq<CoreIn>, j: nat)
    requires j <= |cs| && Edge(cs, j, |xs|) <= |xs|
  {
    var w := RunFrom(p, v, xs[..Edge(cs, j, |xs|)]);
    && w.rx.phase == UartRx.Hunting(true)
    && Heard(p, v, xs[..Edge(cs, j, |xs|)]) == Loopback.CleanAll(cfg, Bytes(cs[..j]))
  }

  lemma CharFits(cfg: Config, inc: nat, period: nat, cs: seq<Char>, xs: seq<CoreIn>, j: nat)
    requires period >= 1 && OnLine(cfg, inc, period, cs, xs) && j < |cs|
    ensures cs[j].start + Span(cfg, period) + 4 <= |xs|
    ensures j + 1 < |cs| ==> cs[j].start + Span(cfg, period) <= cs[j + 1].start
    ensures Edge(cs, j + 1, |xs|) <= |xs| && cs[j].start + Span(cfg, period) + 3 <= Edge(cs, j + 1, |xs|)
  {
    hide Span;
  }

  /** The part of the run that begins with character j is an external character. */
  lemma CharExternal(p: Params, cfg: Config, inc: nat, period: nat, cs: seq<Char>, xs: seq<CoreIn>, j: nat)
    requires period >= 1 && OnLine(cfg, inc, period, cs, xs) && j < |cs| && cs[j].start <= |xs|
    ensures External(p, cfg, inc, period, Frame(Latch(cfg), cs[j].data), xs[cs[j].start..])
  {
    var ys := xs[cs[j].start..];
    hide Frame, Latch, OnLine;
    forall i | 0 <= i < |ys|
      ensures ExternalAt(cfg, inc, period, Frame(Latch(cfg), cs[j].data), ys[i], i)
    {
      ClockOfChar(cfg, inc, period, cs, xs, j, i);
    }
    AllExternal(p, cfg, inc, period, Frame(Latch(cfg), cs[j].data), ys);
  }

  predicate ExternalAt(cfg: Config, inc: nat, period: nat, levels: seq<bool>, x: CoreIn, i: nat)
    requires period >= 1
  {
    && x.enable && x.rxEnable && x.cfg == cfg && x.baudInc == inc
    && (i / period < |levels| ==> x.rxPin == levels[i / period])
  }

  lemma AllExternal(p: Params, cfg: Config, inc: nat, period: nat, levels: seq<bool>, ys: seq<CoreIn>)
    requires period >= 1 && forall i :: 0 <= i < |ys| ==> ExternalAt(cfg, inc, period, levels, ys[i], i)
    ensures External(p, cfg, inc, period, levels, ys)
  {
  }

  lemma ClockOfChar(cfg: Config, inc: nat, period: nat, cs: seq<Char>, xs: seq<CoreIn>, j: nat, i: nat)
    requires period >= 1 && OnLine(cfg, inc, period, cs, xs) && j < |cs| && cs[j].start + i < |xs|
    ensures ExternalAt(cfg, inc, period, Frame(Latch(cfg), cs[j].data), xs[cs[j].start + i], i)
  {
    var n := Latch(cfg).Length();
    assert Span(cfg, period) == n * period && |Frame(Latch(cfg), cs[j].data)| == n;
    hide Frame, Latch, Span;
    assert xs[cs[j].start + i].enable;
    if i / period < n {
      PlaceInside(i, period, n);
      PinAt(cfg, inc, period, cs, xs, j, i);
    }
    hide OnLine;
  }

  lemma PinAt(cfg: Config, inc: nat, period: nat, cs: seq<Char>, xs: seq<CoreIn>, j: nat, i: nat)
    requires period >= 1 && OnLine(cfg, inc, period, cs, xs) && j < |cs|
    requires i < Span(cfg, period) && cs[j].start + i < |xs| && i / period < Latch(cfg).Length()
    ensures xs[cs[j].start + i].rxPin == Frame(Latch(cfg), cs[j].data)[i / period]
  {
    hide Frame, Latch, Span;
    var s := cs[j].start;
    assert xs[s + i].rxPin == LevelAt(Frame(Latch(cfg), cs[j].data), (s + i - s) / period);
  }

  lemma PlaceInside(i: nat, period: nat, n: nat)
    requires period >= 1 && i / period < n
    ensures i < n * period
  {
    MulMonotone(i / period + 1, n, period);
    assert (i / period + 1) * period == i / period * period + period;
    assert i == period * (i / period) + i % period;
  }

  /** The last stop bit and the idle stretch behind it are high. */
  lemma HighAfter(cfg: Config, inc: nat, period: nat, cs: seq<Char>, xs: seq<CoreIn>, j: nat, i: nat)
    requires period >= 1 && OnLine(cfg, inc, period, cs, xs) && j < |cs|
    requires cs[j].start + (Latch(cfg).Length() - 1) * period <= i < IdleTo(cs, j + 1, |xs|) && i < |xs|
    ensures xs[i].rxPin
  {
    var s, n := cs[j].start, Latch(cfg).Length();
    assert Span(cfg, period) == (n - 1) * period + period;
    if i < s + Span(cfg, period) {
      BaudGen.DivModUnique(i - s, period, n - 1, i - s - (n - 1) * period);
      FrameLast(Latch(cfg), cs[j].data);
      hide Frame;
      assert xs[i].rxPin == LevelAt(Frame(Latch(cfg), cs[j].data), (i - s) / period);
    } else {
      assert IdleFrom(cfg, period, cs, j + 1) <= i;
    }
  }

  lemma FrameLast(f: Format, data: Byte)
    requires f.Valid()
    ensures |Frame(f, data)| == f.Length() && Frame(f, data)[f.Length() - 1] && !Frame(f, data)[0]
  {
  }

  /** The first sample of the start bit. */
  lemma CharStarts(p: Params, cfg: Config, inc: nat, period: nat, levels: seq<bool>, v: CoreView, xs: seq<CoreIn>)
    requires period >= 1 && 4 <= |xs| && Quiet(v) && External(p, cfg, inc, period, levels, xs)
    requires levels != [] && !levels[0] && RunFrom(p, v, xs[..3]).rx.phase == UartRx.Hunting(true)
    ensures RunFrom(p, v, xs[..4]).rx == UartRx.RxView(UartRx.Sampling(Latch(cfg), 0, []), None)
  {
    hide RunFrom;
    SyncPast(p, v, xs, 3);
    RunFromPrefix(p, v, xs, 3);
    BaudGen.DivModUnique(0, period, 0, 0);
    assert xs[0].rxPin == levels[0];
    hide Next, RxSync.Next, BaudGen.Next;
  }

  /** Character j is heard, once, and the decoder is ready for the next. */
  lemma OneChar(p: Params, v: CoreView, cfg: Config, inc: nat, period: nat, cs: seq<Char>, xs: seq<CoreIn>, j: nat)
    returns (done: nat)
    requires period >= 1 && p.oversample >= 1 && inc < p.Modulus() && Quiet(v)
    requires OnLine(cfg, inc, period, cs, xs) && j < |cs| && cs[j].start + 3 <= |xs| && AtChar(p, v, cfg, cs, xs, j)
    requires RunFrom(p, v, xs[..cs[j].start]).sync == RxSync.RESET
    requires StreamMargin(p.Modulus(), inc, p.oversample, period, Latch(cfg).Length())
    ensures cs[j].start + (Latch(cfg).Length() - 1) * period + 5 <= done <= cs[j].start + Span(cfg, period) + 2
    ensures done <= |xs| && RunFrom(p, v, xs[..done]).rx
                            == UartRx.RxView(UartRx.Hunting(false), Some(Loopback.Clean(cfg, cs[j].data)))
    ensures forall i :: cs[j].start + 3 < i < done ==> RunFrom(p, v, xs[..i]).rx.out.None?
  {
    hide RunFrom, Frame, External, OnLine, Heard, DecodeSamples, Margin, LastWithin, KeptCount, Gained;
    var s, f, span := cs[j].start, Latch(cfg), Span(cfg, period);
    var frame := Frame(f, cs[j].data);
    CharFits(cfg, inc, period, cs, xs, j);
    CharExternal(p, cfg, inc, period, cs, xs, j);
    FrameLast(f, cs[j].data);
    var w, ys := RunFrom(p, v, xs[..s]), xs[s..];
    RunFromSplit(p, v, xs, s, 3);
    CharStarts(p, cfg, inc, period, frame, w, ys);
    FreshCount(p, f, frame, w, ys, inc);
    var d := Delivery(p, cfg, inc, period, frame, w, ys, span - 2, 4);
    done := s + d;
    RunFromSplit(p, v, xs, s, d);
    DecodeOfFrame(f, cs[j].data);
    forall i | s + 3 < i < done
      ensures RunFrom(p, v, xs[..i]).rx.out.None?
    {
      RunFromSplit(p, v, xs, s, i - s);
    }
  }

  lemma FreshCount(p: Params, f: Format, levels: seq<bool>, v: CoreView, xs: seq<CoreIn>, inc: nat)
    requires levels != [] && 4 <= |xs| && RunFrom(p, v, xs[..4]).rx == UartRx.RxView(UartRx.Sampling(f, 0, []), None)
    ensures KeptCount(p.oversample, f, levels, RunFrom(p, v, xs[..4]).rx, Gained(p.Modulus(), v.baud.phase, inc, 3))
  {
    assert levels[..0] == [];
    hide RunFrom;
  }

  /** What is heard between two characters: up to the completion of character j its predecessors, from then on
      the character as well. */
  lemma CharHeard(p: Params, v: CoreView, cfg: Config, inc: nat, period: nat, cs: seq<Char>, xs: seq<CoreIn>, j: nat)
    returns (done: nat)
    requires period >= 1 && p.oversample >= 1 && inc < p.Modulus() && Quiet(v)
    requires OnLine(cfg, inc, period, cs, xs) && j < |cs| && cs[j].start + 3 <= |xs| && AtChar(p, v, cfg, cs, xs, j)
    requires RunFrom(p, v, xs[..cs[j].start]).sync == RxSync.RESET
    requires StreamMargin(p.Modulus(), inc, p.oversample, period, Latch(cfg).Length())
    ensures cs[j].start + 5 <= done <= cs[j].start + Span(cfg, period) + 2 && Edge(cs, j + 1, |xs|) <= |xs|
    ensures forall i :: cs[j].start + 3 <= i < done ==> Heard(p, v, xs[..i]) == Loopback.CleanAll(cfg, Bytes(cs[..j]))
    ensures forall i :: done <= i <= Edge(cs, j + 1, |xs|) ==>
              Heard(p, v, xs[..i]) == Loopback.CleanAll(cfg, Bytes(cs[..j + 1]))
    ensures AtChar(p, v, cfg, cs, xs, j + 1)
    ensures j + 1 < |cs| ==> RunFrom(p, v, xs[..cs[j + 1].start]).sync == RxSync.RESET
  {
    hide RunFrom, OnLine, Heard, Loopback.CleanAll, Loopback.Clean, LastWithin, Margin;
    var s := cs[j].start;
    var edge := Edge(cs, j + 1, |xs|);
    CharFits(cfg, inc, period, cs, xs, j);
    done := OneChar(p, v, cfg, inc, period, cs, xs, j);
    MulMonotone(0, Latch(cfg).Length() - 1, period);
    forall i | s + 3 <= i < done
      ensures Heard(p, v, xs[..i]) == Loopback.CleanAll(cfg, Bytes(cs[..j]))
    {
      HeardSame(p, v, xs, s + 3, i);
    }
    HeardNext(p, v, xs, done);
    CleanNext(cfg, cs, j);
    forall i | done < i <= edge
      ensures RunFrom(p, v, xs[..i]).rx == UartRx.RxView(UartRx.Hunting(true), None)
    {
      StaysHigh(cfg, inc, period, cs, xs, j, done, i);
      IdleHunt(p, v, xs, done, i);
    }
    forall i | done <= i <= edge
      ensures Heard(p, v, xs[..i]) == Loopback.CleanAll(cfg, Bytes(cs[..j + 1]))
    {
      HeardSame(p, v, xs, done, i);
    }
    if j + 1 < |cs| {
      var t := cs[j + 1].start;
      SyncPast(p, v, xs, t);
      StopIsLong(cfg, inc, period, cs, xs, j);
    }
  }

  lemma CleanNext(cfg: Config, cs: seq<Char>, j: nat)
    requires j < |cs|
    ensures Loopback.CleanAll(cfg, Bytes(cs[..j + 1]))
         == Loopback.CleanAll(cfg, Bytes(cs[..j])) + [Loopback.Clean(cfg, cs[j].data)]
  {
    hide Loopback.Clean;
  }

  lemma StaysHigh(cfg: Config, inc: nat, period: nat, cs: seq<Char>, xs: seq<CoreIn>, j: nat, a: nat, b: nat)
    requires period >= 1 && OnLine(cfg, inc, period, cs, xs) && j < |cs|
    requires cs[j].start + (Latch(cfg).Length() - 1) * period + 5 <= a <= b <= Edge(cs, j + 1, |xs|) <= |xs|
    ensures HighSeen(xs, a, b)
  {
    hide OnLine, Latch;
    forall i | 0 <= i && a - 3 <= i < b - 3
      ensures xs[i].rxPin
    {
      HighAfter(cfg, inc, period, cs, xs, j, i);
    }
  }

  /** The last stop bit fills the synchronizer before the next start. */
  lemma StopIsLong(cfg: Config, inc: nat, period: nat, cs: seq<Char>, xs: seq<CoreIn>, j: nat)
    requires period >= 3 && OnLine(cfg, inc, period, cs, xs) && j + 1 < |cs|
    ensures var t := cs[j + 1].start; 3 <= t <= |xs| && xs[t - 1].rxPin && xs[t - 2].rxPin && xs[t - 3].rxPin
  {
    var s, t, n := cs[j].start, cs[j + 1].start, Latch(cfg).Length();
    CharFits(cfg, inc, period, cs, xs, j);
    CharFits(cfg, inc, period, cs, xs, j + 1);
    assert Span(cfg, period) == (n - 1) * period + period;
    MulMonotone(0, n - 1, period);
    hide OnLine, Latch;
    HighAfter(cfg, inc, period, cs, xs, j, t - 1);
    HighAfter(cfg, inc, period, cs, xs, j, t - 2);
    HighAfter(cfg, inc, period, cs, xs, j, t - 3);
  }

  /** Before the first character. */
  lemma FirstChar(p: Params, v: CoreView, cfg: Config, inc: nat, period: nat, cs: seq<Char>, xs: seq<CoreIn>)
    requires period >= 1 && Waiting(v) && OnLine(cfg, inc, period, cs, xs)
    ensures Edge(cs, 0, |xs|) <= |xs| && AtChar(p, v, cfg, cs, xs, 0)
    ensures cs != [] ==> RunFrom(p, v, xs[..cs[0].start]).sync == RxSync.RESET
    ensures forall i :: 0 <= i <= Edge(cs, 0, |xs|) ==> Heard(p, v, xs[..i]) == []
  {
    var edge := Edge(cs, 0, |xs|);
    if cs != [] {
      CharFits(cfg, inc, period, cs, xs, 0);
      assert IdleFrom(cfg, period, cs, 0) == 0;
      SyncPast(p, v, xs, cs[0].start);
    }
    assert forall i :: 0 <= i < edge - 3 ==> IdleFrom(cfg, period, cs, 0) <= i < IdleTo(cs, 0, |xs|) ==> xs[i].rxPin;
    assert xs[..0] == [] && Bytes(cs[..0]) == [];
    assert Loopback.CleanAll(cfg, Bytes(cs[..0])) == [];
    assert Heard(p, v, xs[..0]) == [];
    hide RunFrom, OnLine, Heard;
    forall i | 0 < i <= edge
      ensures RunFrom(p, v, xs[..i]).rx == UartRx.RxView(UartRx.Hunting(true), None)
    {
      assert RunFrom(p, v, xs[..0]).rx.phase.Hunting? by {
        RunFromNil(p, v);
      }
      IdleHunt(p, v, xs, 0, i);
    }
    forall i | 0 <= i <= edge
      ensures Heard(p, v, xs[..i]) == []
    {
      HeardSame(p, v, xs, 0, i);
    }
    RunFromNil(p, v);
  }

  lemma RunFromNil(p: Params, v: CoreView)
    ensures RunFrom(p, v, []) == v
  {
  }

  /** Character j has been completed by state n; it is not heard before its start bit has been seen. */
  predicate OnTime(cfg: Config, period: nat, cs: seq<Char>, n: nat, k: nat)
    requires k <= |cs|
  {
    && (forall j :: 0 <= j < k ==> cs[j].start + 5 <= n)
    && (forall j :: k <= j < |cs| ==> n < cs[j].start + Span(cfg, period) + 2)
  }

  lemma {:induction false} Later(cfg: Config, period: nat, cs: seq<Char>, i: nat, j: nat)
    requires Spaced(cfg, period, cs) && i <= j < |cs|
    ensures cs[i].start <= cs[j].start
    ensures i < j ==> cs[i].start + Span(cfg, period) <= cs[j].start
    decreases j
  {
    if i < j {
      Later(cfg, period, cs, i, j - 1);
      assert cs[j - 1].start + Span(cfg, period) <= cs[j].start;
    }
  }

  /** Before every character the decoder is ready for it. */
  lemma {:induction false} ReadyFor(p: Params, v: CoreView, cfg: Config, inc: nat, period: nat, cs: seq<Char>,
                                    xs: seq<CoreIn>, j: nat)
    requires period >= 1 && p.oversample >= 1 && inc < p.Modulus() && Waiting(v)
    requires OnLine(cfg, inc, period, cs, xs) && j <= |cs|
    requires StreamMargin(p.Modulus(), inc, p.oversample, period, Latch(cfg).Length())
    ensures Edge(cs, j, |xs|) <= |xs| && AtChar(p, v, cfg, cs, xs, j)
    ensures j < |cs| ==> RunFrom(p, v, xs[..cs[j].start]).sync == RxSync.RESET
  {
    hide AtChar, RunFrom, OnLine, StreamMargin;
    if j == 0 {
      FirstChar(p, v, cfg, inc, period, cs, xs);
    } else {
      ReadyFor(p, v, cfg, inc, period, cs, xs, j - 1);
      CharFits(cfg, inc, period, cs, xs, j - 1);
      var done := CharHeard(p, v, cfg, inc, period, cs, xs, j - 1);
    }
  }

  lemma SpanLong(cfg: Config, period: nat)
    requires period >= 3
    ensures Span(cfg, period) >= 21
  {
    MulMonotone(7, Latch(cfg).Length(), period);
  }

  /** A state between the completion of character k - 1 and that of character k is on time. */
  lemma TimelyBetween(cfg: Config, period: nat, cs: seq<Char>, n: nat, k: nat)
    requires period >= 3 && Spaced(cfg, period, cs) && k <= |cs|
    requires k > 0 ==> cs[k - 1].start + 5 <= n
    requires k < |cs| ==> n < cs[k].start + Span(cfg, period) + 2
    ensures OnTime(cfg, period, cs, n, k)
  {
    SpanLong(cfg, period);
    hide Span, Spaced;
    forall j | 0 <= j < k
      ensures cs[j].start + 5 <= n
    {
      Later(cfg, period, cs, j, k - 1);
    }
    forall j | k <= j < |cs|
      ensures n < cs[j].start + Span(cfg, period) + 2
    {
      Later(cfg, period, cs, k, j);
    }
  }

  lemma {:induction false} StreamUpTo(p: Params, v: CoreView, cfg: Config, inc: nat, period: nat, cs: seq<Char>,
                                      xs: seq<CoreIn>, j: nat, n: nat) returns (k: nat)
    requires period >= 1 && p.oversample >= 1 && inc < p.Modulus() && Waiting(v)
    requires OnLine(cfg, inc, period, cs, xs) && j <= |cs| && n <= Edge(cs, j, |xs|) <= |xs|
    requires StreamMargin(p.Modulus(), inc, p.oversample, period, Latch(cfg).Length())
    ensures k <= |cs| && Heard(p, v, xs[..n]) == Loopback.CleanAll(cfg, Bytes(cs[..k])) && OnTime(cfg, period, cs, n, k)
  {
    assert period >= 3 && Spaced(cfg, period, cs);
    hide AtChar, RunFrom, OnLine, StreamMargin, OnTime, Loopback.CleanAll, Heard, Spaced, Span;
    if j == 0 {
      FirstChar(p, v, cfg, inc, period, cs, xs);
      k := 0;
      CleanNone(cfg, cs);
      SpanLong(cfg, period);
      TimelyBetween(cfg, period, cs, n, 0);
    } else {
      CharFits(cfg, inc, period, cs, xs, j - 1);
      if n <= Edge(cs, j - 1, |xs|) {
        k := StreamUpTo(p, v, cfg, inc, period, cs, xs, j - 1, n);
      } else {
        k := StreamWithin(p, v, cfg, inc, period, cs, xs, j - 1, n);
      }
    }
  }

  lemma CleanNone(cfg: Config, cs: seq<Char>)
    ensures Loopback.CleanAll(cfg, Bytes(cs[..0])) == []
  {
  }

  /** Between two characters. */
  lemma StreamWithin(p: Params, v: CoreView, cfg: Config, inc: nat, period: nat, cs: seq<Char>, xs: seq<CoreIn>, j: nat,
                     n: nat) returns (k: nat)
    requires period >= 3 && p.oversample >= 1 && inc < p.Modulus() && Waiting(v)
    requires OnLine(cfg, inc, period, cs, xs) && j < |cs| && cs[j].start + 3 < n <= Edge(cs, j + 1, |xs|) <= |xs|
    requires StreamMargin(p.Modulus(), inc, p.oversample, period, Latch(cfg).Length())
    ensures k <= |cs| && Heard(p, v, xs[..n]) == Loopback.CleanAll(cfg, Bytes(cs[..k])) && OnTime(cfg, period, cs, n, k)
  {
    hide AtChar, RunFrom, StreamMargin, OnTime, Loopback.CleanAll, Heard;
    SpanLong(cfg, period);
    ReadyFor(p, v, cfg, inc, period, cs, xs, j);
    var done := CharHeard(p, v, cfg, inc, period, cs, xs, j);
    if n < done {
      k := j;
      if k > 0 {
        SpacedAt(cfg, period, cs, k - 1);
      }
      hide OnLine, Spaced, Span;
      assert Heard(p, v, xs[..n]) == Loopback.CleanAll(cfg, Bytes(cs[..j]));
    } else {
      k := j + 1;
      hide OnLine, Spaced, Span;
      assert Heard(p, v, xs[..n]) == Loopback.CleanAll(cfg, Bytes(cs[..j + 1]));
    }
    TimelyBetween(cfg, period, cs, n, k);
  }

  lemma SpacedAt(cfg: Config, period: nat, cs: seq<Char>, j: nat)
    requires Spaced(cfg, period, cs) && j + 1 < |cs|
    ensures cs[j].start + Span(cfg, period) <= cs[j + 1].start
  {
  }

  /** A stream of characters within the stream margin, with any gaps or none, is decoded character by character
      in any generator phase: in every state n the records heard are the clean records of the first k bytes,
      each of which began at least five clocks ago, and no other character has been over for two clocks. */
  lemma StreamDecoded(p: Params, v: CoreView, cfg: Config, inc: nat, period: nat, cs: seq<Char>, xs: seq<CoreIn>, n: nat)
    returns (k: nat)
    requires period >= 1 && p.oversample >= 1 && inc < p.Modulus() && Waiting(v) && n <= |xs|
    requires OnLine(cfg, inc, period, cs, xs)
    requires StreamMargin(p.Modulus(), inc, p.oversample, period, Latch(cfg).Length())
    ensures k <= |cs| && Heard(p, v, xs[..n]) == Loopback.CleanAll(cfg, Bytes(cs[..k])) && OnTime(cfg, period, cs, n, k)
    ensures n == |xs| ==> k == |cs|
  {
    k := StreamUpTo(p, v, cfg, inc, period, cs, xs, |cs|, n);
    if n == |xs| && k < |cs| {
      CharFits(cfg, inc, period, cs, xs, k);
      assert false;
    }
  }
}
