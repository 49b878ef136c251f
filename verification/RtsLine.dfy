/** RTS flow control on the line itself: a sender that starts each character only while RTS is active cannot
    overrun the receiver, and nothing it sends is lost. */
module RtsLine {
  import opened UartFormat
  import opened UartCore
  import opened RtsSafety
  import opened ExternalStream
  import SamplingMargin
  import UartRx
  import Conservation
  import Loopback

  /** Every character is started in a clock in which RTS is active. */
  ghost predicate StartsOnRts(p: Params, cs: seq<Char>, xs: seq<CoreIn>) {
    forall j :: 0 <= j < |cs| && cs[j].start < |xs| ==>
      RtsActive(Run(p, xs[..cs[j].start]), xs[cs[j].start])
  }

  lemma {:induction false} RunIsRunFrom(p: Params, xs: seq<CoreIn>)
    ensures Run(p, xs) == SamplingMargin.RunFrom(p, Reset(p), xs)
    decreases |xs|
  {
    if xs != [] {
      RunIsRunFrom(p, xs[..|xs| - 1]);
      hide Next;
    }
  }

  /** What has been heard is what has been decoded and the record that is up. */
  lemma {:induction false} HeardIsDecoded(p: Params, xs: seq<CoreIn>)
    ensures Heard(p, Reset(p), xs) == Conservation.RxLogOf(p, xs).decoded + UartRx.Pulse(Run(p, xs).rx.out)
    decreases |xs|
  {
    RunIsRunFrom(p, xs);
    if xs != [] {
      HeardIsDecoded(p, xs[..|xs| - 1]);
      hide Next, SamplingMargin.RunFrom;
    }
  }

  /** Characters begun before clock n. */
  function Started(cs: seq<Char>, n: nat): (m: nat)
    ensures m <= |cs| && (m > 0 ==> cs[m - 1].start < n)
    ensures m < |cs| ==> cs[m].start >= n
  {
    if cs == [] then 0
    else if cs[|cs| - 1].start < n then |cs|
    else Started(cs[..|cs| - 1], n)
  }

  function Arrived(p: Params, xs: seq<CoreIn>): nat {
    |Conservation.RxLogOf(p, xs).decoded|
  }

  lemma StartedAtLeast(cfg: Config, period: nat, cs: seq<Char>, n: nat, k: nat)
    requires Spaced(cfg, period, cs) && 0 < k <= |cs| && cs[k - 1].start < n
    ensures Started(cs, n) >= k
  {
    var m := Started(cs, n);
    if m < k {
      Later(cfg, period, cs, m, k - 1);
    }
  }

  /** Never more than two: of three characters the first is over long before the third begins. */
  lemma AtMostTwo(cfg: Config, period: nat, cs: seq<Char>, i: nat, k: nat)
    requires period >= 3 && Spaced(cfg, period, cs) && k <= |cs| && OnTime(cfg, period, cs, i, k)
    ensures Started(cs, i + 1) <= k + 2
  {
    var m := Started(cs, i + 1);
    if m > k + 2 {
      SpanLong(cfg, period);
      Later(cfg, period, cs, k, k + 1);
      Later(cfg, period, cs, k + 1, k + 2);
      Later(cfg, period, cs, k + 2, m - 1);
    }
  }

  lemma StartedNext(cfg: Config, period: nat, cs: seq<Char>, i: nat)
    requires period >= 3 && Spaced(cfg, period, cs)
    ensures Started(cs, i) <= Started(cs, i + 1)
    ensures Started(cs, i) < Started(cs, i + 1) ==> cs[Started(cs, i)].start == i
  {
    var m, m' := Started(cs, i), Started(cs, i + 1);
    if m < m' {
      Later(cfg, period, cs, m, m' - 1);
    } else if m' < m {
      Later(cfg, period, cs, m', m - 1);
    }
  }

  /** The sender's characters in flight: begun, and not yet in the FIFO. */
  lemma Flight(p: Params, cfg: Config, inc: nat, period: nat, cs: seq<Char>, xs: seq<CoreIn>, i: nat) returns (k: nat)
    requires period >= 1 && p.oversample >= 1 && inc < p.Modulus() && i <= |xs|
    requires OnLine(cfg, inc, period, cs, xs)
    requires InMargin(p, cfg, inc, period)
    ensures k <= |cs| && OnTime(cfg, period, cs, i, k)
    ensures Arrived(p, xs[..i]) + (if RxArrives(Run(p, xs[..i])) then 1 else 0) == k <= Started(cs, i)
  {
    hide OnLine, SamplingMargin.RunFrom, Heard, Run, Conservation.RxLogOf;
    k := StreamDecoded(p, Reset(p), cfg, inc, period, cs, xs, i);
    HeardIsDecoded(p, xs[..i]);
    if k > 0 {
      assert Spaced(cfg, period, cs) by {
        OnLineSpaced(cfg, inc, period, cs, xs);
      }
      StartedAtLeast(cfg, period, cs, i, k);
    }
  }

  predicate InMargin(p: Params, cfg: Config, inc: nat, period: nat) {
    StreamMargin(p.Modulus(), inc, p.oversample, period, Latch(cfg).Length())
  }

  lemma OnLineSpaced(cfg: Config, inc: nat, period: nat, cs: seq<Char>, xs: seq<CoreIn>)
    requires period >= 1 && OnLine(cfg, inc, period, cs, xs)
    ensures Spaced(cfg, period, cs)
  {
  }

  /** Characters begun and not yet in the FIFO, clock by clock. */
  function InFlight(p: Params, cs: seq<Char>, xs: seq<CoreIn>, i: nat): nat
    requires i <= |xs|
  {
    var begun, arrived := Started(cs, i), Arrived(p, xs[..i]);
    if begun >= arrived then begun - arrived else 0
  }

  function FlightLog(p: Params, cs: seq<Char>, xs: seq<CoreIn>): (s: seq<nat>)
    ensures |s| == |xs| + 1 && forall i :: 0 <= i < |s| ==> s[i] == InFlight(p, cs, xs, i)
  {
    seq(|xs| + 1, i requires 0 <= i < |xs| + 1 => InFlight(p, cs, xs, i))
  }

  lemma ArrivedNext(p: Params, xs: seq<CoreIn>, i: nat)
    requires i < |xs|
    ensures Arrived(p, xs[..i + 1]) == Arrived(p, xs[..i]) + if RxArrives(Run(p, xs[..i])) then 1 else 0
  {
    assert xs[..i + 1][..i] == xs[..i];
  }

  /** One clock of the sender is one clock of an obedient peer with two characters outstanding at most. */
  lemma LineClock(p: Params, cfg: Config, inc: nat, period: nat, cs: seq<Char>, xs: seq<CoreIn>, i: nat)
    requires period >= 1 && p.oversample >= 1 && inc < p.Modulus() && i < |xs|
    requires OnLine(cfg, inc, period, cs, xs) && InMargin(p, cfg, inc, period) && StartsOnRts(p, cs, xs)
    ensures PeerClock(Run(p, xs[..i]), xs[i], InFlight(p, cs, xs, i), InFlight(p, cs, xs, i + 1), 2)
  {
    assert period >= 3;
    OnLineSpaced(cfg, inc, period, cs, xs);
    hide OnLine, Run, InMargin, Arrived, OnTime, Spaced, Started;
    var k := Flight(p, cfg, inc, period, cs, xs, i);
    ArrivedNext(p, xs, i);
    AtMostTwo(cfg, period, cs, i, k);
    StartedNext(cfg, period, cs, i);
  }

  /** The sender is an obedient peer. */
  lemma LineObeys(p: Params, cfg: Config, inc: nat, period: nat, cs: seq<Char>, xs: seq<CoreIn>)
    requires period >= 1 && p.oversample >= 1 && inc < p.Modulus()
    requires OnLine(cfg, inc, period, cs, xs) && InMargin(p, cfg, inc, period) && StartsOnRts(p, cs, xs)
    requires forall i :: 0 <= i < |xs| ==> xs[i].hwFlow
    ensures ObedientRun(p, xs, FlightLog(p, cs, xs), 2)
  {
    var s := FlightLog(p, cs, xs);
    hide OnLine, InMargin, StartsOnRts, PeerClock, FlightLog;
    assert s[0] == 0 by {
      assert xs[..0] == [];
    }
    hide Run, InFlight;
    forall i | 0 <= i < |xs|
      ensures xs[i].hwFlow && PeerClock(Run(p, xs[..i]), xs[i], s[i], s[i + 1], 2)
    {
      LineClock(p, cfg, inc, period, cs, xs, i);
    }
  }

  /** On the line: characters within the stream margin, each started only while RTS is active, never overrun a
      FIFO with room for two above the ceiling, whatever is popped, cleared or transmitted meanwhile. (A run that
      ends within a character is a part of one that does not.) */
  lemma LineNoOverrun(p: Params, cfg: Config, inc: nat, period: nat, cs: seq<Char>, xs: seq<CoreIn>, i: nat)
    requires p.hasRtsCts && period >= 1 && p.oversample >= 1 && inc < p.Modulus() && i < |xs|
    requires OnLine(cfg, inc, period, cs, xs) && InMargin(p, cfg, inc, period) && StartsOnRts(p, cs, xs)
    requires forall i :: 0 <= i < |xs| ==> xs[i].hwFlow
    requires Ceiling(p) + 2 <= p.rxDepth
    ensures !Overrun(p, Run(p, xs[..i]), xs[i])
  {
    hide OnLine, InMargin, StartsOnRts, ObedientRun, Run, Overrun;
    LineObeys(p, cfg, inc, period, cs, xs);
    NoOverrun(p, xs, FlightLog(p, cs, xs), 2, i);
  }

  /** And nothing is lost: without clears, the records popped, followed by those in the FIFO, are the bytes sent,
      masked, in order and without error flags. */
  lemma LineLossless(p: Params, cfg: Config, inc: nat, period: nat, cs: seq<Char>, xs: seq<CoreIn>)
    requires p.hasRtsCts && period >= 1 && p.oversample >= 1 && inc < p.Modulus()
    requires OnLine(cfg, inc, period, cs, xs) && InMargin(p, cfg, inc, period) && StartsOnRts(p, cs, xs)
    requires forall i :: 0 <= i < |xs| ==> xs[i].hwFlow && !xs[i].rxClear
    requires Ceiling(p) + 2 <= p.rxDepth
    ensures Conservation.RxLogOf(p, xs).popped + Run(p, xs).rxQueue + UartRx.Pulse(Run(p, xs).rx.out)
         == Loopback.CleanAll(cfg, Bytes(cs))
  {
    hide OnLine, InMargin, StartsOnRts, Run, Overrun, Heard, Conservation.RxLogOf, Loopback.CleanAll, SamplingMargin.RunFrom;
    forall i | 0 <= i < |xs|
      ensures !Overrun(p, Run(p, xs[..i]), xs[i])
    {
      LineNoOverrun(p, cfg, inc, period, cs, xs, i);
    }
    NothingDropped(p, xs);
    Conservation.RxPrefix(p, xs);
    HeardIsDecoded(p, xs);
    WholeStream(p, cfg, inc, period, cs, xs);
  }

  lemma WholeStream(p: Params, cfg: Config, inc: nat, period: nat, cs: seq<Char>, xs: seq<CoreIn>)
    requires period >= 1 && p.oversample >= 1 && inc < p.Modulus()
    requires OnLine(cfg, inc, period, cs, xs) && InMargin(p, cfg, inc, period)
    ensures Heard(p, Reset(p), xs) == Loopback.CleanAll(cfg, Bytes(cs))
  {
    hide OnLine, Heard, Loopback.CleanAll, SamplingMargin.RunFrom;
    var k := StreamDecoded(p, Reset(p), cfg, inc, period, cs, xs, |xs|);
    assert xs[..|xs|] == xs && cs[..|cs|] == cs;
  }

  lemma {:induction false} NothingDropped(p: Params, xs: seq<CoreIn>)
    requires forall i :: 0 <= i < |xs| ==> !xs[i].rxClear && !Overrun(p, Run(p, xs[..i]), xs[i])
    ensures Conservation.RxLogOf(p, xs).overrun == [] && Conservation.RxLogOf(p, xs).discarded == []
    decreases |xs|
  {
    if xs != [] {
      var m := |xs| - 1;
      var ys := xs[..m];
      hide Run, Overrun;
      forall i | 0 <= i < m
        ensures !ys[i].rxClear && !Overrun(p, Run(p, ys[..i]), ys[i])
      {
        assert ys[..i] == xs[..i];
      }
      NothingDropped(p, ys);
      assert !Overrun(p, Run(p, xs[..m]), xs[m]);
    }
  }
}
