/** tx_agent.cpp and the loop of tx_coroutines.cpp: the queue, ticket and history bookkeeping of the sending
    agent. Testcases and the per-port agent loops interleave; every suspension point ends an event. */
module TxAgent {
  import opened UartFormat
  import opened VipCodec
  import Scoreboard

  /** Tickets are 32-bit counters. */
  const TICKETS: nat := 0x1_0000_0000

  datatype Item = Item(ticket: nat, tx: TxItem)

  /** Where an agent loop is suspended: polling, waiting for RTS with a frame in the queue, or sending. */
  datatype Phase = Idle | AwaitingRts | Sending(item: Item)

  datatype Port = Port(pending: seq<Item>, phase: Phase, history: seq<VFrame>, nextBadStop: bool, nextBadParity: bool,
                       autoExpect: bool)

  datatype AgentView = AgentView(ports: seq<Port>, nextTicket: nat, done: map<nat, bool>)

  datatype Event =
    | Enqueue(port: nat, data: Byte)
    | ArmFramingError(port: nat)
    | ArmParityError(port: nat)
    | SetAutoExpect(port: nat, en: bool)
    | SeePending(port: nat)
    | RtsTimeout(port: nat)
    | Launch(port: nat)
    | Finish(port: nat)
    | ResetCase

  const QUIET := Port([], Idle, [], false, false, false)

  function Reset(n: nat): (a: AgentView)
    ensures |a.ports| == n && forall p :: 0 <= p < n ==> a.ports[p] == QUIET
  {
    AgentView(seq(n, _ => QUIET), 1, map[])
  }

  /** `UartTx::TxItem::frame`, the frame an item claims to be: `make_item_` hands it to the scoreboard and
      `send_item_` keeps it as history. */
  function Claimed(tx: TxItem): VFrame {
    VFrame(tx.data, tx.forceBadParity, tx.forceBadStop, false)
  }

  function DataOf(e: Event): Byte {
    match e
    case Enqueue(_, data) => data
    case _ => ZERO_BYTE
  }

  function MakeItem(a: AgentView, port: nat, data: Byte, dataBits: nat): Item
    requires port < |a.ports| && dataBits <= 8
  {
    Item(a.nextTicket, TxItem(Mask(data, dataBits), a.ports[port].nextBadStop, a.ports[port].nextBadParity))
  }

  /** `reset_case` forgets queues, histories, armed errors and tickets; an agent loop goes on where it was. */
  function ForgetAll(ports: seq<Port>): (r: seq<Port>)
    ensures |r| == |ports|
    ensures forall p :: 0 <= p < |r| ==> r[p] == Port([], ports[p].phase, [], false, false, ports[p].autoExpect)
  {
    seq(|ports|, p requires 0 <= p < |ports| => Port([], ports[p].phase, [], false, false, ports[p].autoExpect))
  }

  /** What an event does to its port. An event that cannot happen in the present phase changes nothing; taking
      the front of an empty queue is one of them, see LaunchUndefined. */
  function NextPort(p: Port, e: Event, item: Item): Port {
    match e
    case Enqueue(_, _) => p.(pending := p.pending + [item], nextBadStop := false, nextBadParity := false)
    case ArmFramingError(_) => p.(nextBadStop := true)
    case ArmParityError(_) => p.(nextBadParity := true)
    case SetAutoExpect(_, en) => p.(autoExpect := en)
    case SeePending(_) => if p.phase.Idle? && p.pending != [] then p.(phase := AwaitingRts) else p
    case RtsTimeout(_) => if p.phase.AwaitingRts? then p.(phase := Idle) else p
    case Launch(_) =>
      if p.phase.AwaitingRts? && p.pending != [] then
        p.(pending := p.pending[1..], phase := Sending(p.pending[0]))
      else p
    case Finish(_) =>
      if p.phase.Sending? then p.(phase := Idle, history := p.history + [Claimed(p.phase.item.tx)]) else p
    case ResetCase => p
  }

  function Next(a: AgentView, e: Event, dataBits: nat): (b: AgentView)
    requires dataBits <= 8
    ensures |b.ports| == |a.ports|
  {
    if e.ResetCase? then AgentView(ForgetAll(a.ports), a.nextTicket, map[])
    else if e.port >= |a.ports| then a
    else
      var p := a.ports[e.port];
      var item := MakeItem(a, e.port, DataOf(e), dataBits);
      AgentView(a.ports[e.port := NextPort(p, e, item)],
                if e.Enqueue? then (a.nextTicket + 1) % TICKETS else a.nextTicket,
                if e.Enqueue? then a.done[item.ticket := false]
                else if e.Finish? && p.phase.Sending? then a.done[p.phase.item.ticket := true] else a.done)
  }

  predicate IsDone(a: AgentView, ticket: nat) {
    ticket in a.done && a.done[ticket]
  }

  /** Any interleaving of n agent loops and their testcases. */
  function Run(n: nat, es: seq<Event>, dataBits: nat): (a: AgentView)
    requires dataBits <= 8
    ensures |a.ports| == n
    decreases |es|
  {
    if es == [] then Reset(n) else Next(Run(n, es[..|es| - 1], dataBits), es[|es| - 1], dataBits)
  }

  /** Tickets handed out. */
  function Enqueues(n: nat, es: seq<Event>): (k: nat)
    decreases |es|
  {
    if es == [] then 0
    else
      var e := es[|es| - 1];
      Enqueues(n, es[..|es| - 1]) + if e.Enqueue? && e.port < n then 1 else 0
  }

  // ---- What an observer has written down since the last reset_case ----

  /** The items enqueued on a port, how many of them have been sent, the frames sent for items launched before
      the reset, and whether such an item is still being sent. */
  datatype PortLog = PortLog(items: seq<Item>, sent: nat, stale: seq<VFrame>, late: bool)

  function Restart(ports: seq<Port>): (r: seq<PortLog>)
    ensures |r| == |ports|
    ensures forall p :: 0 <= p < |r| ==> r[p] == PortLog([], 0, [], ports[p].phase.Sending?)
  {
    seq(|ports|, p requires 0 <= p < |ports| => PortLog([], 0, [], ports[p].phase.Sending?))
  }

  function NextPortLog(p: Port, e: Event, item: Item, log: PortLog): PortLog {
    match e
    case Enqueue(_, _) => log.(items := log.items + [item])
    case Finish(_) =>
      if !p.phase.Sending? then log
      else if log.late then log.(stale := log.stale + [Claimed(p.phase.item.tx)], late := false)
      else log.(sent := log.sent + 1)
    case _ => log
  }

  function NextLog(a: AgentView, e: Event, dataBits: nat, logs: seq<PortLog>): (r: seq<PortLog>)
    requires dataBits <= 8 && |logs| == |a.ports|
    ensures |r| == |logs|
  {
    if e.ResetCase? then Restart(a.ports)
    else if e.port >= |logs| then logs
    else
      var item := MakeItem(a, e.port, DataOf(e), dataBits);
      logs[e.port := NextPortLog(a.ports[e.port], e, item, logs[e.port])]
  }

  function Logs(n: nat, es: seq<Event>, dataBits: nat): (logs: seq<PortLog>)
    requires dataBits <= 8
    ensures |logs| == n
    decreases |es|
  {
    if es == [] then seq(n, _ => PortLog([], 0, [], false))
    else
      var fs := es[..|es| - 1];
      NextLog(Run(n, fs, dataBits), es[|es| - 1], dataBits, Logs(n, fs, dataBits))
  }

  function Frames(items: seq<Item>): (s: seq<VFrame>)
    ensures |s| == |items| && forall i :: 0 <= i < |s| ==> s[i] == Claimed(items[i].tx)
  {
    seq(|items|, i requires 0 <= i < |items| => Claimed(items[i].tx))
  }

  // ---- The invariant ----

  /** A port's items are those sent, the one being sent and those waiting, in the order of enqueueing. */
  ghost predicate PortSound(p: Port, log: PortLog) {
    var flying := if p.phase.Sending? && !log.late then [p.phase.item] else [];
    && log.sent <= |log.items|
    && log.items == log.items[..log.sent] + flying + p.pending
    && p.history == log.stale + Frames(log.items[..log.sent])
    && (log.late ==> p.phase.Sending? && log.sent == 0 && log.stale == [])
    && |log.stale| <= 1
  }

  predicate Known(logs: seq<PortLog>, p: nat, i: nat) {
    p < |logs| && i < |logs[p].items|
  }

  function Ticket(logs: seq<PortLog>, p: nat, i: nat): nat
    requires Known(logs, p, i)
  {
    logs[p].items[i].ticket
  }

  /** The number of a ticket in the order of handing out, as long as the counter has gone round once at most. */
  function Serial(ticket: nat): nat {
    if ticket == 0 then TICKETS else ticket
  }

  ghost predicate Distinct(logs: seq<PortLog>) {
    forall p: nat, i: nat, q: nat, j: nat :: Known(logs, p, i) && Known(logs, q, j) ==>
      Ticket(logs, p, i) == Ticket(logs, q, j) ==> p == q && i == j
  }

  /** The tickets handed out since the reset are known, and done exactly for the items sent. Serial
      numbers below `base` are older. */
  ghost predicate DoneSound(done: map<nat, bool>, logs: seq<PortLog>, base: nat, next: nat) {
    && base <= next
    && forall p: nat, i: nat :: Known(logs, p, i) ==>
         var t := Ticket(logs, p, i);
         base <= Serial(t) < next && t in done && done[t] == (i < logs[p].sent)
  }

  ghost predicate LateOld(a: AgentView, logs: seq<PortLog>, base: nat)
    requires |logs| == |a.ports|
  {
    forall p :: 0 <= p < |logs| && logs[p].late && a.ports[p].phase.Sending? ==> Serial(a.ports[p].phase.item.ticket) < base
  }

  ghost predicate TicketsSound(a: AgentView, logs: seq<PortLog>, base: nat, next: nat)
    requires |logs| == |a.ports|
  {
    Distinct(logs) && DoneSound(a.done, logs, base, next) && LateOld(a, logs, base)
  }

  ghost predicate PortsSound(a: AgentView, logs: seq<PortLog>) {
    |logs| == |a.ports| && forall p :: 0 <= p < |logs| ==> PortSound(a.ports[p], logs[p])
  }

  ghost predicate Sound(a: AgentView, logs: seq<PortLog>, base: nat, next: nat) {
    && PortsSound(a, logs)
    && TicketsSound(a, logs, base, next)
    && a.nextTicket == next % TICKETS
  }

  lemma FramesSnoc(items: seq<Item>, k: nat)
    requires k < |items|
    ensures items[..k + 1] == items[..k] + [items[k]]
    ensures Frames(items[..k + 1]) == Frames(items[..k]) + [Claimed(items[k].tx)]
  {
  }

  /** Finishing moves the item being sent to those sent. */
  lemma PortFinish(p: Port, e: Event, item: Item, log: PortLog)
    requires PortSound(p, log) && e.Finish? && p.phase.Sending?
    ensures PortSound(NextPort(p, e, item), NextPortLog(p, e, item, log))
    ensures !log.late ==> log.sent < |log.items| && log.items[log.sent] == p.phase.item
  {
    var items, sent := log.items, log.sent;
    if log.late {
      assert items[..0] == [];
      assert items == items[..0] + [] + p.pending;
    } else {
      assert items[sent] == p.phase.item;
      FramesSnoc(items, sent);
      assert items == items[..sent + 1] + [] + p.pending;
    }
  }

  lemma PortEnqueue(p: Port, e: Event, item: Item, log: PortLog)
    requires PortSound(p, log) && e.Enqueue?
    ensures PortSound(NextPort(p, e, item), NextPortLog(p, e, item, log))
  {
    assert (log.items + [item])[..log.sent] == log.items[..log.sent];
  }

  lemma PortLaunch(p: Port, e: Event, item: Item, log: PortLog)
    requires PortSound(p, log) && e.Launch? && p.phase.AwaitingRts? && p.pending != []
    ensures PortSound(NextPort(p, e, item), NextPortLog(p, e, item, log))
  {
    assert p.pending == [p.pending[0]] + p.pending[1..];
  }

  /** Whatever happens on a port, its order of items is kept. */
  lemma PortStep(p: Port, e: Event, item: Item, log: PortLog)
    requires PortSound(p, log)
    ensures PortSound(NextPort(p, e, item), NextPortLog(p, e, item, log))
  {
    match e
    case Enqueue(_, _) =>
      PortEnqueue(p, e, item, log);
      hide PortSound;
    case Launch(_) =>
      if p.phase.AwaitingRts? && p.pending != [] {
        PortLaunch(p, e, item, log);
        hide PortSound;
      }
    case Finish(_) =>
      if p.phase.Sending? {
        PortFinish(p, e, item, log);
        hide PortSound;
      }
    case _ =>
  }

  /** A new ticket differs from all known ones. */
  lemma EnqueueDistinct(done: map<nat, bool>, logs: seq<PortLog>, base: nat, next: nat, port: nat, item: Item)
    requires Distinct(logs) && DoneSound(done, logs, base, next) && port < |logs| && Serial(item.ticket) == next
    requires PortSentWithin(logs)
    ensures var logs' := logs[port := logs[port].(items := logs[port].items + [item])];
            Distinct(logs') && DoneSound(done[item.ticket := false], logs', base, next + 1)
  {
    var logs' := logs[port := logs[port].(items := logs[port].items + [item])];
    forall p: nat, i: nat | Known(logs', p, i)
      ensures if p == port && i == |logs[p].items| then Ticket(logs', p, i) == item.ticket
              else Known(logs, p, i) && Ticket(logs', p, i) == Ticket(logs, p, i) && Serial(Ticket(logs, p, i)) < next
    {
    }
  }

  ghost predicate PortSentWithin(logs: seq<PortLog>) {
    forall p :: 0 <= p < |logs| ==> logs[p].sent <= |logs[p].items|
  }

  lemma TicketsEnqueue(a: AgentView, e: Event, dataBits: nat, logs: seq<PortLog>, base: nat, next: nat)
    requires dataBits <= 8 && Sound(a, logs, base, next) && e.Enqueue? && e.port < |logs| && 1 <= next <= TICKETS
    ensures TicketsSound(Next(a, e, dataBits), NextLog(a, e, dataBits, logs), base, next + 1)
  {
    assert Serial(a.nextTicket) == next;
    assert PortSentWithin(logs);
    EnqueueDistinct(a.done, logs, base, next, e.port, MakeItem(a, e.port, DataOf(e), dataBits));
    hide PortSound, Distinct, DoneSound;
  }

  /** Completing the next item of a port keeps the tickets right. */
  lemma FinishDone(done: map<nat, bool>, logs: seq<PortLog>, base: nat, next: nat, port: nat)
    requires Distinct(logs) && DoneSound(done, logs, base, next)
    requires port < |logs| && Known(logs, port, logs[port].sent)
    ensures var logs' := logs[port := logs[port].(sent := logs[port].sent + 1)];
            var t := Ticket(logs, port, logs[port].sent);
            Distinct(logs') && DoneSound(done[t := true], logs', base, next)
  {
    var logs' := logs[port := logs[port].(sent := logs[port].sent + 1)];
    forall p: nat, i: nat | Known(logs', p, i)
      ensures Known(logs, p, i) && Ticket(logs', p, i) == Ticket(logs, p, i)
    {
    }
  }

  /** Completing an item from before the reset does not touch the known tickets. */
  lemma FinishLate(done: map<nat, bool>, logs: seq<PortLog>, base: nat, next: nat, port: nat, log: PortLog, t: nat)
    requires Distinct(logs) && DoneSound(done, logs, base, next) && port < |logs| && Serial(t) < base
    requires log.items == logs[port].items && log.sent == logs[port].sent
    ensures Distinct(logs[port := log]) && DoneSound(done[t := true], logs[port := log], base, next)
  {
    var logs' := logs[port := log];
    forall p: nat, i: nat | Known(logs', p, i)
      ensures Known(logs, p, i) && Ticket(logs', p, i) == Ticket(logs, p, i)
    {
    }
  }

  lemma TicketsFinish(a: AgentView, e: Event, dataBits: nat, logs: seq<PortLog>, base: nat, next: nat)
    requires dataBits <= 8 && Sound(a, logs, base, next) && e.Finish? && e.port < |logs|
    requires a.ports[e.port].phase.Sending?
    ensures TicketsSound(Next(a, e, dataBits), NextLog(a, e, dataBits, logs), base, next)
  {
    var p, log := a.ports[e.port], logs[e.port];
    PortFinish(p, e, MakeItem(a, e.port, DataOf(e), dataBits), log);
    if log.late {
      FinishLate(a.done, logs, base, next, e.port, NextPortLog(p, e, MakeItem(a, e.port, DataOf(e), dataBits), log),
                 p.phase.item.ticket);
    } else {
      FinishDone(a.done, logs, base, next, e.port);
    }
    hide PortSound, Distinct, DoneSound;
  }

  lemma TicketsReset(a: AgentView, e: Event, dataBits: nat, logs: seq<PortLog>, base: nat, next: nat)
    requires dataBits <= 8 && Sound(a, logs, base, next) && e.ResetCase?
    ensures TicketsSound(Next(a, e, dataBits), NextLog(a, e, dataBits, logs), next, next)
  {
    forall p | 0 <= p < |logs| && a.ports[p].phase.Sending?
      ensures Serial(a.ports[p].phase.item.ticket) < next
    {
      if !logs[p].late {
        PortFinish(a.ports[p], Finish(p), a.ports[p].phase.item, logs[p]);
        assert Known(logs, p, logs[p].sent);
        assert Ticket(logs, p, logs[p].sent) == a.ports[p].phase.item.ticket;
      }
    }
    hide PortSound;
  }

  /** The first ticket handed out after the last reset. */
  function Base(n: nat, es: seq<Event>): (b: nat)
    ensures 1 <= b <= 1 + Enqueues(n, es)
    decreases |es|
  {
    if es == [] then 1
    else if es[|es| - 1].ResetCase? then 1 + Enqueues(n, es)
    else Base(n, es[..|es| - 1])
  }

  lemma PortsStep(a: AgentView, e: Event, dataBits: nat, logs: seq<PortLog>)
    requires dataBits <= 8 && PortsSound(a, logs)
    ensures PortsSound(Next(a, e, dataBits), NextLog(a, e, dataBits, logs))
  {
    if !e.ResetCase? && e.port < |logs| {
      PortStep(a.ports[e.port], e, MakeItem(a, e.port, DataOf(e), dataBits), logs[e.port]);
      hide PortSound, NextPort, NextPortLog;
    }
  }

  /** Events that hand out or complete no ticket. */
  lemma TicketsQuiet(a: AgentView, e: Event, dataBits: nat, logs: seq<PortLog>, base: nat, next: nat)
    requires dataBits <= 8 && Sound(a, logs, base, next) && !e.ResetCase? && !e.Enqueue?
    requires e.Finish? && e.port < |logs| ==> !a.ports[e.port].phase.Sending?
    ensures NextLog(a, e, dataBits, logs) == logs
    ensures TicketsSound(Next(a, e, dataBits), logs, base, next)
  {
    hide Distinct, DoneSound, Frames;
  }

  lemma SoundStep(a: AgentView, e: Event, dataBits: nat, logs: seq<PortLog>, base: nat, next: nat)
    requires dataBits <= 8 && Sound(a, logs, base, next)
    requires e.Enqueue? && e.port < |logs| ==> 1 <= next <= TICKETS
    ensures Sound(Next(a, e, dataBits), NextLog(a, e, dataBits, logs), if e.ResetCase? then next else base,
                  if e.Enqueue? && e.port < |logs| then next + 1 else next)
  {
    PortsStep(a, e, dataBits, logs);
    if e.ResetCase? {
      TicketsReset(a, e, dataBits, logs, base, next);
    } else if e.Enqueue? && e.port < |logs| {
      TicketsEnqueue(a, e, dataBits, logs, base, next);
    } else if e.Finish? && e.port < |logs| && a.ports[e.port].phase.Sending? {
      TicketsFinish(a, e, dataBits, logs, base, next);
    } else if !e.Enqueue? {
      TicketsQuiet(a, e, dataBits, logs, base, next);
    }
    hide PortSound, TicketsSound, NextLog, NextPort;
  }

  /** On every interleaving the bookkeeping is sound. */
  lemma {:induction false} RunSound(n: nat, es: seq<Event>, dataBits: nat)
    requires dataBits <= 8 && Enqueues(n, es) <= TICKETS
    ensures Sound(Run(n, es, dataBits), Logs(n, es, dataBits), Base(n, es), 1 + Enqueues(n, es))
    decreases |es|
  {
    if es != [] {
      var fs, e := es[..|es| - 1], es[|es| - 1];
      hide Sound, Next, NextLog;
      RunSound(n, fs, dataBits);
      SoundStep(Run(n, fs, dataBits), e, dataBits, Logs(n, fs, dataBits), Base(n, fs), 1 + Enqueues(n, fs));
    } else {
      assert Frames([]) == [];
    }
  }

  /** A ticket handed out since the last reset_case is done exactly when its frame has been sent. */
  lemma DoneExact(n: nat, es: seq<Event>, dataBits: nat, p: nat, i: nat)
    requires dataBits <= 8 && Enqueues(n, es) <= TICKETS && p < n && i < |Logs(n, es, dataBits)[p].items|
    ensures var log := Logs(n, es, dataBits)[p];
            IsDone(Run(n, es, dataBits), log.items[i].ticket) <==> i < log.sent
  {
    RunSound(n, es, dataBits);
    hide PortSound, Distinct, LateOld, Run, Logs;
    var logs := Logs(n, es, dataBits);
    assert Known(logs, p, i) && Ticket(logs, p, i) == logs[p].items[i].ticket;
  }

  /** The history holds the frames of the items sent, in order, behind at most one older frame. */
  lemma HistoryOrder(p: Port, log: PortLog, j: nat)
    requires PortSound(p, log) && j < log.sent
    ensures |p.history| == |log.stale| + log.sent && |log.stale| <= 1
    ensures p.history[|log.stale| + j] == Claimed(log.items[j].tx)
  {
  }

  /** Tickets are done in order: when a ticket handed out on a port since the last reset_case is done, all earlier
      ones on that port are done too, and their frames stand in the history in the order of enqueueing, behind
      at most one frame that was under way at the reset. */
  lemma DoneInOrder(n: nat, es: seq<Event>, dataBits: nat, p: nat, i: nat, j: nat)
    requires dataBits <= 8 && Enqueues(n, es) <= TICKETS && p < n
    requires j <= i < |Logs(n, es, dataBits)[p].items|
    requires IsDone(Run(n, es, dataBits), Logs(n, es, dataBits)[p].items[i].ticket)
    ensures var a, log := Run(n, es, dataBits), Logs(n, es, dataBits)[p];
            && IsDone(a, log.items[j].ticket)
            && |log.stale| <= 1
            && |log.stale| + i < |a.ports[p].history|
            && a.ports[p].history[|log.stale| + j] == Claimed(log.items[j].tx)
  {
    hide Run, Logs, PortSound, TicketsSound, IsDone, Claimed;
    RunSound(n, es, dataBits);
    DoneExact(n, es, dataBits, p, i);
    DoneExact(n, es, dataBits, p, j);
    HistoryOrder(Run(n, es, dataBits).ports[p], Logs(n, es, dataBits)[p], j);
  }

  /** Nothing is lost or repeated, in a run of any length: the items enqueued on a port since the last reset_case
      are those sent, the one being sent and those pending, in order. */
  lemma {:induction false} NothingLost(n: nat, es: seq<Event>, dataBits: nat)
    requires dataBits <= 8
    ensures PortsSound(Run(n, es, dataBits), Logs(n, es, dataBits))
    decreases |es|
  {
    if es != [] {
      var fs, e := es[..|es| - 1], es[|es| - 1];
      NothingLost(n, fs, dataBits);
      var a, logs := Run(n, fs, dataBits), Logs(n, fs, dataBits);
      hide PortSound, Next, NextLog;
      PortsStep(a, e, dataBits, logs);
    } else {
      assert Frames([]) == [];
    }
  }

  /** As long as at most 2^32 tickets were handed out, no two items since the last reset_case share one. */
  lemma TicketsDistinct(n: nat, es: seq<Event>, dataBits: nat)
    requires dataBits <= 8 && Enqueues(n, es) <= TICKETS
    ensures Distinct(Logs(n, es, dataBits))
  {
    RunSound(n, es, dataBits);
    hide PortSound, DoneSound, LateOld, Distinct;
  }

  // ---- What the items hold ----

  /** The places of the Enqueue events on a port since the last reset_case. */
  function Sites(es: seq<Event>, p: nat): (s: seq<nat>)
    ensures forall i :: 0 <= i < |s| ==> s[i] < |es| && es[s[i]].Enqueue? && es[s[i]].port == p
    ensures forall i, j :: 0 <= i < j < |s| ==> s[i] < s[j]
    decreases |es|
  {
    if es == [] || es[|es| - 1].ResetCase? then []
    else
      var rest, e := Sites(es[..|es| - 1], p), es[|es| - 1];
      if e.Enqueue? && e.port == p then rest + [|es| - 1] else rest
  }

  /** The place behind the last reset_case. */
  function SinceReset(es: seq<Event>): (k: nat)
    ensures k <= |es|
    decreases |es|
  {
    if es == [] then 0
    else if es[|es| - 1].ResetCase? then |es|
    else SinceReset(es[..|es| - 1])
  }

  /** Where the time in which item i can be armed begins: behind the previous Enqueue on the port, or behind the
      last reset_case. */
  function ArmedFrom(es: seq<Event>, p: nat, i: nat): (k: nat)
    requires i <= |Sites(es, p)|
    ensures k <= |es|
  {
    if i == 0 then SinceReset(es) else Sites(es, p)[i - 1] + 1
  }

  predicate Occurs(es: seq<Event>, e: Event, from: nat, to: nat)
    requires to <= |es|
  {
    exists k :: from <= k < to && es[k] == e
  }

  /** The item an Enqueue event at place `at` should make. */
  predicate ItemIs(es: seq<Event>, p: nat, dataBits: nat, from: nat, at: nat, tx: TxItem)
    requires dataBits <= 8 && at < |es|
  {
    && es[at].Enqueue? && tx.data == Mask(es[at].data, dataBits)
    && (tx.forceBadStop <==> Occurs(es, ArmFramingError(p), from, at))
    && (tx.forceBadParity <==> Occurs(es, ArmParityError(p), from, at))
  }

  /** Every item is what its event says. */
  predicate ItemsAre(es: seq<Event>, p: nat, dataBits: nat, items: seq<Item>)
    requires dataBits <= 8 && |items| <= |Sites(es, p)|
  {
    forall i :: 0 <= i < |items| ==> ItemIs(es, p, dataBits, ArmedFrom(es, p, i), Sites(es, p)[i], items[i].tx)
  }

  /** Items and armed flags are what the events say. */
  ghost predicate ItemsFollow(es: seq<Event>, p: nat, dataBits: nat, port: Port, items: seq<Item>)
    requires dataBits <= 8
  {
    var n := |Sites(es, p)|;
    && |items| == n && ItemsAre(es, p, dataBits, items)
    && (port.nextBadStop <==> Occurs(es, ArmFramingError(p), ArmedFrom(es, p, n), |es|))
    && (port.nextBadParity <==> Occurs(es, ArmParityError(p), ArmedFrom(es, p, n), |es|))
  }

  lemma OccursSnoc(es: seq<Event>, e: Event, x: Event, from: nat, to: nat)
    requires to <= |es|
    ensures Occurs(es + [e], x, from, to) <==> Occurs(es, x, from, to)
    ensures Occurs(es + [e], x, from, |es| + 1) <==> Occurs(es, x, from, |es|) || (from <= |es| && e == x)
  {
    var fs := es + [e];
    if Occurs(es, x, from, |es|) {
      var k :| from <= k < |es| && es[k] == x;
      assert fs[k] == x;
    }
    if Occurs(es, x, from, to) {
      var k :| from <= k < to && es[k] == x;
      assert fs[k] == x;
    }
    if Occurs(fs, x, from, to) {
      var k :| from <= k < to && fs[k] == x;
      assert es[k] == x;
    }
    if Occurs(fs, x, from, |es| + 1) {
      var k :| from <= k < |es| + 1 && fs[k] == x;
      assert k < |es| ==> es[k] == x;
    }
    if from <= |es| && e == x {
      assert fs[|es|] == x;
    }
  }

  lemma SitesSnoc(es: seq<Event>, e: Event, p: nat)
    ensures Sites(es + [e], p) == if e.ResetCase? then []
                                  else if e.Enqueue? && e.port == p then Sites(es, p) + [|es|] else Sites(es, p)
    ensures SinceReset(es + [e]) == if e.ResetCase? then |es| + 1 else SinceReset(es)
  {
    assert (es + [e])[..|es|] == es;
  }

  lemma ArmedSnoc(es: seq<Event>, e: Event, p: nat, i: nat)
    requires !e.ResetCase? && i <= |Sites(es, p)|
    ensures i <= |Sites(es + [e], p)| && ArmedFrom(es + [e], p, i) == ArmedFrom(es, p, i)
  {
    SitesSnoc(es, e, p);
    hide Sites, SinceReset;
  }

  lemma ItemIsSnoc(es: seq<Event>, e: Event, p: nat, dataBits: nat, from: nat, at: nat, tx: TxItem)
    requires dataBits <= 8 && at < |es| && ItemIs(es, p, dataBits, from, at, tx)
    ensures ItemIs(es + [e], p, dataBits, from, at, tx)
  {
    OccursSnoc(es, e, ArmFramingError(p), from, at);
    OccursSnoc(es, e, ArmParityError(p), from, at);
    hide Occurs;
  }

  /** A new item: its data from its event, its flags from what was armed. */
  lemma FollowEnqueue(es: seq<Event>, e: Event, p: nat, dataBits: nat, port: Port, items: seq<Item>, item: Item)
    requires dataBits <= 8 && ItemsFollow(es, p, dataBits, port, items) && e.Enqueue? && e.port == p
    requires item.tx == TxItem(Mask(e.data, dataBits), port.nextBadStop, port.nextBadParity)
    ensures ItemsFollow(es + [e], p, dataBits, port.(nextBadStop := false, nextBadParity := false), items + [item])
  {
    var fs, n := es + [e], |Sites(es, p)|;
    SitesSnoc(es, e, p);
    NewItem(es, e, p, dataBits, ArmedFrom(es, p, n), item.tx);
    ArmedSnoc(es, e, p, n);
    LastArmed(fs, p);
    NothingArmed(fs, p, |fs|);
    OldItems(es, e, p, dataBits, items);
    hide Sites, SinceReset, ArmedFrom, ItemIs, Occurs, ItemsAre;
    ItemsSnoc(fs, p, dataBits, items, item);
  }

  lemma ItemsSnoc(es: seq<Event>, p: nat, dataBits: nat, items: seq<Item>, item: Item)
    requires dataBits <= 8 && |items| < |Sites(es, p)| && ItemsAre(es, p, dataBits, items)
    requires ItemIs(es, p, dataBits, ArmedFrom(es, p, |items|), Sites(es, p)[|items|], item.tx)
    ensures ItemsAre(es, p, dataBits, items + [item])
  {
    hide ItemIs, Sites, ArmedFrom;
  }

  /** The items that exist already. */
  lemma OldItems(es: seq<Event>, e: Event, p: nat, dataBits: nat, items: seq<Item>)
    requires dataBits <= 8 && !e.ResetCase? && |items| == |Sites(es, p)| && ItemsAre(es, p, dataBits, items)
    ensures |items| <= |Sites(es + [e], p)| && ItemsAre(es + [e], p, dataBits, items)
  {
    SitesSnoc(es, e, p);
    hide Sites, SinceReset, ArmedFrom, ItemIs;
    forall i | 0 <= i < |items|
      ensures ItemIs(es + [e], p, dataBits, ArmedFrom(es + [e], p, i), Sites(es + [e], p)[i], items[i].tx)
    {
      ArmedSnoc(es, e, p, i);
      ItemIsSnoc(es, e, p, dataBits, ArmedFrom(es, p, i), Sites(es, p)[i], items[i].tx);
    }
  }

  lemma NewItem(es: seq<Event>, e: Event, p: nat, dataBits: nat, from: nat, tx: TxItem)
    requires dataBits <= 8 && e.Enqueue? && tx.data == Mask(e.data, dataBits)
    requires tx.forceBadStop <==> Occurs(es, ArmFramingError(p), from, |es|)
    requires tx.forceBadParity <==> Occurs(es, ArmParityError(p), from, |es|)
    ensures ItemIs(es + [e], p, dataBits, from, |es|, tx)
  {
    OccursSnoc(es, e, ArmFramingError(p), from, |es|);
    OccursSnoc(es, e, ArmParityError(p), from, |es|);
    hide Occurs;
  }

  lemma NothingArmed(fs: seq<Event>, p: nat, n: nat)
    requires n == |fs|
    ensures !Occurs(fs, ArmFramingError(p), n, n) && !Occurs(fs, ArmParityError(p), n, n)
  {
  }

  lemma LastArmed(fs: seq<Event>, p: nat)
    requires fs != [] && fs[|fs| - 1].Enqueue? && fs[|fs| - 1].port == p
    ensures ArmedFrom(fs, p, |Sites(fs, p)|) == |fs|
  {
  }

  /** Any other event: the items stay, and the flags follow the Arm events. */
  lemma FollowOther(es: seq<Event>, e: Event, p: nat, dataBits: nat, port: Port, port': Port, items: seq<Item>)
    requires dataBits <= 8 && ItemsFollow(es, p, dataBits, port, items)
    requires !e.ResetCase? && !(e.Enqueue? && e.port == p)
    requires port'.nextBadStop == (port.nextBadStop || e == ArmFramingError(p))
    requires port'.nextBadParity == (port.nextBadParity || e == ArmParityError(p))
    ensures ItemsFollow(es + [e], p, dataBits, port', items)
  {
    var fs, n := es + [e], |Sites(es, p)|;
    SitesSnoc(es, e, p);
    ArmedSnoc(es, e, p, n);
    OccursSnoc(es, e, ArmFramingError(p), ArmedFrom(es, p, n), |es|);
    OccursSnoc(es, e, ArmParityError(p), ArmedFrom(es, p, n), |es|);
    OldItems(es, e, p, dataBits, items);
    hide Sites, SinceReset, ArmedFrom, ItemIs, Occurs, ItemsAre;
  }

  lemma FollowReset(es: seq<Event>, p: nat, dataBits: nat, port: Port)
    requires dataBits <= 8 && !port.nextBadStop && !port.nextBadParity
    ensures ItemsFollow(es + [Event.ResetCase], p, dataBits, port, [])
  {
    SitesSnoc(es, Event.ResetCase, p);
  }

  /** From the events alone: the items of a port since the last reset_case are its Enqueue events in order, each
      with the masked data of its event, and with a forced error exactly when it was armed on the port after the
      previous Enqueue or the reset_case. */
  lemma {:induction false} ItemsFromEvents(n: nat, es: seq<Event>, dataBits: nat, p: nat)
    requires dataBits <= 8 && p < n
    ensures ItemsFollow(es, p, dataBits, Run(n, es, dataBits).ports[p], Logs(n, es, dataBits)[p].items)
    decreases |es|
  {
    if es != [] {
      var fs, e := es[..|es| - 1], es[|es| - 1];
      assert es == fs + [e];
      ItemsFromEvents(n, fs, dataBits, p);
      hide ItemsFollow, Run, Logs;
      EventSnoc(n, fs, e, dataBits);
      FollowStep(fs, e, dataBits, p, Run(n, fs, dataBits), Logs(n, fs, dataBits));
    }
  }

  lemma FollowStep(es: seq<Event>, e: Event, dataBits: nat, p: nat, a: AgentView, logs: seq<PortLog>)
    requires dataBits <= 8 && |logs| == |a.ports| && p < |logs|
    requires ItemsFollow(es, p, dataBits, a.ports[p], logs[p].items)
    ensures ItemsFollow(es + [e], p, dataBits, Next(a, e, dataBits).ports[p], NextLog(a, e, dataBits, logs)[p].items)
  {
    hide ItemsFollow;
    var port, items, next := a.ports[p], logs[p].items, Next(a, e, dataBits).ports[p];
    if e.ResetCase? {
      FollowReset(es, p, dataBits, next);
    } else if e.Enqueue? && e.port == p {
      var item := MakeItem(a, p, e.data, dataBits);
      var made := port.(nextBadStop := false, nextBadParity := false);
      FollowEnqueue(es, e, p, dataBits, port, items, item);
      SameFlags(es + [e], p, dataBits, made, next, items + [item]);
    } else {
      FollowOther(es, e, p, dataBits, port, next, items);
    }
  }

  lemma SameFlags(es: seq<Event>, p: nat, dataBits: nat, port: Port, port': Port, items: seq<Item>)
    requires dataBits <= 8 && ItemsFollow(es, p, dataBits, port, items)
    requires port.nextBadStop == port'.nextBadStop && port.nextBadParity == port'.nextBadParity
    ensures ItemsFollow(es, p, dataBits, port', items)
  {
  }

  /** What the testcases asked for last. */
  function AutoAsked(es: seq<Event>, p: nat): bool
    decreases |es|
  {
    if es == [] then false
    else
      match es[|es| - 1]
      case SetAutoExpect(port, en) => if port == p then en else AutoAsked(es[..|es| - 1], p)
      case _ => AutoAsked(es[..|es| - 1], p)
  }

  /** A port announces its frames exactly when it was last told to; reset_case does not change that. */
  lemma {:induction false} AutoExpectFollows(n: nat, es: seq<Event>, dataBits: nat, p: nat)
    requires dataBits <= 8 && p < n
    ensures Run(n, es, dataBits).ports[p].autoExpect == AutoAsked(es, p)
    decreases |es|
  {
    if es != [] {
      AutoExpectFollows(n, es[..|es| - 1], dataBits, p);
    }
  }

  /** One round of an agent loop sends the front of its queue: from idle with something pending, seeing it, being
      permitted and finishing move the front item to the history and complete its ticket. */
  lemma OneRound(a: AgentView, p: nat, dataBits: nat)
    requires dataBits <= 8 && p < |a.ports| && a.ports[p].phase.Idle? && a.ports[p].pending != []
    ensures var front := a.ports[p].pending[0];
            var b := Next(Next(Next(a, SeePending(p), dataBits), Launch(p), dataBits), Finish(p), dataBits);
            && b.ports[p] == a.ports[p].(pending := a.ports[p].pending[1..],
                                         history := a.ports[p].history + [Claimed(front.tx)])
            && b.done == a.done[front.ticket := true]
            && forall q :: 0 <= q < |a.ports| && q != p ==> b.ports[q] == a.ports[q]
  {
  }

  /** A timed-out wait for RTS changes nothing. */
  lemma TimeoutRound(a: AgentView, p: nat, dataBits: nat)
    requires dataBits <= 8 && p < |a.ports| && a.ports[p].phase.Idle?
    ensures Next(Next(a, SeePending(p), dataBits), RtsTimeout(p), dataBits) == a
  {
  }

  // ---- The counter goes round ----

  function Enqs(k: nat, data: Byte): (es: seq<Event>)
    ensures |es| == k
  {
    seq(k, _ => Enqueue(0, data))
  }

  /** One port after k enqueues: all pending, tickets counted modulo 2^32. */
  ghost predicate Filled(a: AgentView, logs: seq<PortLog>, k: nat) {
    && |a.ports| == |logs| == 1 && a.ports[0].phase.Idle? && |a.ports[0].pending| == k
    && logs[0] == PortLog(a.ports[0].pending, 0, [], false)
    && a.nextTicket == (1 + k) % TICKETS
    && (forall j :: 0 <= j < k ==> a.ports[0].pending[j].ticket == (1 + j) % TICKETS)
  }

  lemma FilledNext(a: AgentView, logs: seq<PortLog>, k: nat, data: Byte, dataBits: nat)
    requires dataBits <= 8 && Filled(a, logs, k)
    ensures Filled(Next(a, Enqueue(0, data), dataBits), NextLog(a, Enqueue(0, data), dataBits, logs), k + 1)
  {
    TicketAfter(k);
  }

  lemma TicketAfter(k: nat)
    ensures ((1 + k) % TICKETS + 1) % TICKETS == (2 + k) % TICKETS
  {
  }

  lemma {:induction false} FilledRun(k: nat, data: Byte, dataBits: nat)
    requires dataBits <= 8
    ensures Enqueues(1, Enqs(k, data)) == k
    ensures Filled(Run(1, Enqs(k, data), dataBits), Logs(1, Enqs(k, data), dataBits), k)
  {
    if k > 0 {
      FilledRun(k - 1, data, dataBits);
      var es := Enqs(k - 1, data);
      assert Enqs(k, data) == es + [Enqueue(0, data)];
      EventSnoc(1, es, Enqueue(0, data), dataBits);
      hide Run, Logs, Enqueues, Enqs;
      FilledNext(Run(1, es, dataBits), Logs(1, es, dataBits), k - 1, data, dataBits);
      hide Filled, Next, NextLog;
    }
  }

  lemma EventSnoc(n: nat, es: seq<Event>, e: Event, dataBits: nat)
    requires dataBits <= 8
    ensures Run(n, es + [e], dataBits) == Next(Run(n, es, dataBits), e, dataBits)
    ensures Logs(n, es + [e], dataBits) == NextLog(Run(n, es, dataBits), e, dataBits, Logs(n, es, dataBits))
    ensures Enqueues(n, es + [e]) == Enqueues(n, es) + if e.Enqueue? && e.port < n then 1 else 0
  {
    hide Next, NextLog;
    assert (es + [e])[..|es|] == es;
  }

  /** The bound is exact: for every larger number of tickets there is a run in which a ticket reads done though
      its frame has not been sent, because an earlier item had the same ticket. */
  lemma TicketsRepeat(k: nat, data: Byte, dataBits: nat)
    requires dataBits <= 8 && k > TICKETS
    ensures var es := Enqs(k, data) + [SeePending(0)] + [Launch(0)] + [Finish(0)];
            var a, log := Run(1, es, dataBits), Logs(1, es, dataBits)[0];
            && Enqueues(1, es) == k && |log.items| == k && log.sent == 1
            && log.items[TICKETS].ticket == log.items[0].ticket && IsDone(a, log.items[TICKETS].ticket)
  {
    hide Run, Logs, Enqueues, Enqs;
    var es := Enqs(k, data);
    FilledRun(k, data, dataBits);
    EventSnoc(1, es, SeePending(0), dataBits);
    EventSnoc(1, es + [SeePending(0)], Launch(0), dataBits);
    EventSnoc(1, es + [SeePending(0)] + [Launch(0)], Finish(0), dataBits);
  }

  // ---- The unguarded front ----

  /** The loop is about to take the front of a queue that has become empty. */
  predicate LaunchUndefined(p: Port) {
    p.phase.AwaitingRts? && p.pending == []
  }

  /** Only a reset_case while the loop waits for RTS gets it there. */
  lemma OnlyResetEmpties(a: AgentView, e: Event, dataBits: nat, p: nat)
    requires dataBits <= 8 && p < |a.ports| && !LaunchUndefined(a.ports[p])
    ensures LaunchUndefined(Next(a, e, dataBits).ports[p]) <==> e.ResetCase? && a.ports[p].phase.AwaitingRts?
  {
  }

  /** And it does: a frame enqueued, seen, and forgotten while RTS is inactive. */
  lemma ResetWhileWaiting(data: Byte, dataBits: nat)
    requires dataBits <= 8
    ensures LaunchUndefined(Run(1, [Enqueue(0, data), SeePending(0), ResetCase], dataBits).ports[0])
  {
    var es := [Enqueue(0, data), SeePending(0), ResetCase];
    assert es[..2] == [Enqueue(0, data), SeePending(0)] && es[..2][..1] == [Enqueue(0, data)];
    assert es[..2][..1][..0] == [];
    assert Run(1, [], dataBits) == Reset(1);
    assert Run(1, es[..2][..1], dataBits) == Next(Reset(1), es[0], dataBits);
    assert Run(1, es[..2], dataBits) == Next(Run(1, es[..2][..1], dataBits), es[1], dataBits);
  }

  // ---- What the scoreboard is told to expect ----

  /** The frame announced for an item that the agent makes is the one a receiver decodes from its levels, unless
      the item forces a parity error while parity is off, or a bad stop with all data zero, which reads as a
      break. */
  lemma ClaimExact(a: AgentView, port: nat, data: Byte, params: UartParams)
    requires params.Valid() && port < |a.ports|
    ensures var tx := MakeItem(a, port, data, params.dataBits).tx;
            (Scoreboard.Matches(Claimed(tx), Decode(params, Levels(params, tx)), Scoreboard.Settings(params.dataBits, true, true))
             <==> !(tx.forceBadParity && !params.ParityEnable()) && !(tx.forceBadStop && tx.data == ZERO_BYTE))
  {
    var tx := MakeItem(a, port, data, params.dataBits).tx;
    MadeMasked(a, port, data, params.dataBits);
    DecodeLevels(params, tx);
    hide Decode, Levels, MakeItem;
    Scoreboard.MaskTwice(tx.data, params.dataBits);
  }

  /** Items are masked when they are made. */
  lemma MadeMasked(a: AgentView, port: nat, data: Byte, dataBits: nat)
    requires dataBits <= 8 && port < |a.ports|
    ensures var tx := MakeItem(a, port, data, dataBits).tx; tx.data == Mask(tx.data, dataBits)
  {
    Scoreboard.MaskTwice(data, dataBits);
  }

  class UartTx {
    const dataBits: nat
    const names: seq<string>
    const stream: Scoreboard.UartStream?
    var ports: seq<Port>
    var nextTicket: nat
    var ticketDone: map<nat, bool>
    ghost var events: seq<Event>

    /** The agent is where some interleaving of its events has brought it; every theorem about Run is one about
        the class. */
    ghost predicate Valid()
      reads this
    {
      && dataBits <= 8 && |names| == |ports|
      && View() == Run(|ports|, events, dataBits)
      && (stream != null ==> stream.opts.dataBits == dataBits)
    }

    function View(): AgentView
      reads this
    {
      AgentView(ports, nextTicket, ticketDone)
    }

    ghost function Log(): seq<PortLog>
      requires Valid()
      reads this
    {
      Logs(|ports|, events, dataBits)
    }

    constructor (names: seq<string>, dataBits: nat, stream: Scoreboard.UartStream?)
      requires dataBits <= 8 && (stream != null ==> stream.opts.dataBits == dataBits)
      ensures Valid() && this.dataBits == dataBits && this.names == names && this.stream == stream && events == []
    {
      this.dataBits, this.names, this.stream := dataBits, names, stream;
      ports, nextTicket, ticketDone := seq(|names|, _ => QUIET), 1, map[];
      events := [];
    }

    /** `enqueue_byte` with `make_item_`: the next ticket, and the frame announced to the scoreboard where
        auto_expect is on; None where the source throws for an unknown port. */
    method EnqueueByte(port: nat, data: Byte) returns (ticket: Option<nat>)
      requires Valid()
      modifies this, stream
      ensures Valid() && |ports| == old(|ports|)
      ensures forall p :: 0 <= p < |ports| ==> ports[p].autoExpect == old(ports)[p].autoExpect
      ensures events == old(events) + if port < |ports| then [Enqueue(port, data)] else []
      ensures ticket == if port < |ports| then Some(old(nextTicket)) else None
      ensures stream != null ==>
                stream.View() == if port < |ports| && old(ports)[port].autoExpect
                                 then Scoreboard.Next(old(stream.View()), Announcement(port, data, old(View())), stream.opts)
                                 else old(stream.View())
    {
      hide Run, Scoreboard.Next, Sites, Logs;
      if port >= |ports| {
        return None;
      }
      var p := ports[port];
      var item := Item(nextTicket, TxItem(Mask(data, dataBits), p.nextBadStop, p.nextBadParity));
      nextTicket := (nextTicket + 1) % TICKETS;
      ticketDone := ticketDone[item.ticket := false];
      if p.autoExpect && stream != null {
        stream.ExpectFrame(names[port], Claimed(item.tx));
      }
      EventSnoc(|ports|, events, Enqueue(port, data), dataBits);
      ports := ports[port := Port(p.pending + [item], p.phase, p.history, false, false, p.autoExpect)];
      events := events + [Enqueue(port, data)];
      ticket := Some(item.ticket);
    }

    /** What the scoreboard hears of an item that is made. */
    ghost function Announcement(port: nat, data: Byte, a: AgentView): Scoreboard.Event
      requires port < |names| && port < |a.ports| && dataBits <= 8
    {
      Scoreboard.Expect(names[port], Claimed(MakeItem(a, port, data, dataBits).tx))
    }

    /** What it hears of several bytes, enqueued after the given history. */
    ghost function Announcements(port: nat, data: seq<Byte>, before: seq<Event>): seq<Scoreboard.Event>
      requires port < |names| && dataBits <= 8
    {
      seq(|data|, i requires 0 <= i < |data| =>
        Announcement(port, data[i], Run(|names|, before + Enqueued(port, data[..i]), dataBits)))
    }

    lemma AnnouncementsNext(port: nat, data: seq<Byte>, i: nat, before: seq<Event>)
      requires port < |names| && dataBits <= 8 && i < |data|
      ensures Announcements(port, data[..i + 1], before)
           == Announcements(port, data[..i], before)
              + [Announcement(port, data[i], Run(|names|, before + Enqueued(port, data[..i]), dataBits))]
    {
      hide Run, MakeItem;
      assert data[..i + 1][..i] == data[..i];
      forall j | 0 <= j < i
        ensures data[..i + 1][..j] == data[..i][..j]
      {
      }
    }

    lemma NothingApplied()
      ensures dataBits <= 8 && stream != null && stream.opts.dataBits <= 8 ==>
                Scoreboard.Apply(stream.View(), [], stream.opts) == stream.View()
    {
    }

    /** `enqueue_bytes`: its bytes in order, and the last ticket, 0 for no bytes; None where the source throws. */
    method EnqueueBytes(port: nat, data: seq<Byte>) returns (last: Option<nat>)
      requires Valid()
      modifies this, stream
      ensures Valid() && |ports| == old(|ports|)
      ensures events == old(events) + if port < |ports| then Enqueued(port, data) else []
      ensures stream != null ==>
                stream.View() == Scoreboard.Apply(old(stream.View()),
                                                  if port < |ports| && old(ports)[port].autoExpect
                                                  then Announcements(port, data, old(events)) else [],
                                                  stream.opts)
      ensures last == if data == [] then Some(0) else if port >= |ports| then None
                      else Some(Run(|ports|, old(events) + Enqueued(port, data[..|data| - 1]), dataBits).nextTicket)
    {
      hide Run, Scoreboard.Apply, Scoreboard.Next, NextPort, MakeItem;
      last := Some(0);
      ghost var told := port < |ports| && ports[port].autoExpect;
      NothingApplied();
      assert told ==> Announcements(port, data[..0], events) == [];
      for i := 0 to |data|
        invariant Valid() && |ports| == old(|ports|) && (i > 0 ==> port < |ports|)
        invariant told == (port < |ports| && ports[port].autoExpect)
        invariant stream != null ==>
                    stream.View() == Scoreboard.Apply(old(stream.View()),
                                                      if told then Announcements(port, data[..i], old(events)) else [],
                                                      stream.opts)
        invariant port < |ports| ==> events == old(events) + Enqueued(port, data[..i])
        invariant port >= |ports| ==> events == old(events)
        invariant i == 0 ==> last == Some(0)
        invariant i > 0 ==>
                    last == Some(Run(|ports|, old(events) + Enqueued(port, data[..i - 1]), dataBits).nextTicket)
      {
        assert Enqueued(port, data[..i + 1]) == Enqueued(port, data[..i]) + [Enqueue(port, data[i])];
        if told {
          assert Announcements(port, data[..i + 1], old(events))
              == Announcements(port, data[..i], old(events)) + [Announcement(port, data[i], View())] by {
            AnnouncementsNext(port, data, i, old(events));
          }
          if stream != null {
            Scoreboard.ApplySnoc(old(stream.View()), Announcements(port, data[..i], old(events)),
                                 Announcement(port, data[i], View()), stream.opts);
          }
        }
        last := EnqueueByte(port, data[i]);
        if last.None? {
          return;
        }
      }
      assert data[..|data|] == data;
    }

    method SetAutoExpect(port: nat, en: bool)
      requires Valid() && port < |ports|
      modifies this
      ensures Valid() && events == old(events) + [Event.SetAutoExpect(port, en)]
    {
      hide Run, Sites, Logs;
      EventSnoc(|ports|, events, Event.SetAutoExpect(port, en), dataBits);
      ports := ports[port := ports[port].(autoExpect := en)];
      events := events + [Event.SetAutoExpect(port, en)];
    }

    method ArmNextFramingError(port: nat)
      requires Valid() && port < |ports|
      modifies this
      ensures Valid() && events == old(events) + [ArmFramingError(port)]
    {
      hide Run, Sites, Logs;
      EventSnoc(|ports|, events, ArmFramingError(port), dataBits);
      ports := ports[port := ports[port].(nextBadStop := true)];
      events := events + [ArmFramingError(port)];
    }

    method ArmNextParityError(port: nat)
      requires Valid() && port < |ports|
      modifies this
      ensures Valid() && events == old(events) + [ArmParityError(port)]
    {
      hide Run, Sites, Logs;
      EventSnoc(|ports|, events, ArmParityError(port), dataBits);
      ports := ports[port := ports[port].(nextBadParity := true)];
      events := events + [ArmParityError(port)];
    }

    method ResetCase()
      requires Valid()
      modifies this
      ensures Valid() && events == old(events) + [Event.ResetCase] && |ports| == old(|ports|)
    {
      hide Run, Sites, Logs;
      EventSnoc(|ports|, events, Event.ResetCase, dataBits);
      ClearPorts();
      ticketDone := map[];
      events := events + [Event.ResetCase];
    }

    /** The loop of `reset_case` over its ports. */
    method ClearPorts()
      modifies this`ports
      ensures ports == ForgetAll(old(ports))
    {
      for i := 0 to |ports|
        invariant |ports| == |old(ports)|
        invariant forall p :: 0 <= p < i ==>
                    ports[p] == Port([], old(ports)[p].phase, [], false, false, old(ports)[p].autoExpect)
        invariant forall p :: i <= p < |ports| ==> ports[p] == old(ports)[p]
      {
        ports := ports[i := Port([], ports[i].phase, [], false, false, ports[i].autoExpect)];
      }
    }

    /** The loop's look at its queue. */
    method SeePendingItem(port: nat) returns (seen: bool)
      requires Valid() && port < |ports| && ports[port].phase.Idle?
      modifies this
      ensures Valid() && events == old(events) + [SeePending(port)]
      ensures seen == (old(ports)[port].pending != [])
    {
      hide Run, Sites, Logs;
      EventSnoc(|ports|, events, SeePending(port), dataBits);
      seen := ports[port].pending != [];
      if seen {
        ports := ports[port := ports[port].(phase := AwaitingRts)];
      }
      events := events + [SeePending(port)];
    }

    /** RTS decides: the front item is taken, or the wait has timed out. Taking the front of an empty queue has no
        defined outcome in the source; that case is reported and nothing is done. */
    method RtsDecided(port: nat, ready: bool) returns (defined: bool)
      requires Valid() && port < |ports| && ports[port].phase.AwaitingRts?
      modifies this
      ensures defined == !(ready && LaunchUndefined(old(ports)[port]))
      ensures Valid() && events == old(events) + [if ready then Launch(port) else RtsTimeout(port)]
    {
      hide Run, Sites, Logs;
      EventSnoc(|ports|, events, if ready then Launch(port) else RtsTimeout(port), dataBits);
      var p := ports[port];
      defined := true;
      if !ready {
        ports := ports[port := p.(phase := Idle)];
      } else if p.pending == [] {
        defined := false;
      } else {
        var item := p.pending[0];
        ports := ports[port := p.(pending := p.pending[1..], phase := Sending(item))];
      }
      events := events + [if ready then Launch(port) else RtsTimeout(port)];
    }

    /** The end of `send_item_` and the loop's mark on the ticket. */
    method FinishItem(port: nat)
      requires Valid() && port < |ports| && ports[port].phase.Sending?
      modifies this
      ensures Valid() && events == old(events) + [Finish(port)]
    {
      hide Run, Sites, Logs;
      EventSnoc(|ports|, events, Finish(port), dataBits);
      var p := ports[port];
      ports := ports[port := p.(phase := Idle, history := p.history + [Claimed(p.phase.item.tx)])];
      ticketDone := ticketDone[p.phase.item.ticket := true];
      events := events + [Finish(port)];
    }

    /** `is_done`: with at most 2^32 tickets handed out, the answer for item i of a port since the last reset_case
        is whether its frame has been sent. */
    method TicketIsDone(ticket: nat, ghost p: nat, ghost i: nat) returns (r: bool)
      requires Valid() && Enqueues(|ports|, events) <= TICKETS
      requires Known(Log(), p, i) && Ticket(Log(), p, i) == ticket
      ensures r <==> i < Log()[p].sent
    {
      DoneExact(|ports|, events, dataBits, p, i);
      hide Run, Logs, Enqueues;
      r := ticket in ticketDone && ticketDone[ticket];
    }
  }

  function Enqueued(port: nat, data: seq<Byte>): (es: seq<Event>)
    ensures |es| == |data|
  {
    seq(|data|, i requires 0 <= i < |data| => Enqueue(port, data[i]))
  }
}
