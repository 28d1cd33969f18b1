/** What the handlers of a bearer do to it, told by their outcome: bytes in flight, gates, ack queue and messages. */
module DfcEffects {
  import opened Bytes
  import opened Dfc

  // Bytes in flight

  /** A query response takes what the modem has received off the bytes in flight, and those off the new grant. */
  lemma {:induction false} ResponseFlight(m: Mode, l: Link, s: Status)
    requires m.Ok() && Accepts(l.b, s) && m.qmap && s.query
    ensures var b := Step(m, l, Update(s)).b;
      && b.inFlight == (if s.rx.Some? then Max(l.b.inFlight - s.rx.value, 0) else l.b.inFlight)
      && b.grant == (if s.rx.Some? then Max(s.num - b.inFlight, 0) else s.num)
  {
    StepBearer(m, l, Update(s));
    hide Step, Mode.GrantPer, FlowCtl;
  }

  /** Any other update starts counting anew, with all it grants. */
  lemma {:induction false} IndicationFlight(m: Mode, l: Link, s: Status)
    requires m.Ok() && Accepts(l.b, s) && !(m.qmap && s.query)
    ensures var b := Step(m, l, Update(s)).b; b.inFlight == 0 && b.grant == s.num
  {
    StepBearer(m, l, Update(s));
    hide Step, Mode.GrantPer, FlowCtl;
  }

  /** Sends, and query responses that report received bytes. */
  predicate Ledger(e: Event) {
    e.Send? || (e.Update? && e.s.query && e.s.rx.Some? && !e.s.ratSwitch)
  }

  function Sent(es: seq<Event>): nat {
    if es == [] then 0
    else Sent(es[..|es| - 1]) + if es[|es| - 1].Send? then es[|es| - 1].len else 0
  }

  function Reported(es: seq<Event>): nat {
    if es == [] then 0
    else
      var e := es[|es| - 1];
      Reported(es[..|es| - 1]) + if e.Update? && e.s.rx.Some? then e.s.rx.value else 0
  }

  /** At no point has the modem reported more than had been sent by then. */
  predicate Honest(start: nat, es: seq<Event>) {
    es == [] || (Honest(start, es[..|es| - 1]) && Reported(es) <= start + Sent(es))
  }

  lemma {:induction false} LedgerStep(m: Mode, l: Link, e: Event)
    requires m.Ok() && m.qmap && Ledger(e) && !l.b.ratSwitch && !l.b.txOff
    requires e.Send? ==> l.b.inFlight + e.len < 0x1_0000_0000
    ensures var b := Step(m, l, e).b;
      && !b.ratSwitch && !b.txOff
      && b.inFlight == Max(l.b.inFlight + Sent([e]) - Reported([e]), 0)
  {
    assert [e][..0] == [];
    StepBearer(m, l, e);
    hide Step, Mode.GrantPer, FlowCtl, ThresholdMsg, DisableMsg, NewGrant;
  }

  /**
   * Over any run of sends and responses, bytes in flight are what was sent less what was reported received, if and only
   * if the modem never reported more than it could have received; else they are more.
   */
  lemma {:induction false} FlightExact(m: Mode, l: Link, es: seq<Event>)
    requires m.Ok() && m.qmap && !l.b.ratSwitch && !l.b.txOff && l.b.inFlight + Sent(es) < 0x1_0000_0000
    requires forall k :: 0 <= k < |es| ==> Ledger(es[k])
    ensures var b := Run(m, l, es).b;
      && !b.ratSwitch && !b.txOff && b.inFlight <= l.b.inFlight + Sent(es)
      && b.inFlight >= l.b.inFlight + Sent(es) - Reported(es)
      && (b.inFlight == l.b.inFlight + Sent(es) - Reported(es) <==> Honest(l.b.inFlight, es))
  {
    hide Step;
    if es != [] {
      var front, e := es[..|es| - 1], es[|es| - 1];
      assert forall k :: 0 <= k < |front| ==> front[k] == es[k];
      FlightExact(m, l, front);
      LedgerStep(m, Run(m, l, front), e);
      assert [e][..0] == [];
      hide Run;
    }
  }

  // Gates over runs

  /** Events that neither end a RAT switch nor overrule it. */
  predicate DuringSwitch(e: Event) { !e.Wake? && !e.Wildcard? && (e.Update? ==> !e.s.ratSwitch) }

  /** An update that starts a RAT switch leaves the bearer in it, without grant. */
  lemma {:induction false} SwitchStarts(m: Mode, l: Link, s: Status)
    requires m.Ok() && s.ratSwitch && s.num == 0
    ensures var b := Step(m, l, Update(s)).b; b.ratSwitch && b.grant == 0 && b.quit
  {
    StepBearer(m, l, Update(s));
    hide Step, Mode.GrantPer, FlowCtl;
  }

  /** Whatever comes in between is ignored. */
  lemma {:induction false} SwitchHolds(m: Mode, l: Link, es: seq<Event>)
    requires m.Ok() && Gated(m, l.b) && l.b.ratSwitch && forall k :: 0 <= k < |es| ==> DuringSwitch(es[k])
    ensures var b := Run(m, l, es).b; b.ratSwitch && b.grant == 0 && Gated(m, b)
  {
    hide Step, Gated;
    if es != [] {
      var front, e := es[..|es| - 1], es[|es| - 1];
      assert forall k :: 0 <= k < |front| ==> front[k] == es[k];
      SwitchHolds(m, l, front);
      StepGates(m, Run(m, l, front), e);
      SwitchStays(m, Run(m, l, front), e);
      hide Run;
    } else {
      GatedSwitch(m, l.b);
    }
  }

  lemma GatedSwitch(m: Mode, b: Bearer)
    requires Gated(m, b) && b.ratSwitch
    ensures b.grant == 0
  {
  }

  lemma {:induction false} SwitchStays(m: Mode, l: Link, e: Event)
    requires m.Ok() && Gated(m, l.b) && l.b.ratSwitch && DuringSwitch(e)
    ensures Step(m, l, e).b.ratSwitch && Step(m, l, e).b.grant == 0
  {
    StepBearer(m, l, e);
    hide Step, Mode.GrantPer, FlowCtl, ThresholdMsg, DisableMsg;
    match e {
      case Update(_) =>
      case TxLink(_) =>
      case Send(_) =>
      case Fires =>
      case Callback =>
      case EndMarker(_, _) =>
    }
  }

  /** A switch that ends with a grant gives it, unless TX is off. */
  lemma {:induction false} SwitchEnds(m: Mode, l: Link, s: Status)
    requires m.Ok() && s.ratSwitch && s.num > 0 && !s.query
    ensures var b := Step(m, l, Update(s)).b;
      !b.ratSwitch && b.grant == if l.b.txOff then l.b.grant else s.num
  {
    StepBearer(m, l, Update(s));
    hide Step, Mode.GrantPer, FlowCtl;
  }

  /** TX going off takes the grant, and with it what was in flight and the watchdog. */
  lemma {:induction false} TxStops(m: Mode, l: Link)
    requires m.Ok() && (l.b.txOff ==> l.b.grant == 0)
    ensures var b := Step(m, l, TxLink(false)).b;
      && b.txOff && b.grant == 0 && b.inFlight == (if l.b.grant > 0 then 0 else l.b.inFlight)
      && (l.b.grant > 0 ==> b.quit && !b.started && (l.b.started ==> !b.pending))
  {
    StepBearer(m, l, TxLink(false));
    hide Step, Mode.GrantPer, FlowCtl;
  }

  /** In QMI mode a bearer whose TX went off stays without grant until TX goes on, whatever else comes. */
  lemma {:induction false} TxOffHolds(m: Mode, l: Link, es: seq<Event>)
    requires m.Ok() && !m.qmap && Gated(m, l.b) && l.b.txOff
    requires forall k :: 0 <= k < |es| ==> !es[k].Wildcard? && es[k] != TxLink(true)
    ensures var b := Run(m, l, es).b; b.txOff && b.grant == 0 && Gated(m, b)
  {
    hide Step;
    if es != [] {
      var front, e := es[..|es| - 1], es[|es| - 1];
      assert forall k :: 0 <= k < |front| ==> front[k] == es[k];
      TxOffHolds(m, l, front);
      StepGates(m, Run(m, l, front), e);
      TxStays(m, Run(m, l, front), e);
      hide Run;
    }
  }

  lemma {:induction false} TxStays(m: Mode, l: Link, e: Event)
    requires m.Ok() && l.b.txOff && e != TxLink(true) && !e.Wildcard?
    ensures Step(m, l, e).b.txOff
  {
    StepBearer(m, l, e);
    hide Step, Mode.GrantPer, FlowCtl, ThresholdMsg, DisableMsg, NewGrant, Watches, Flying;
    match e {
      case Update(_) =>
      case TxLink(_) =>
      case Send(_) =>
      case Fires =>
      case Callback =>
      case Wake =>
      case EndMarker(_, _) =>
    }
  }

  // Recovery

  /** TX going on, or powersave wake, on a bearer that neither gate holds. */
  predicate Recovers(b: Bearer, e: Event) {
    (e == TxLink(true) && b.txOff && b.grant == 0 && !b.ratSwitch) || (e.Wake? && !b.txOff)
  }

  /** The bearer may then send one byte: the first packet stops its queue again, and in QMAP mode sends one query. */
  lemma {:induction false} RecoveryProbes(m: Mode, l: Link, e: Event, len: u32)
    requires m.Ok() && m.scale >= 2 && Recovers(l.b, e) && len > 0
    ensures var k := Step(m, l, e);
      var r := Step(m, k, Send(len));
      && k.b.grant == 1 && !k.b.ratSwitch && !k.b.txOff
      && r.b.grant == 0
      && (m.qmap ==> Queries(r.sent) == Queries(k.sent) + 1)
  {
    RecoveredGrant(m, l, e);
    var k := Step(m, l, e);
    hide Step, Queries;
    SendLast(m, k, len);
    if m.qmap {
      SendQueries(m, k, len);
    }
  }

  lemma {:induction false} RecoveredGrant(m: Mode, l: Link, e: Event)
    requires m.Ok() && m.scale >= 2 && Recovers(l.b, e)
    ensures var b := Step(m, l, e).b; b.grant == 1 && b.thresh == 0 && !b.ratSwitch && !b.txOff
  {
    StepBearer(m, l, e);
    assert m.GrantPer(1) == 0;
    hide Step, FlowCtl;
  }

  lemma {:induction false} SendLast(m: Mode, l: Link, len: u32)
    requires m.Ok() && l.b.grant <= len
    ensures var b := Step(m, l, Send(len)).b; b.grant == 0 && b.thresh == l.b.thresh
  {
    StepBearer(m, l, Send(len));
    hide Step, FlowCtl;
  }

  /** A bearer just created may send 20480 bytes. */
  lemma {:induction false} NewBearerCredit(m: Mode, id: u8, refs: int, queues: seq<bool>, lens: seq<u32>)
    requires m.Ok()
    ensures Run(m, Link(NewBearer(m, id, refs), queues, []), Sends(lens)).b.grant == Max(20480 - Total(lens), 0)
  {
    SendsCredit(m, Link(NewBearer(m, id, refs), queues, []), lens);
    hide Run, Sends;
  }

  /** The watchdog gives a bearer that ran dry the same grant again, and one that did not just a fresh start. */
  lemma {:induction false} CallbackGrants(m: Mode, l: Link)
    requires m.Ok() && l.b.running > 0
    ensures var b := Step(m, l, Callback).b;
      && b.running == l.b.running - 1 && !b.started
      && b.grant == (if !l.b.quit && l.b.grant == 0 then 20480 else l.b.grant)
      && b.inFlight == (if l.b.quit then l.b.inFlight else 0)
  {
    StepBearer(m, l, Callback);
    hide Step, FlowCtl, Mode.GrantPer;
  }

  /** Powersave wake forgets everything but the grant of a bearer whose TX is off. */
  lemma {:induction false} WakeForgets(m: Mode, l: Link)
    requires m.Ok()
    ensures var b := Step(m, l, Wake).b;
      && b.inFlight == 0 && b.seqNo == 0 && !b.ackReq && !b.tcpBidir && !b.ratSwitch && !b.started && b.quit
      && b.txOff == l.b.txOff && (b.txOff ==> b.grant == l.b.grant)
  {
    StepBearer(m, l, Wake);
    hide Step, FlowCtl, Mode.GrantPer;
  }

  /**
   * A wildcard update does to a bearer what an accepted indication does, but for gates, bytes in flight and the
   * watchdog, which it leaves alone.
   */
  lemma {:induction false} WildcardIsUpdate(m: Mode, l: Link, s: Status)
    requires m.Ok() && Accepts(l.b, s) && !s.query
    ensures var w, u := Step(m, l, Wildcard(s)).b, Step(m, l, Update(s)).b;
      && w.grant == u.grant && w.thresh == u.thresh && w.seqNo == u.seqNo && w.lastSeq == u.lastSeq
      && w.ackReq == u.ackReq && w.tcpBidir == u.tcpBidir
      && w.inFlight == l.b.inFlight && w.ratSwitch == l.b.ratSwitch && w.started == l.b.started && w.quit == l.b.quit
  {
    StepBearer(m, l, Wildcard(s));
    StepBearer(m, l, Update(s));
    hide Step, FlowCtl, Mode.GrantPer;
  }

  /** The threshold for the next query: the largest share of the grant that fits into it `scale` times. */
  lemma {:induction false} ThresholdExact(m: Mode, grant: u32)
    requires m.Ok()
    ensures m.GrantPer(grant) * m.scale <= grant < (m.GrantPer(grant) + 1) * m.scale
  {
    var q, r := grant / m.scale, grant % m.scale;
    assert grant == m.scale * q + r && 0 <= r < m.scale;
    assert (q + 1) * m.scale == m.scale * q + m.scale;
  }

  /**
   * An accepted update starts the watchdog if and only if a QMAP query response left less than a fifth of what it
   * named; the threshold is then the grant itself, so no query goes out. Else the watchdog is off, its timer stopped.
   */
  lemma {:induction false} WatchExact(m: Mode, l: Link, s: Status)
    requires m.Ok() && Accepts(l.b, s)
    ensures var b := Step(m, l, Update(s)).b;
      && (b.started <==> m.qmap && s.query && b.grant < s.num / 5) && b.quit == !b.started
      && b.thresh == (if b.started then b.grant else m.GrantPer(b.grant))
      && (!b.started && l.b.started ==> !b.pending) && (b.started && !l.b.started ==> b.pending)
  {
    StepBearer(m, l, Update(s));
    hide Step, FlowCtl, Mode.GrantPer, NewGrant;
  }

  // QMAP commands

  /** An indication of the modem: its grant, its sequence number, and a fresh count of bytes in flight. */
  lemma {:induction false} QmapIndication(m: Mode, l: Link, c: QmapCmd)
    requires m.Ok() && c.txInfo.None? && !l.b.ratSwitch && !(l.b.txOff && c.grant > 0)
    ensures var b := Step(m, l, HandleInd(c)).b;
      && b.grant == c.grant && b.seqNo == b.lastSeq == c.seqNo && b.tcpBidir == c.tcpBidir && b.inFlight == 0
      && !b.ackReq && b.ratSwitch == l.b.ratSwitch && b.txOff == l.b.txOff
  {
    StepBearer(m, l, HandleInd(c));
    hide Step, FlowCtl, Mode.GrantPer;
  }

  /** TX information in an indication switches TX, whatever grant it names. */
  lemma {:induction false} QmapTxInfo(m: Mode, l: Link, c: QmapCmd)
    requires m.Ok() && c.txInfo.Some?
    ensures Step(m, l, HandleInd(c)).b.txOff == !c.txInfo.value
  {
    StepBearer(m, l, HandleInd(c));
    hide Step, FlowCtl, Mode.GrantPer;
  }

  /** A query response: its grant less what is still in flight once its report is taken off; invalid ones do nothing. */
  lemma {:induction false} QmapResponse(m: Mode, l: Link, c: QmapCmd)
    requires m.Ok() && m.qmap && !l.b.ratSwitch && !(l.b.txOff && c.grant > 0)
    ensures HandleQueryResp(c).None? <==> c.invalid
    ensures !c.invalid ==>
      var b := Step(m, l, HandleQueryResp(c).value).b;
      && b.inFlight == (if c.rx.Some? then Max(l.b.inFlight - c.rx.value, 0) else l.b.inFlight)
      && b.grant == (if c.rx.Some? then Max(c.grant - b.inFlight, 0) else c.grant)
      && b.seqNo == b.lastSeq == 0xFFFF && b.tcpBidir == c.tcpBidir && !b.ackReq
  {
    if !c.invalid {
      StepBearer(m, l, HandleQueryResp(c).value);
    }
    hide Step, FlowCtl, Mode.GrantPer;
  }

  // The ack queue

  /** Whether the bearer carries bidirectional TCP once e was handled. */
  predicate Bidir(b: Bearer, e: Event) {
    match e
    case Update(s) => s.tcpBidir
    case Wildcard(s) => s.tcpBidir
    case TxLink(_) => false
    case _ => b.tcpBidir
  }

  /** When the grant runs out the ack queue stops with the data queue, unless TCP runs both ways. */
  lemma {:induction false} AckQueueStops(m: Mode, l: Link, e: Event)
    requires m.Ok() && Wired(l.b, l.queues) && InSync(l.b, l.queues) && Bound(l.b) && l.b.ackMq < |l.queues|
    requires l.b.grant > 0 && Step(m, l, e).b.grant == 0
    ensures |Step(m, l, e).queues| == |l.queues|
    ensures !Step(m, l, e).queues[l.b.mq] && (Step(m, l, e).queues[l.b.ackMq] <==> Bidir(l.b, e))
  {
    hide PlanOf;
    StepSyncs(m, l, e);
    StoppingPlan(m, l, e);
    FlowCtlStops(m, PlanOf(m, l, e).l, l.b);
    hide Finish;
  }

  lemma {:induction false} StoppingPlan(m: Mode, l: Link, e: Event)
    requires m.Ok() && l.b.grant > 0 && PlanOf(m, l, e).l.b.grant == 0
    ensures var p := PlanOf(m, l, e);
      && p.act && p.l.queues == l.queues && p.l.b.mq == l.b.mq && p.l.b.ackMq == l.b.ackMq
      && p.l.b.tcpBidir == Bidir(l.b, e)
  {
    hide Mode.GrantPer, ThresholdMsg, DisableMsg, Watches, Flying;
    match e {
      case Update(_) =>
      case TxLink(_) =>
      case Send(_) =>
      case Fires =>
      case Callback =>
      case Wake =>
      case EndMarker(_, _) =>
      case Wildcard(_) =>
    }
  }

  lemma {:induction false} FlowCtlStops(m: Mode, l: Link, b: Bearer)
    requires l.b.grant == 0 && l.b.mq == b.mq && l.b.ackMq == b.ackMq
    requires b.mq < b.ackMq < |l.queues| && b.ackMq != INVALID_MQ
    ensures var r := FlowCtl(m, l);
      && |r.queues| == |l.queues| && !r.queues[b.mq]
      && r.queues[b.ackMq] == (l.b.tcpBidir && l.queues[b.ackMq])
  {
    hide DisableMsg;
  }

  /** While there is no grant no handler but a wildcard update touches the ack queue. */
  lemma {:induction false} AckQueueStays(m: Mode, l: Link, e: Event)
    requires m.Ok() && l.b.grant == 0 && Step(m, l, e).b.grant == 0 && !e.Wildcard?
    ensures Step(m, l, e).queues == l.queues
  {
    StepBearer(m, l, e);
    hide Mode.GrantPer, ThresholdMsg, DisableMsg, Watches, Flying, FlowCtl;
    match e {
      case Update(_) =>
      case TxLink(_) =>
      case Send(_) =>
      case Fires =>
      case Callback =>
      case Wake =>
      case EndMarker(_, _) =>
    }
  }

  // Acknowledgements in QMI mode

  /**
   * In QMI mode, where the modem asked for it, a queue that stops is acknowledged once with type 1, and a grant that
   * falls to its threshold with type 2; nothing else is sent.
   */
  lemma {:induction false} QmiAcks(m: Mode, l: Link, e: Event)
    requires m.Ok() && !m.qmap && !e.EndMarker? && !e.Wildcard?
    ensures var r := Step(m, l, e);
      var low := if e.Send? && l.b.grant > l.b.thresh && r.b.grant <= l.b.thresh
                 then [Ack(l.b.id, l.b.seqNo, 2)] else [];
      var dry := if l.b.grant > 0 && r.b.grant == 0 && r.b.ackReq then [Ack(l.b.id, r.b.seqNo, 1)] else [];
      r.sent == l.sent + low + dry
  {
    StepBearer(m, l, e);
    Appended(l.sent, PlanOf(m, l, e).l.sent);
    hide Mode.GrantPer, SetQueue, Watches, Flying;
    match e {
      case Update(_) =>
      case TxLink(_) =>
      case Send(_) =>
      case Fires =>
      case Callback =>
      case Wake =>
    }
  }

  lemma Appended(a: seq<Msg>, b: seq<Msg>)
    ensures a + [] == a && b + [] == b && a + [] + [] == a
  {
  }
}
