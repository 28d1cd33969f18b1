/** DFC flow control of one bearer: the handlers as steps, and what every run of them keeps. */
module Dfc {
  import opened Bytes

  const DEFAULT_GRANT := 1
  const DEFAULT_CALL_GRANT := 20480
  const INVALID_MQ := 0xFF
  const QUERY_SEQ: u16 := 0xFFFF

  /** dfc_qmap and qmi_rmnet_scale_factor. */
  datatype Mode = Mode(qmap: bool, scale: nat) {
    predicate Ok() { scale > 0 }

    /** qmi_rmnet_grant_per */
    function GrantPer(grant: u32): (t: u32)
      requires Ok()
      ensures t <= grant && (scale >= 2 && grant > 0 ==> t < grant)
    {
      QuotientBound(grant, scale);
      grant / scale
    }
  }

  lemma {:induction false} QuotientBound(a: nat, b: nat)
    requires b > 0
    ensures 0 <= a / b <= a && (b >= 2 && a > 0 ==> a / b < a)
  {
    var q, r := a / b, a % b;
    assert a == b * q + r && 0 <= r < b;
    ProductBound(b, q);
  }

  lemma {:induction false} ProductBound(b: int, q: int)
    requires b > 0
    ensures if q < 0 then b * q <= -b else b * q >= q && (b >= 2 ==> b * q >= 2 * q)
    decreases if q < 0 then -q else q
  {
    if q > 0 {
      ProductBound(b, q - 1);
      assert b * q == b * (q - 1) + b;
    } else if q < -1 {
      ProductBound(b, q + 1);
      assert b * q == b * (q + 1) - b;
    }
  }

  /**
   * rmnet_bearer_map. `pending` and `running` describe its timer: armed, and callbacks that fired but have not yet
   * taken the lock. `queried` records that a threshold query went out since the last accepted update.
   */
  datatype Bearer = Bearer(id: u8, flowRef: int, grant: u32, thresh: u32, seqNo: u16, ackReq: bool, lastSeq: u16,
                           inFlight: u32, tcpBidir: bool, ratSwitch: bool, txOff: bool, ackTxid: u32,
                           mq: nat, ackMq: nat, started: bool, quit: bool, pending: bool, running: nat, queried: bool) {
    /** A watchdog that can still act. */
    predicate Live() { !quit && (pending || running > 0) }
  }

  datatype Msg = Confirm(id: u8, seqNo: u16, txid: u32) | Query(id: u8) | Ack(id: u8, seqNo: u16, kind: nat)

  const ACK_DISABLE := 1
  const ACK_THRESHOLD := 2

  /** A bearer, the tx queues of its device and the messages sent to the modem. */
  datatype Link = Link(b: Bearer, queues: seq<bool>, sent: seq<Msg>)

  /** Flow status of one bearer, as an indication or a query response carries it. */
  datatype Status = Status(num: u32, seqNo: u16, rx: Option<u32>, ackReq: bool, ratSwitch: bool, tcpBidir: bool,
                           query: bool)

  datatype Event =
    | Update(s: Status)
    | TxLink(on: bool)
    | Send(len: u32)
    | Fires
    | Callback
    | Wake
    | EndMarker(seqNo: u16, txid: u32)
    | Wildcard(s: Status)

  /** qmi_rmnet_flow_control: queues the device does not have are ignored. */
  function SetQueue(queues: seq<bool>, i: nat, on: bool): seq<bool> {
    if i < |queues| then queues[i := on] else queues
  }

  /** The disable acknowledgement; in QMAP mode it confirms an end marker. */
  function DisableMsg(m: Mode, b: Bearer): Msg {
    if m.qmap then Confirm(b.id, b.seqNo, b.ackTxid) else Ack(b.id, b.seqNo, ACK_DISABLE)
  }

  function ThresholdMsg(m: Mode, b: Bearer): Msg {
    if m.qmap then Query(b.id) else Ack(b.id, b.seqNo, ACK_THRESHOLD)
  }

  /** dfc_bearer_flow_ctl */
  function FlowCtl(m: Mode, l: Link): Link {
    var on := l.b.grant > 0;
    var q := SetQueue(l.queues, l.b.mq, on);
    var r := if l.b.ackMq != INVALID_MQ && (on || !l.b.tcpBidir) then SetQueue(q, l.b.ackMq, on) else q;
    l.(queues := r, sent := l.sent + if !on && l.b.ackReq then [DisableMsg(m, l.b)] else [])
  }

  /** qmi_rmnet_watchdog_add: the timer is armed unless the watchdog already counts as started. */
  function WatchdogAdd(b: Bearer): Bearer {
    b.(quit := false, started := true, pending := b.pending || !b.started)
  }

  /** qmi_rmnet_watchdog_remove: del_timer, only if started, does not stop a callback already under way. */
  function WatchdogRemove(b: Bearer): Bearer {
    b.(quit := true, started := false, pending := b.pending && !b.started)
  }

  /** Bytes still in flight after a query response, as dfc_adjust_grant counts them. */
  function Flying(inFlight: u32, s: Status): u32 {
    if s.rx.None? then inFlight else if inFlight > s.rx.value then inFlight - s.rx.value else 0
  }

  /** dfc_adjust_grant */
  function Adjusted(inFlight: u32, s: Status): u32 {
    if s.rx.None? then s.num else if s.num > Flying(inFlight, s) then s.num - Flying(inFlight, s) else 0
  }

  /** dfc_update_fc_map looks past its gates. */
  predicate Accepts(b: Bearer, s: Status) {
    (s.ratSwitch || !b.ratSwitch) && !(b.txOff && s.num > 0)
  }

  /** What a handler leaves before flow control, and whether it then calls dfc_bearer_flow_ctl. */
  datatype Plan = Plan(l: Link, act: bool)

  function Finish(m: Mode, p: Plan): Link { if p.act then FlowCtl(m, p.l) else p.l }

  /** The grant an accepted update leaves. */
  function NewGrant(m: Mode, b: Bearer, s: Status): u32 {
    if m.qmap && s.query then Adjusted(b.inFlight, s) else s.num
  }

  /** Too little of the grant is left to query again: the watchdog has to watch. */
  predicate Watches(m: Mode, b: Bearer, s: Status) {
    m.qmap && s.query && NewGrant(m, b, s) < s.num / 5
  }

  /** The bearer after an accepted update. */
  function Updated(m: Mode, b: Bearer, s: Status): Bearer
    requires m.Ok()
  {
    var watch := Watches(m, b, s);
    b.(ratSwitch := if s.ratSwitch then s.num == 0 else b.ratSwitch,
       inFlight := if m.qmap && s.query then Flying(b.inFlight, s) else 0,
       grant := NewGrant(m, b, s),
       thresh := if watch then NewGrant(m, b, s) else m.GrantPer(NewGrant(m, b, s)),
       quit := !watch, started := watch, pending := if watch then b.pending || !b.started else b.pending && !b.started,
       seqNo := s.seqNo, ackReq := s.ackReq, tcpBidir := s.tcpBidir, lastSeq := s.seqNo, queried := false)
  }

  /** dfc_update_fc_map on a bearer that exists. */
  function UpdatePlan(m: Mode, l: Link, s: Status): Plan
    requires m.Ok()
  {
    if !Accepts(l.b, s) then Plan(l.(b := l.b.(ratSwitch := if s.ratSwitch then s.num == 0 else l.b.ratSwitch)), false)
    else
      var confirm := m.qmap && l.b.ackReq && !s.ackReq && l.b.grant > 0;
      Plan(Link(Updated(m, l.b, s), l.queues, if confirm then l.sent + [DisableMsg(m, l.b)] else l.sent),
           (l.b.grant == 0) != (NewGrant(m, l.b, s) == 0))
  }

  /** dfc_update_tx_link_status on a bearer that exists. */
  function TxLinkPlan(m: Mode, l: Link, on: bool): Plan
    requires m.Ok()
  {
    var b := l.b;
    if b.txOff == !on then Plan(l, false)
    else if b.grant > 0 && !on then
      Plan(l.(b := WatchdogRemove(b.(grant := 0, tcpBidir := false, inFlight := 0)).(txOff := true)), true)
    else if b.grant == 0 && on && !b.ratSwitch then
      Plan(l.(b := b.(grant := DEFAULT_GRANT, thresh := m.GrantPer(DEFAULT_GRANT), seqNo := 0, ackReq := false,
                      txOff := false)), true)
    else Plan(l.(b := b.(txOff := !on)), false)
  }

  /** dfc_qmi_burst_check for the bearer of the packet's flow. */
  function SendPlan(m: Mode, l: Link, len: u32): Plan {
    var b0 := l.b.(inFlight := (l.b.inFlight + len) % 0x1_0000_0000);
    if b0.grant == 0 then Plan(l.(b := b0), false)
    else
      var grant := if len >= b0.grant then 0 else b0.grant - len;
      var crossed := b0.grant > b0.thresh && grant <= b0.thresh;
      var b1 := b0.(grant := grant, queried := b0.queried || crossed);
      Plan(Link(b1, l.queues, if crossed then l.sent + [ThresholdMsg(m, b1)] else l.sent), grant == 0)
  }

  /** The timer expires; its callback now waits for the lock. */
  function FireStep(b: Bearer): Bearer {
    if b.pending then b.(pending := false, running := b.running + 1) else b
  }

  /** qmi_rmnet_watchdog_fn */
  function CallbackPlan(m: Mode, l: Link): Plan
    requires m.Ok()
  {
    if l.b.running == 0 then Plan(l, false)
    else
      var b := l.b.(running := l.b.running - 1, started := false);
      if b.quit then Plan(l.(b := b), false)
      else
        var grant := if b.grant == 0 then DEFAULT_CALL_GRANT else b.grant;
        Plan(l.(b := b.(inFlight := 0, grant := grant, thresh := m.GrantPer(grant))), b.grant == 0)
  }

  /** qmi_rmnet_enable_all_flows, for one bearer. */
  function WakePlan(m: Mode, l: Link): Plan
    requires m.Ok()
  {
    var b := WatchdogRemove(l.b.(seqNo := 0, ackReq := false, inFlight := 0, tcpBidir := false, ratSwitch := false));
    if b.txOff then Plan(l.(b := b), false)
    else Plan(l.(b := b.(grant := DEFAULT_GRANT, thresh := m.GrantPer(DEFAULT_GRANT))), b.grant == 0)
  }

  /** dfc_qmap_set_end_marker on a bearer that exists. */
  function EndMarkerStep(l: Link, seqNo: u16, txid: u32): Link {
    if l.b.lastSeq == seqNo && l.b.grant > 0 then l.(b := l.b.(ackReq := true, ackTxid := txid))
    else l.(sent := l.sent + [Confirm(l.b.id, seqNo, txid)])
  }

  /** dfc_all_bearer_flow_ctl, for one bearer: no gate is asked. */
  function WildcardStep(m: Mode, l: Link, s: Status): Link
    requires m.Ok()
  {
    l.(b := l.b.(grant := s.num, thresh := m.GrantPer(s.num), seqNo := s.seqNo, ackReq := s.ackReq,
                 tcpBidir := s.tcpBidir, lastSeq := s.seqNo))
  }

  function PlanOf(m: Mode, l: Link, e: Event): Plan
    requires m.Ok()
  {
    match e
    case Update(s) => UpdatePlan(m, l, s)
    case TxLink(on) => TxLinkPlan(m, l, on)
    case Send(len) => SendPlan(m, l, len)
    case Fires => Plan(l.(b := FireStep(l.b)), false)
    case Callback => CallbackPlan(m, l)
    case Wake => WakePlan(m, l)
    case EndMarker(seqNo, txid) => Plan(EndMarkerStep(l, seqNo, txid), false)
    case Wildcard(s) => Plan(WildcardStep(m, l, s), true)
  }

  function Step(m: Mode, l: Link, e: Event): Link
    requires m.Ok()
  {
    Finish(m, PlanOf(m, l, e))
  }

  function Run(m: Mode, l: Link, es: seq<Event>): Link
    requires m.Ok()
  {
    if es == [] then l else Step(m, Run(m, l, es[..|es| - 1]), es[|es| - 1])
  }

  /** A run of five steps, one by one. */
  lemma {:induction false} RunFive(m: Mode, l: Link, e: Event, f: Event, g: Event, h: Event, i: Event)
    requires m.Ok()
    ensures Run(m, l, [e, f, g, h, i]) == Step(m, Step(m, Step(m, Step(m, Step(m, l, e), f), g), h), i)
  {
    hide Step;
    assert [e][..0] == [] && [e, f][..1] == [e] && [e, f, g][..2] == [e, f];
    assert [e, f, g, h][..3] == [e, f, g] && [e, f, g, h, i][..4] == [e, f, g, h];
    assert Run(m, l, [e]) == Step(m, Run(m, l, []), e);
    assert Run(m, l, [e, f]) == Step(m, Run(m, l, [e]), f);
    assert Run(m, l, [e, f, g]) == Step(m, Run(m, l, [e, f]), g);
    assert Run(m, l, [e, f, g, h]) == Step(m, Run(m, l, [e, f, g]), h);
    assert Run(m, l, [e, f, g, h, i]) == Step(m, Run(m, l, [e, f, g, h]), i);
  }

  /** The bearer that __qmi_rmnet_bearer_get creates. */
  function NewBearer(m: Mode, id: u8, refs: int): Bearer
    requires m.Ok()
  {
    Bearer(id, refs, DEFAULT_CALL_GRANT, m.GrantPer(DEFAULT_CALL_GRANT), 0, false, 0, 0, false, false, false, 0,
           INVALID_MQ, INVALID_MQ, false, false, false, 0, false)
  }

  // Queues

  predicate Bound(b: Bearer) { b.mq != INVALID_MQ }

  predicate QueueOn(queues: seq<bool>, i: nat) { i < |queues| && queues[i] }

  /** The data queue of a bound bearer runs exactly while it has a grant, and then its ack queue runs too. */
  predicate InSync(b: Bearer, queues: seq<bool>) {
    Bound(b) ==>
      && (b.mq < |queues| ==> (QueueOn(queues, b.mq) <==> b.grant > 0))
      && (b.ackMq < |queues| && b.grant > 0 ==> QueueOn(queues, b.ackMq))
  }

  /** A bearer is bound to no queue, or to a data queue and the ack queue fifteen above it. */
  predicate Wired(b: Bearer, queues: seq<bool>) {
    && |queues| <= INVALID_MQ
    && (Bound(b) ==> b.mq < b.ackMq != INVALID_MQ)
    && (!Bound(b) ==> b.ackMq == INVALID_MQ)
  }

  /** Handlers change queue states only at the bearer's own two queues, and nothing of its binding. */
  predicate Local(l: Link, r: Link) {
    && r.b.id == l.b.id && r.b.flowRef == l.b.flowRef && r.b.mq == l.b.mq && r.b.ackMq == l.b.ackMq
    && |r.queues| == |l.queues|
    && (forall i :: 0 <= i < |l.queues| && i != l.b.mq && i != l.b.ackMq ==> r.queues[i] == l.queues[i])
    && l.sent <= r.sent
  }

  lemma FlowCtlSyncs(m: Mode, l: Link)
    requires Wired(l.b, l.queues)
    ensures Local(l, FlowCtl(m, l)) && InSync(l.b, FlowCtl(m, l).queues) && FlowCtl(m, l).b == l.b
  {
  }

  /** A step keeps the bearer's queues in step with its grant and touches nothing else. */
  predicate Syncs(l: Link, r: Link) { Local(l, r) && InSync(r.b, r.queues) }

  /** Binding and queues are untouched, and flow control follows wherever the grant appears or runs out. */
  predicate Quiet(l: Link, p: Plan) {
    && p.l.b.mq == l.b.mq && p.l.b.ackMq == l.b.ackMq && p.l.b.id == l.b.id && p.l.b.flowRef == l.b.flowRef
    && p.l.queues == l.queues && l.sent <= p.l.sent
    && (p.act || (p.l.b.grant > 0 <==> l.b.grant > 0))
  }

  lemma {:induction false} QuietSyncs(m: Mode, l: Link, p: Plan)
    requires Wired(l.b, l.queues) && InSync(l.b, l.queues) && Quiet(l, p)
    ensures Syncs(l, Finish(m, p)) && Finish(m, p).b == p.l.b
  {
    if p.act {
      FlowCtlSyncs(m, p.l);
    }
  }

  lemma {:induction false} UpdateQuiet(m: Mode, l: Link, s: Status)
    requires m.Ok()
    ensures Quiet(l, UpdatePlan(m, l, s))
  {
    hide DisableMsg, NewGrant, Watches, Flying, Mode.GrantPer;
  }

  lemma {:induction false} SendQuiet(m: Mode, l: Link, len: u32)
    requires m.Ok()
    ensures Quiet(l, SendPlan(m, l, len))
  {
    hide ThresholdMsg;
  }

  lemma {:induction false} PlanQuiet(m: Mode, l: Link, e: Event)
    requires m.Ok()
    ensures Quiet(l, PlanOf(m, l, e))
  {
    hide UpdatePlan, SendPlan, Mode.GrantPer;
    if e.Update? {
      UpdateQuiet(m, l, e.s);
    } else if e.Send? {
      SendQuiet(m, l, e.len);
    }
  }

  /** Every handler keeps the data queue running exactly while there is a grant. */
  lemma {:induction false} StepSyncs(m: Mode, l: Link, e: Event)
    requires m.Ok() && Wired(l.b, l.queues) && InSync(l.b, l.queues)
    ensures Syncs(l, Step(m, l, e)) && Step(m, l, e).b == PlanOf(m, l, e).l.b
  {
    hide PlanOf, Finish, Quiet;
    PlanQuiet(m, l, e);
    QuietSyncs(m, l, PlanOf(m, l, e));
  }

  lemma {:induction false} StepBearer(m: Mode, l: Link, e: Event)
    requires m.Ok()
    ensures Step(m, l, e).b == PlanOf(m, l, e).l.b
  {
    hide PlanOf;
  }

  // Credit

  /**
   * After an indication, or a query response that reports received bytes, grant and bytes in flight make up the new
   * credit.
   */
  lemma {:induction false} UpdateCredit(m: Mode, l: Link, s: Status)
    requires m.Ok() && Accepts(l.b, s) && (m.qmap && s.query ==> s.rx.Some?)
    ensures var b := Step(m, l, Update(s)).b; b.grant + b.inFlight == Max(s.num, b.inFlight)
  {
    hide DisableMsg, Mode.GrantPer, FlowCtl;
    StepBearer(m, l, Update(s));
  }

  function Sends(lens: seq<u32>): seq<Event> {
    if lens == [] then [] else Sends(lens[..|lens| - 1]) + [Send(lens[|lens| - 1])]
  }

  function Total(lens: seq<u32>): nat {
    if lens == [] then 0 else Total(lens[..|lens| - 1]) + lens[|lens| - 1]
  }

  lemma {:induction false} RunSends(m: Mode, l: Link, lens: seq<u32>)
    requires m.Ok() && lens != []
    ensures Run(m, l, Sends(lens)) == Step(m, Run(m, l, Sends(lens[..|lens| - 1])), Send(lens[|lens| - 1]))
  {
    hide Step;
    var front := Sends(lens[..|lens| - 1]);
    assert Sends(lens)[..|front|] == front;
  }

  /** Every byte sent is taken from the grant until it is used up, and added to the bytes in flight. */
  lemma {:induction false} SendsCredit(m: Mode, l: Link, lens: seq<u32>)
    requires m.Ok()
    ensures var r := Run(m, l, Sends(lens));
      && r.b.grant == Max(l.b.grant - Total(lens), 0)
      && r.b.inFlight == (l.b.inFlight + Total(lens)) % 0x1_0000_0000
      && r.b.thresh == l.b.thresh && r.b.seqNo == l.b.seqNo
  {
    hide Step;
    if lens != [] {
      var n := |lens| - 1;
      SendsCredit(m, l, lens[..n]);
      RunSends(m, l, lens);
      hide Run, Sends;
      SendOnce(m, Run(m, l, Sends(lens[..n])), lens[n], l.b.inFlight + Total(lens[..n]));
    }
  }

  lemma {:induction false} SendOnce(m: Mode, l: Link, len: u32, sum: nat)
    requires m.Ok() && l.b.inFlight == sum % 0x1_0000_0000
    ensures var b := Step(m, l, Send(len)).b;
      b.grant == Max(l.b.grant - len, 0) && b.inFlight == (sum + len) % 0x1_0000_0000
      && b.thresh == l.b.thresh && b.seqNo == l.b.seqNo
  {
    StepBearer(m, l, Send(len));
    WrapAdd(sum, len);
    hide Step;
  }

  lemma {:induction false} WrapAdd(sum: nat, len: nat)
    ensures (sum % 0x1_0000_0000 + len) % 0x1_0000_0000 == (sum + len) % 0x1_0000_0000
  {
    var q, r := sum / 0x1_0000_0000, sum % 0x1_0000_0000;
    assert sum == 0x1_0000_0000 * q + r;
    var n, t := (r + len) / 0x1_0000_0000, (r + len) % 0x1_0000_0000;
    assert r + len == 0x1_0000_0000 * n + t;
    assert sum + len == 0x1_0000_0000 * (q + n) + t;
  }

  /**
   * While the queue runs, grant plus bytes in flight stays what the update granted; when it stops, less than the last
   * packet went out beyond it.
   */
  lemma {:induction false} CreditConserved(m: Mode, l: Link, lens: seq<u32>)
    requires m.Ok() && l.b.grant + l.b.inFlight < 0x1_0000_0000 && l.b.grant > 0
    ensures var r := Run(m, l, Sends(lens));
      && (r.b.grant > 0 ==> r.b.grant + r.b.inFlight == l.b.grant + l.b.inFlight)
      && (lens != [] && Run(m, l, Sends(lens[..|lens| - 1])).b.grant > 0 && r.b.grant == 0 ==>
            0 <= Total(lens) - l.b.grant < Max(lens[|lens| - 1], 1))
  {
    hide Run;
    SendsCredit(m, l, lens);
    if lens != [] {
      SendsCredit(m, l, lens[..|lens| - 1]);
    }
  }

  // Gating

  /**
   * A RAT switch holds the grant at zero with the watchdog told to quit; in QMI mode so does TX off, and no watchdog
   * exists.
   */
  predicate Gated(m: Mode, b: Bearer) {
    && (b.ratSwitch ==> b.grant == 0 && b.quit)
    && (!m.qmap ==> (b.txOff ==> b.grant == 0) && !b.pending && b.running == 0 && !b.started)
  }

  lemma {:induction false} StepGates(m: Mode, l: Link, e: Event)
    requires m.Ok() && Gated(m, l.b) && !e.Wildcard?
    ensures Gated(m, Step(m, l, e).b)
  {
    StepBearer(m, l, e);
    hide Step, Finish, DisableMsg, ThresholdMsg, Mode.GrantPer, NewGrant, Watches, Flying;
    match e {
      case Update(s) =>
        if Accepts(l.b, s) {
          UpdatedGated(m, l.b, s);
        }
        hide Updated;
      case TxLink(_) =>
      case Send(_) =>
      case Fires =>
      case Callback =>
      case Wake =>
      case EndMarker(_, _) =>
    }
  }

  lemma {:induction false} UpdatedGated(m: Mode, b: Bearer, s: Status)
    requires m.Ok() && Gated(m, b) && Accepts(b, s)
    ensures Gated(m, Updated(m, b, s))
  {
    hide Mode.GrantPer;
  }

  lemma {:induction false} RunGates(m: Mode, l: Link, es: seq<Event>)
    requires m.Ok() && Gated(m, l.b) && forall k :: 0 <= k < |es| ==> !es[k].Wildcard?
    ensures Gated(m, Run(m, l, es).b)
  {
    if es != [] {
      assert forall k :: 0 <= k < |es| - 1 ==> es[..|es| - 1][k] == es[k];
      RunGates(m, l, es[..|es| - 1]);
      StepGates(m, Run(m, l, es[..|es| - 1]), es[|es| - 1]);
    }
  }

  /**
   * In any mode, the one step that breaks TX-off gating is a live watchdog firing on an exhausted bearer whose TX is
   * off.
   */
  lemma {:induction false} TxOffExact(m: Mode, l: Link, e: Event)
    requires m.Ok() && (l.b.txOff ==> l.b.grant == 0) && !e.Wildcard?
    ensures var b := Step(m, l, e).b;
      b.txOff && b.grant > 0 <==> e.Callback? && l.b.running > 0 && !l.b.quit && l.b.txOff && l.b.grant == 0
  {
    StepBearer(m, l, e);
    hide Step, Finish, DisableMsg, ThresholdMsg, Mode.GrantPer, Flying, Watches;
    if e.Update? && Accepts(l.b, e.s) {
      UpdatedTxOff(m, l.b, e.s);
      hide Updated, NewGrant;
    }
  }

  lemma UpdatedTxOff(m: Mode, b: Bearer, s: Status)
    requires m.Ok() && Accepts(b, s)
    ensures Updated(m, b, s).txOff == b.txOff && (b.txOff ==> Updated(m, b, s).grant == 0)
  {
  }

  /** Such a state is reached in QMAP mode: the watchdog survives a TX off that found the grant already used up. */
  lemma {:induction false} TxOffBroken(queues: seq<bool>)
    ensures var m := Mode(true, 5);
      var es := [Send(30000), Update(Status(20000, QUERY_SEQ, Some(0), false, false, false, true)),
                 TxLink(false), Fires, Callback];
      var r := Run(m, Link(NewBearer(m, 1, 0), queues, []), es);
      r.b.txOff && r.b.grant == DEFAULT_CALL_GRANT
  {
    var m := Mode(true, 5);
    var s := Status(20000, QUERY_SEQ, Some(0), false, false, false, true);
    var l := Link(NewBearer(m, 1, 0), queues, []);
    RunFive(m, l, Send(30000), Update(s), TxLink(false), Fires, Callback);
    hide Run, FlowCtl, DisableMsg, ThresholdMsg;
    var l1 := Step(m, l, Send(30000));
    StepBearer(m, l, Send(30000));
    assert l1.b.grant == 0 && l1.b.inFlight == 30000;
    var l2 := Step(m, l1, Update(s));
    StepBearer(m, l1, Update(s));
    assert l2.b.grant == 0 && l2.b.pending && !l2.b.quit && l2.b.running == 0;
    var l3 := Step(m, l2, TxLink(false));
    StepBearer(m, l2, TxLink(false));
    assert l3.b == l2.b.(txOff := true);
    var l4 := Step(m, l3, Fires);
    StepBearer(m, l3, Fires);
    assert l4.b == l3.b.(pending := false, running := 1);
    StepBearer(m, l4, Callback);
  }

  // Watchdog

  /** A started watchdog is not told to quit, and its timer is armed or its callback is on the way. */
  predicate Watched(b: Bearer) {
    b.started ==> !b.quit && (b.pending || b.running > 0)
  }

  /** Under every race of expiry, removal and re-adding. */
  lemma {:induction false} StepWatched(m: Mode, l: Link, e: Event)
    requires m.Ok() && Watched(l.b)
    ensures Watched(Step(m, l, e).b)
  {
    StepBearer(m, l, e);
    hide Step, Finish, DisableMsg, ThresholdMsg, Mode.GrantPer, NewGrant, Watches, Flying;
    match e {
      case Update(s) =>
        if Accepts(l.b, s) {
          UpdatedWatched(m, l.b, s);
        }
        hide Updated;
      case TxLink(on) => assert Watched(TxLinkPlan(m, l, on).l.b);
      case Send(len) => assert Watched(SendPlan(m, l, len).l.b);
      case Fires =>
      case Callback => assert Watched(CallbackPlan(m, l).l.b);
      case Wake => assert Watched(WakePlan(m, l).l.b);
      case EndMarker(_, _) =>
      case Wildcard(_) =>
    }
  }

  lemma {:induction false} UpdatedWatched(m: Mode, b: Bearer, s: Status)
    requires m.Ok() && Watched(b)
    ensures Watched(Updated(m, b, s))
  {
    hide Mode.GrantPer, NewGrant, Watches, Flying;
  }

  lemma {:induction false} RunWatched(m: Mode, l: Link, es: seq<Event>)
    requires m.Ok() && Watched(l.b)
    ensures Watched(Run(m, l, es).b)
  {
    if es != [] {
      RunWatched(m, l, es[..|es| - 1]);
      StepWatched(m, Run(m, l, es[..|es| - 1]), es[|es| - 1]);
    }
  }

  /** The bearer has asked for more, will ask before it runs dry, or is being watched. */
  predicate Alert(b: Bearer) { b.queried || b.grant > b.thresh || b.started }

  /** Updates of at least five bytes, sends, end markers, and the watchdog. */
  predicate Feeding(e: Event) {
    match e
    case Update(s) => s.num >= 5
    case Send(_) => true
    case Fires => true
    case Callback => true
    case EndMarker(_, _) => true
    case _ => false
  }

  lemma {:induction false} StepAlert(m: Mode, l: Link, e: Event)
    requires m.Ok() && m.scale >= 2 && Feeding(e) && Watched(l.b) && Alert(l.b)
    ensures Alert(Step(m, l, e).b)
  {
    StepBearer(m, l, e);
    hide Step, Finish, DisableMsg, ThresholdMsg;
  }

  /**
   * An accepted update leaves the bearer alert exactly when it leaves a grant or is a query response of at least five
   * bytes.
   */
  lemma {:induction false} UpdateAlertExact(m: Mode, l: Link, s: Status)
    requires m.Ok() && m.scale >= 2 && Accepts(l.b, s)
    ensures Alert(Step(m, l, Update(s)).b) <==> NewGrant(m, l.b, s) > 0 || (m.qmap && s.query && s.num >= 5)
  {
    StepBearer(m, l, Update(s));
    hide Step, Finish, DisableMsg, ThresholdMsg;
  }

  /** A run of two steps, one by one. */
  lemma {:induction false} RunTwo(m: Mode, l: Link, e: Event, f: Event)
    requires m.Ok()
    ensures Run(m, l, [e, f]) == Step(m, Step(m, l, e), f)
  {
    hide Step;
    assert [e][..0] == [] && [e, f][..1] == [e];
    assert Run(m, l, [e]) == Step(m, Run(m, l, []), e);
  }

  /** A response of four bytes to a new bearer with more than that in flight: no grant, no query, and nobody watches. */
  lemma {:induction false} ShortResponseStalls(queues: seq<bool>)
    ensures var m := Mode(true, 5);
      var es := [Send(30000), Update(Status(4, QUERY_SEQ, Some(0), false, false, false, true))];
      var b := Run(m, Link(NewBearer(m, 1, 0), queues, []), es).b;
      b.grant == 0 && !Alert(b) && !b.Live()
  {
    var m := Mode(true, 5);
    var s := Status(4, QUERY_SEQ, Some(0), false, false, false, true);
    var l := Link(NewBearer(m, 1, 0), queues, []);
    RunTwo(m, l, Send(30000), Update(s));
    hide Run, FlowCtl, DisableMsg, ThresholdMsg;
    var l1 := Step(m, l, Send(30000));
    StepBearer(m, l, Send(30000));
    assert l1.b.grant == 0 && l1.b.inFlight == 30000 && !l1.b.started && !l1.b.pending && l1.b.running == 0;
    StepBearer(m, l1, Update(s));
  }

  /** No silent stall. */
  lemma {:induction false} RunAlert(m: Mode, l: Link, es: seq<Event>)
    requires m.Ok() && m.scale >= 2 && Watched(l.b) && Alert(l.b)
    requires forall k :: 0 <= k < |es| ==> Feeding(es[k])
    ensures Alert(Run(m, l, es).b) && Watched(Run(m, l, es).b)
  {
    if es != [] {
      var front := es[..|es| - 1];
      assert forall k :: 0 <= k < |front| ==> front[k] == es[k];
      RunAlert(m, l, front);
      StepWatched(m, Run(m, l, front), es[|es| - 1]);
      StepAlert(m, Run(m, l, front), es[|es| - 1]);
    }
  }

  /** A fresh bearer starts out like that. */
  lemma NewBearerAlert(m: Mode, id: u8, refs: int)
    requires m.Ok() && m.scale >= 2
    ensures var b := NewBearer(m, id, refs); Alert(b) && Watched(b) && Gated(m, b)
  {
  }

  function Queries(sent: seq<Msg>): nat {
    if sent == [] then 0 else Queries(sent[..|sent| - 1]) + if sent[|sent| - 1].Query? then 1 else 0
  }

  lemma {:induction false} QueriesSnoc(sent: seq<Msg>, x: Msg)
    ensures Queries(sent + [x]) == Queries(sent) + if x.Query? then 1 else 0
  {
    assert (sent + [x])[..|sent|] == sent;
  }

  /**
   * The messages of a send: a query where it crosses the threshold, and what flow control adds at the end of the
   * grant.
   */
  lemma {:induction false} SendMessages(m: Mode, l: Link, len: u32)
    requires m.Ok()
    ensures var r := Step(m, l, Send(len));
      var crossed := l.b.grant > l.b.thresh && r.b.grant <= l.b.thresh;
      var mid := if crossed then l.sent + [ThresholdMsg(m, l.b)] else l.sent;
      r.sent == (if l.b.grant > 0 && r.b.grant == 0 && l.b.ackReq then mid + [DisableMsg(m, l.b)] else mid)
  {
    StepBearer(m, l, Send(len));
    var p := SendPlan(m, l, len);
    assert p.l.sent + [] == p.l.sent;
    hide SetQueue;
  }

  lemma {:induction false} SendQueries(m: Mode, l: Link, len: u32)
    requires m.Ok() && m.qmap
    ensures var r := Step(m, l, Send(len));
      Queries(r.sent) == Queries(l.sent) + if l.b.grant > l.b.thresh && r.b.grant <= l.b.thresh then 1 else 0
  {
    hide Step, Queries;
    SendMessages(m, l, len);
    QueriesSnoc(l.sent, ThresholdMsg(m, l.b));
    QueriesSnoc(l.sent, DisableMsg(m, l.b));
    QueriesSnoc(l.sent + [ThresholdMsg(m, l.b)], DisableMsg(m, l.b));
  }

  /** Using up a grant above its threshold sends exactly one query, at the packet that crosses the threshold. */
  lemma {:induction false} SendsQueryOnce(m: Mode, l: Link, lens: seq<u32>)
    requires m.Ok() && m.qmap && l.b.grant > l.b.thresh
    ensures var r := Run(m, l, Sends(lens));
      Queries(r.sent) == Queries(l.sent) + if r.b.grant <= l.b.thresh then 1 else 0
  {
    hide Step, Queries;
    if lens != [] {
      var n := |lens| - 1;
      var k := Run(m, l, Sends(lens[..n]));
      SendsQueryOnce(m, l, lens[..n]);
      RunSends(m, l, lens);
      SendsCredit(m, l, lens[..n]);
      SendsCredit(m, l, lens);
      hide Run, Sends;
      SendQueries(m, k, lens[n]);
    }
  }

  // End marker

  /**
   * What the QMAP command handlers pass on: responses carry no sequence number, and no update asks for an
   * acknowledgement.
   */
  predicate FromQmap(e: Event) {
    match e
    case Update(s) => !s.ackReq && (s.query ==> s.seqNo == QUERY_SEQ)
    case EndMarker(seqNo, _) => seqNo != QUERY_SEQ
    case Wildcard(_) => false
    case _ => true
  }

  /** A QMAP flow indication, or the body of a query response. */
  datatype QmapCmd = QmapCmd(txInfo: Option<bool>, invalid: bool, grant: u32, seqNo: u16, rx: Option<u32>,
                             tcpBidir: bool)

  /** dfc_qmap_handle_ind: TX information takes the place of the grant. */
  function HandleInd(c: QmapCmd): Event {
    if c.txInfo.Some? then TxLink(c.txInfo.value)
    else Update(Status(c.grant, c.seqNo, c.rx, false, false, c.tcpBidir, false))
  }

  /** dfc_qmap_handle_query_resp */
  function HandleQueryResp(c: QmapCmd): Option<Event> {
    if c.invalid then None else Some(Update(Status(c.grant, QUERY_SEQ, c.rx, false, false, c.tcpBidir, true)))
  }

  /** Whatever the modem sends, the handlers raise only events of that kind, and never one that touches rat_switch. */
  lemma QmapEvents(c: QmapCmd)
    ensures Between(HandleInd(c)) && (HandleQueryResp(c).Some? ==> Between(HandleQueryResp(c).value))
    ensures HandleInd(c).Update? ==> !HandleInd(c).s.ratSwitch && !HandleInd(c).s.query
    ensures HandleQueryResp(c).Some? ==> HandleQueryResp(c).value.s.query && !HandleQueryResp(c).value.s.ratSwitch
  {
  }

  /** A live watchdog was started by a query response, so no end marker can be waiting. */
  predicate Unmarked(b: Bearer) { b.Live() ==> b.lastSeq == QUERY_SEQ && !b.ackReq }

  lemma {:induction false} StepUnmarked(m: Mode, l: Link, e: Event)
    requires m.Ok() && m.qmap && FromQmap(e) && Unmarked(l.b) && Watched(l.b)
    ensures Unmarked(Step(m, l, e).b)
  {
    StepBearer(m, l, e);
    hide Step, Finish, DisableMsg, ThresholdMsg, Mode.GrantPer, NewGrant, Flying;
  }

  lemma {:induction false} RunUnmarked(m: Mode, l: Link, es: seq<Event>)
    requires m.Ok() && m.qmap && Unmarked(l.b) && Watched(l.b)
    requires forall k :: 0 <= k < |es| ==> FromQmap(es[k])
    ensures Unmarked(Run(m, l, es).b) && Watched(Run(m, l, es).b)
  {
    if es != [] {
      var front := es[..|es| - 1];
      assert forall k :: 0 <= k < |front| ==> front[k] == es[k];
      RunUnmarked(m, l, front);
      StepUnmarked(m, Run(m, l, front), es[|es| - 1]);
      StepWatched(m, Run(m, l, front), es[|es| - 1]);
    }
  }

  /** The end-marker confirmations of a bearer among the messages. */
  function Confirms(sent: seq<Msg>, id: u8): seq<Msg> {
    if sent == [] then []
    else
      var last := sent[|sent| - 1];
      Confirms(sent[..|sent| - 1], id) + if last.Confirm? && last.id == id then [last] else []
  }

  lemma {:induction false} ConfirmsSnoc(sent: seq<Msg>, x: Msg, id: u8)
    ensures x.Confirm? && x.id == id ==> Confirms(sent + [x], id) == Confirms(sent, id) + [x]
    ensures !(x.Confirm? && x.id == id) ==> Confirms(sent + [x], id) == Confirms(sent, id)
  {
    assert (sent + [x])[..|sent|] == sent;
  }

  /** Only bearer `id` has added messages. */
  predicate OnlyFrom(before: seq<Msg>, now: seq<Msg>, id: u8) {
    before <= now && forall k :: |before| <= k < |now| ==> now[k].id == id
  }

  lemma {:induction false} PlanMessages(m: Mode, l: Link, e: Event)
    requires m.Ok()
    ensures OnlyFrom(l.sent, PlanOf(m, l, e).l.sent, l.b.id) && PlanOf(m, l, e).l.b.id == l.b.id
  {
    PlanQuiet(m, l, e);
    hide Mode.GrantPer, NewGrant, Watches, Updated, WatchdogRemove;
  }

  lemma {:induction false} StepMessages(m: Mode, l: Link, e: Event)
    requires m.Ok()
    ensures OnlyFrom(l.sent, Step(m, l, e).sent, l.b.id)
  {
    PlanMessages(m, l, e);
    hide PlanOf, SetQueue;
  }

  /** Messages of other bearers confirm nothing of this one. */
  lemma {:induction false} OthersConfirmNothing(before: seq<Msg>, now: seq<Msg>, other: u8, id: u8)
    requires OnlyFrom(before, now, other) && other != id
    ensures Confirms(now, id) == Confirms(before, id)
    decreases |now|
  {
    if |now| == |before| {
      assert now == before;
    } else {
      OthersConfirmNothing(before, now[..|now| - 1], other, id);
    }
  }

  /** An end marker waits for the grant to be used up or replaced. */
  predicate Waiting(b: Bearer) { b.ackReq && b.grant > 0 }

  /** Sends, per-bearer updates, TX-link changes and the watchdog. */
  predicate Between(e: Event) { FromQmap(e) && !e.EndMarker? && !e.Wake? }

  /** A waiting request is left as it is or answered, and nothing else is. */
  predicate Answered(l: Link, r: Link) {
    && r.b.id == l.b.id
    && (Waiting(r.b) ==> Waiting(l.b) && r.b.seqNo == l.b.seqNo && r.b.ackTxid == l.b.ackTxid)
    && var c := Confirms(l.sent, l.b.id);
       if Waiting(l.b) && !Waiting(r.b) then
         Confirms(r.sent, l.b.id) == c + [Confirm(l.b.id, l.b.seqNo, l.b.ackTxid)]
       else
         Confirms(r.sent, l.b.id) == c
  }

  /** What flow control confirms, if the handler calls it. */
  lemma {:induction false} FinishConfirms(m: Mode, p: Plan)
    requires m.qmap
    ensures var b := p.l.b;
      if p.act && b.grant == 0 && b.ackReq then
        Confirms(Finish(m, p).sent, b.id) == Confirms(p.l.sent, b.id) + [Confirm(b.id, b.seqNo, b.ackTxid)]
      else
        Confirms(Finish(m, p).sent, b.id) == Confirms(p.l.sent, b.id)
  {
    hide Confirms, SetQueue;
    ConfirmsSnoc(p.l.sent, DisableMsg(m, p.l.b), p.l.b.id);
    assert p.l.sent + [] == p.l.sent;
  }

  lemma {:induction false} SendAnswers(m: Mode, l: Link, len: u32)
    requires m.Ok() && m.qmap
    ensures Answered(l, Step(m, l, Send(len)))
  {
    var p := SendPlan(m, l, len);
    ConfirmsSnoc(l.sent, ThresholdMsg(m, p.l.b), l.b.id);
    hide Confirms, Finish;
    FinishConfirms(m, p);
    StepBearer(m, l, Send(len));
  }

  /** An accepted QMAP update confirms a waiting request before anything else, and clears it. */
  lemma {:induction false} UpdateFields(m: Mode, l: Link, s: Status)
    requires m.Ok() && m.qmap && FromQmap(Update(s))
    ensures var p, b := UpdatePlan(m, l, s), l.b;
      && p.l.b.id == b.id && (Accepts(b, s) ==> !p.l.b.ackReq)
      && (!Accepts(b, s) ==> !p.act && p.l.b == b.(ratSwitch := p.l.b.ratSwitch))
      && p.l.sent == if Accepts(b, s) && Waiting(b) then l.sent + [Confirm(b.id, b.seqNo, b.ackTxid)] else l.sent
  {
    hide Mode.GrantPer, NewGrant, Watches, Flying;
  }

  lemma {:induction false} UpdateAnswers(m: Mode, l: Link, s: Status)
    requires m.Ok() && m.qmap && FromQmap(Update(s))
    ensures Answered(l, Step(m, l, Update(s))) && (Accepts(l.b, s) ==> !Step(m, l, Update(s)).b.ackReq)
  {
    UpdateFields(m, l, s);
    var p := UpdatePlan(m, l, s);
    assert PlanOf(m, l, Update(s)) == p;
    StepBearer(m, l, Update(s));
    hide Confirms, Finish, UpdatePlan, Accepts, FromQmap;
    ConfirmsSnoc(l.sent, Confirm(l.b.id, l.b.seqNo, l.b.ackTxid), l.b.id);
    FinishConfirms(m, p);
  }

  /** A plan that sends nothing of its own and never revives a request that was answered. */
  predicate Discreet(l: Link, p: Plan) {
    var b, c := l.b, p.l.b;
    && c.id == b.id && p.l.sent == l.sent
    && (Waiting(c) ==> !p.act)
    && (!p.act || c.grant == 0 ==> c.ackReq == b.ackReq && c.seqNo == b.seqNo && c.ackTxid == b.ackTxid)
    && (if p.act then (c.grant == 0 ==> b.grant > 0) && (c.grant > 0 ==> b.grant == 0)
        else c.grant > 0 <==> b.grant > 0)
  }

  lemma TxLinkDiscreet(m: Mode, l: Link, on: bool)
    requires m.Ok()
    ensures Discreet(l, TxLinkPlan(m, l, on))
  {
  }

  lemma CallbackDiscreet(m: Mode, l: Link)
    requires m.Ok() && Unmarked(l.b)
    ensures Discreet(l, CallbackPlan(m, l))
  {
  }

  lemma FireDiscreet(l: Link)
    ensures Discreet(l, Plan(l.(b := FireStep(l.b)), false))
  {
  }

  lemma {:induction false} OtherAnswers(m: Mode, l: Link, e: Event)
    requires m.Ok() && m.qmap && Between(e) && Unmarked(l.b) && !e.Update? && !e.Send?
    ensures Answered(l, Step(m, l, e))
  {
    StepBearer(m, l, e);
    hide Confirms, Finish, TxLinkPlan, CallbackPlan, FireStep;
    FinishConfirms(m, PlanOf(m, l, e));
    match e {
      case TxLink(on) => TxLinkDiscreet(m, l, on);
      case Callback => CallbackDiscreet(m, l);
      case Fires => FireDiscreet(l);
      case _ =>
    }
  }

  /** A step either leaves a waiting request as it is, or answers it, and answers nothing else. */
  lemma {:induction false} StepConfirms(m: Mode, l: Link, e: Event)
    requires m.Ok() && m.qmap && Between(e) && Unmarked(l.b) && Watched(l.b)
    ensures var r := Step(m, l, e);
      && r.b.id == l.b.id
      && (Waiting(r.b) ==> Waiting(l.b) && r.b.seqNo == l.b.seqNo && r.b.ackTxid == l.b.ackTxid)
      && Confirms(r.sent, l.b.id) == Confirms(l.sent, l.b.id) +
           (if Waiting(l.b) && !Waiting(r.b) then [Confirm(l.b.id, l.b.seqNo, l.b.ackTxid)] else [])
      && (e.Update? && Accepts(l.b, e.s) ==> !r.b.ackReq)
  {
    hide Step, Confirms, Accepts, Unmarked, Watched;
    var c := Confirms(l.sent, l.b.id);
    assert c + [] == c;
    match e {
      case Update(s) => UpdateAnswers(m, l, s);
      case Send(len) => SendAnswers(m, l, len);
      case _ => OtherAnswers(m, l, e);
    }
  }

  /**
   * The QMAP end marker: over any run after the request it is confirmed at most once, namely as soon as the grant is
   * used up or an update is accepted, always with the transaction id of the request.
   */
  lemma {:induction false} EndMarkerOnce(m: Mode, l: Link, seqNo: u16, txid: u32, es: seq<Event>)
    requires m.Ok() && m.qmap && seqNo != QUERY_SEQ && Unmarked(l.b) && Watched(l.b) && !Waiting(l.b)
    requires forall k :: 0 <= k < |es| ==> Between(es[k])
    ensures var start := Step(m, l, EndMarker(seqNo, txid));
      var r := Run(m, start, es);
      var matched := l.b.lastSeq == seqNo && l.b.grant > 0;
      && Unmarked(r.b) && Watched(r.b) && r.b.id == l.b.id
      && (Waiting(r.b) ==> matched && r.b.seqNo == l.b.seqNo && r.b.ackTxid == txid)
      && Confirms(r.sent, l.b.id) == Confirms(l.sent, l.b.id) +
           (if Waiting(r.b) then [] else [Confirm(l.b.id, if matched then l.b.seqNo else seqNo, txid)])
  {
    var start := Step(m, l, EndMarker(seqNo, txid));
    if es == [] {
      EndMarkerStart(m, l, seqNo, txid);
    } else {
      hide Step, Confirms, Unmarked, Watched, Waiting, Between;
      var front, e := es[..|es| - 1], es[|es| - 1];
      assert forall k :: 0 <= k < |front| ==> front[k] == es[k];
      EndMarkerOnce(m, l, seqNo, txid, front);
      var k := Run(m, start, front);
      assert Run(m, start, es) == Step(m, k, e);
      hide Run;
      BetweenQmap(e);
      StepUnmarked(m, k, e);
      StepWatched(m, k, e);
      StepConfirms(m, k, e);
      var c := Confirms(l.sent, l.b.id);
      assert c + [] == c;
    }
  }

  /** An accepted update on the way answers the request for good. */
  lemma {:induction false} AcceptedAnswers(m: Mode, l: Link, es: seq<Event>, k: nat)
    requires m.Ok() && m.qmap && Unmarked(l.b) && Watched(l.b)
    requires k < |es| && es[k].Update? && Accepts(Run(m, l, es[..k]).b, es[k].s)
    requires forall i :: 0 <= i < |es| ==> Between(es[i])
    ensures !Waiting(Run(m, l, es).b)
  {
    hide Step, Accepts, Unmarked, Watched;
    var n := |es| - 1;
    var front := es[..n];
    assert forall i :: 0 <= i < n ==> front[i] == es[i] && Between(front[i]);
    forall i | 0 <= i < n
      ensures FromQmap(front[i])
    {
      BetweenQmap(front[i]);
    }
    RunUnmarked(m, l, front);
    StepConfirms(m, Run(m, l, front), es[n]);
    if k < n {
      assert front[..k] == es[..k];
      AcceptedAnswers(m, l, front, k);
    }
  }

  /** So a request is confirmed by then, once, whether it waited or not. */
  lemma {:induction false} EndMarkerAccepted(m: Mode, l: Link, seqNo: u16, txid: u32, es: seq<Event>, k: nat)
    requires m.Ok() && m.qmap && seqNo != QUERY_SEQ && Unmarked(l.b) && Watched(l.b) && !Waiting(l.b)
    requires forall i :: 0 <= i < |es| ==> Between(es[i])
    requires var start := Step(m, l, EndMarker(seqNo, txid));
      k < |es| && es[k].Update? && Accepts(Run(m, start, es[..k]).b, es[k].s)
    ensures var r := Run(m, Step(m, l, EndMarker(seqNo, txid)), es);
      var seen := if l.b.lastSeq == seqNo && l.b.grant > 0 then l.b.seqNo else seqNo;
      Confirms(r.sent, l.b.id) == Confirms(l.sent, l.b.id) + [Confirm(l.b.id, seen, txid)]
  {
    hide Step, Run, Accepts, Confirms, Between;
    EndMarkerStart(m, l, seqNo, txid);
    AcceptedAnswers(m, Step(m, l, EndMarker(seqNo, txid)), es, k);
    EndMarkerOnce(m, l, seqNo, txid, es);
  }

  lemma BetweenQmap(e: Event)
    requires Between(e)
    ensures FromQmap(e)
  {
  }

  /** The request itself: it waits, or is confirmed at once. */
  lemma {:induction false} EndMarkerStart(m: Mode, l: Link, seqNo: u16, txid: u32)
    requires m.Ok() && m.qmap && seqNo != QUERY_SEQ && Unmarked(l.b) && Watched(l.b) && !Waiting(l.b)
    ensures var r := Step(m, l, EndMarker(seqNo, txid));
      var matched := l.b.lastSeq == seqNo && l.b.grant > 0;
      && Unmarked(r.b) && Watched(r.b) && r.b.id == l.b.id
      && (Waiting(r.b) <==> matched)
      && (matched ==> r.b.seqNo == l.b.seqNo && r.b.ackTxid == txid)
      && Confirms(r.sent, l.b.id) == Confirms(l.sent, l.b.id) + (if matched then [] else [Confirm(l.b.id, seqNo, txid)])
  {
    hide Confirms;
    ConfirmsSnoc(l.sent, Confirm(l.b.id, seqNo, txid), l.b.id);
    StepUnmarked(m, l, EndMarker(seqNo, txid));
    StepWatched(m, l, EndMarker(seqNo, txid));
  }

  /**
   * Over any run that answers the request, the confirmation carries the sequence number asked for if and only if the
   * request was answered at once or the bearer's two sequence numbers agreed when it came.
   */
  lemma {:induction false} ConfirmSeqExact(m: Mode, l: Link, seqNo: u16, txid: u32, es: seq<Event>)
    requires m.Ok() && m.qmap && seqNo != QUERY_SEQ && Unmarked(l.b) && Watched(l.b) && !Waiting(l.b)
    requires forall k :: 0 <= k < |es| ==> Between(es[k])
    ensures var r := Run(m, Step(m, l, EndMarker(seqNo, txid)), es);
      !Waiting(r.b) ==>
        (Confirms(r.sent, l.b.id) == Confirms(l.sent, l.b.id) + [Confirm(l.b.id, seqNo, txid)] <==>
           l.b.lastSeq != seqNo || l.b.grant == 0 || l.b.seqNo == l.b.lastSeq)
  {
    hide Run, Step, Confirms;
    EndMarkerOnce(m, l, seqNo, txid, es);
    var c := Confirms(l.sent, l.b.id);
    var x, y := Confirm(l.b.id, l.b.seqNo, txid), Confirm(l.b.id, seqNo, txid);
    assert (c + [x])[|c|] == x && (c + [y])[|c|] == y;
  }

  /** The two numbers part exactly where the bearer is woken, by powersave or by TX going on, and had seen an update. */
  lemma {:induction false} SeqPartsExact(m: Mode, l: Link, e: Event)
    requires m.Ok() && l.b.seqNo == l.b.lastSeq
    ensures var b := Step(m, l, e).b;
      b.seqNo != b.lastSeq <==>
        && l.b.lastSeq != 0
        && (e.Wake? || (e == TxLink(true) && l.b.txOff && l.b.grant == 0 && !l.b.ratSwitch))
  {
    StepBearer(m, l, e);
    hide Step, Finish, DisableMsg, ThresholdMsg, Mode.GrantPer, NewGrant, Watches, Flying;
    match e {
      case Update(s) =>
        UpdatedSeqs(m, l.b, s);
        hide Updated, Accepts;
      case TxLink(_) =>
      case Send(_) =>
      case Fires =>
      case Callback =>
      case Wake =>
      case EndMarker(_, _) =>
      case Wildcard(_) =>
    }
  }

  lemma UpdatedSeqs(m: Mode, b: Bearer, s: Status)
    requires m.Ok()
    ensures Updated(m, b, s).seqNo == Updated(m, b, s).lastSeq
  {
  }

  /** A run from a new bearer to a wrong confirmation: asked for 7, it confirms 0. */
  lemma {:induction false} WrongConfirmation(queues: seq<bool>)
    ensures var m := Mode(true, 5);
      var es := [Update(Status(100, 7, None, false, false, false, false)), TxLink(false), TxLink(true),
                 EndMarker(7, 9), Send(1)];
      Confirms(Run(m, Link(NewBearer(m, 1, 0), queues, []), es).sent, 1) == [Confirm(1, 0, 9)]
  {
    var m := Mode(true, 5);
    var s := Status(100, 7, None, false, false, false, false);
    var l := Link(NewBearer(m, 1, 0), queues, []);
    RunFive(m, l, Update(s), TxLink(false), TxLink(true), EndMarker(7, 9), Send(1));
    hide Run, SetQueue, Confirms;
    var l1 := Step(m, l, Update(s));
    assert l1.sent == [] && l1.b.grant == 100 && l1.b.lastSeq == 7 && !l1.b.ackReq && !l1.b.txOff;
    var l2 := Step(m, l1, TxLink(false));
    assert l2.sent == [] && l2.b.txOff && l2.b.grant == 0 && l2.b.lastSeq == 7 && !l2.b.ratSwitch;
    var l3 := Step(m, l2, TxLink(true));
    assert l3.sent == [] && l3.b.grant == 1 && l3.b.thresh == 0 && l3.b.seqNo == 0 && l3.b.lastSeq == 7;
    var l4 := Step(m, l3, EndMarker(7, 9));
    assert l4.sent == [] && l4.b == l3.b.(ackReq := true, ackTxid := 9);
    SendMessages(m, l4, 1);
    var r := Step(m, l4, Send(1));
    var q := [] + [ThresholdMsg(m, l4.b)];
    assert r.sent == q + [Confirm(1, 0, 9)];
    ConfirmsSnoc([], ThresholdMsg(m, l4.b), 1);
    ConfirmsSnoc(q, Confirm(1, 0, 9), 1);
    NoConfirms();
  }

  lemma NoConfirms()
    ensures Confirms([], 1) == []
  {
  }
}
