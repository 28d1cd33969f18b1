/** The handlers on one qos_info as the driver runs them under qos_lock, proved against the steps of the model. */
module QosHandlers {
  import opened Bytes
  import opened AddressLists
  import opened Dfc
  import opened Qos

  lemma {:induction false} FindFlowFrom(flows: seq<Flow>, k: nat, id: u32, ipType: int)
    requires k < |flows|
    ensures SameKey(flows[k], id, ipType) ==> FindFlow(flows[k..], id, ipType) == Some(0)
    ensures !SameKey(flows[k], id, ipType) ==>
      FindFlow(flows[k..], id, ipType)
        == var r := FindFlow(flows[k + 1..], id, ipType); if r.Some? then Some(r.value + 1) else None
  {
    assert flows[k..][1..] == flows[k + 1..];
  }

  /** The fields every accepted update stores. */
  function Stamped(b: Bearer, s: Status, flying: u32, grant: u32, thresh: u32): Bearer {
    b.(inFlight := flying, grant := grant, thresh := thresh, seqNo := s.seqNo, ackReq := s.ackReq, lastSeq := s.seqNo,
       tcpBidir := s.tcpBidir, ratSwitch := if s.ratSwitch then s.num == 0 else b.ratSwitch, queried := false)
  }

  lemma {:induction false} UpdatedIsStamped(m: Mode, b: Bearer, s: Status)
    requires m.Ok()
    ensures var flying, grant := if m.qmap && s.query then Flying(b.inFlight, s) else 0, NewGrant(m, b, s);
      Updated(m, b, s) ==
        if Watches(m, b, s) then Stamped(WatchdogAdd(b), s, flying, grant, grant)
        else Stamped(WatchdogRemove(b), s, flying, grant, m.GrantPer(grant))
  {
    hide NewGrant, Mode.GrantPer, Flying, Watches;
  }

  class QosInfo {
    const m: Mode
    var flows: seq<Flow>
    var order: seq<nat>
    var store: map<nat, Bearer>
    var mq: seq<Option<nat>>
    var queues: seq<bool>
    var sent: seq<Msg>
    var removed: Option<nat>
    var next: nat

    ghost function View(): Info
      reads this
    {
      Info(flows, order, store, mq, queues, sent, removed, next)
    }

    ghost predicate Valid()
      reads this
    {
      m.Ok() && Binding(View()) && AllInSync(View())
    }

    constructor (m: Mode, numQueues: nat)
      requires m.Ok() && numQueues <= INVALID_MQ
      ensures Valid() && this.m == m && View() == Initial(numQueues)
    {
      this.m := m;
      flows, order, store, sent, removed, next := [], [], map[], [], None, 0;
      mq, queues := seq(MAX_MQ, i => None), seq(numQueues, i => true);
    }

    /** qmi_rmnet_get_flow_map */
    method GetFlowMap(id: u32, ipType: int) returns (r: Option<nat>)
      ensures r == FindFlow(flows, id, ipType)
    {
      var k := 0;
      assert flows[0..] == flows;
      while k < |flows|
        invariant k <= |flows|
        invariant FindFlow(flows, id, ipType) ==
          var t := FindFlow(flows[k..], id, ipType); if t.Some? then Some(t.value + k) else None
      {
        FindFlowFrom(flows, k, id, ipType);
        if SameKey(flows[k], id, ipType) {
          return Some(k);
        }
        k := k + 1;
      }
      r := None;
    }

    /** qmi_rmnet_get_bearer_map */
    method GetBearerMap(id: u8) returns (r: Option<nat>)
      requires forall a :: a in order ==> a in store
      ensures r == FindBearer(order, store, id)
    {
      var k := 0;
      assert order[0..] == order;
      while k < |order|
        invariant k <= |order|
        invariant FindBearer(order, store, id) == FindBearer(order[k..], store, id)
      {
        assert order[k..][1..] == order[k + 1..];
        if store[order[k]].id == id {
          return Some(order[k]);
        }
        k := k + 1;
      }
      r := None;
    }

    /** qmi_rmnet_flow_control */
    method FlowControl(i: nat, on: bool)
      modifies this`queues
      ensures queues == SetQueue(old(queues), i, on)
    {
      if i < |queues| {
        queues := queues[i := on];
      }
    }

    /** dfc_bearer_flow_ctl */
    method BearerFlowCtl(a: nat)
      requires a in store
      modifies this`queues, this`sent
      ensures Link(store[a], queues, sent) == FlowCtl(m, Link(store[a], old(queues), old(sent)))
    {
      var b := store[a];
      var enable := b.grant > 0;
      FlowControl(b.mq, enable);
      if b.ackMq != INVALID_MQ && (enable || !b.tcpBidir) {
        FlowControl(b.ackMq, enable);
      }
      if !enable && b.ackReq {
        sent := sent + [DisableMsg(m, b)];
      }
    }

    /** qmi_rmnet_watchdog_add: mod_timer unless already started. */
    method AddWatchdog(b: Bearer) returns (r: Bearer)
      ensures r == WatchdogAdd(b)
    {
      r := b.(quit := false);
      if b.started {
        return;
      }
      r := r.(started := true, pending := true);
    }

    /** qmi_rmnet_watchdog_remove: del_timer if started. */
    method RemoveWatchdog(b: Bearer) returns (r: Bearer)
      ensures r == WatchdogRemove(b)
    {
      r := b.(quit := true);
      if !b.started {
        return;
      }
      r := r.(pending := false, started := false);
    }

    /** Write a handled bearer back and, where the handler asks for it, run flow control on it. */
    method Commit(a: nat, p: Plan, ghost e: Event)
      requires m.Ok() && a in store && p == PlanOf(m, Link(store[a], queues, sent), e)
      modifies this`store, this`queues, this`sent
      ensures View() == Apply(m, old(View()), a, e)
    {
      hide PlanOf, FlowCtl;
      ghost var l := Link(store[a], queues, sent);
      PlanKeepsQueues(m, l, e);
      store, sent := store[a := p.l.b], p.l.sent;
      if p.act {
        BearerFlowCtl(a);
        FlowCtlBearer(m, p.l);
      }
    }

    /** dfc_qmi_burst_check, once the bearer is found. */
    method BurstBearer(l: Link, len: u32) returns (p: Plan)
      ensures p == SendPlan(m, l, len)
    {
      var inFlight: u32 := (l.b.inFlight + len) % 0x1_0000_0000;
      if l.b.grant == 0 {
        return Plan(l.(b := l.b.(inFlight := inFlight)), false);
      }
      var grant: u32, queried, out := 0, l.b.queried, l.sent;
      if len < l.b.grant {
        grant := l.b.grant - len;
      }
      if l.b.grant > l.b.thresh && grant <= l.b.thresh {
        queried, out := true, out + [ThresholdMsg(m, l.b)];
      }
      p := Plan(Link(l.b.(inFlight := inFlight, grant := grant, queried := queried), l.queues, out), grant == 0);
    }

    /** dfc_adjust_grant */
    method AdjustGrant(inFlight: u32, s: Status) returns (flying: u32, grant: u32)
      ensures flying == Flying(inFlight, s) && grant == Adjusted(inFlight, s)
      ensures s.rx.Some? ==> flying == Max(inFlight - s.rx.value, 0) && grant == Max(s.num - flying, 0)
      ensures s.rx.None? ==> flying == inFlight && grant == s.num
    {
      if s.rx.None? {
        return inFlight, s.num;
      }
      flying, grant := 0, 0;
      if inFlight > s.rx.value {
        flying := inFlight - s.rx.value;
      }
      if s.num > flying {
        grant := s.num - flying;
      }
    }

    /** The credit an accepted update leaves: adjusted for a QMAP query response, taken as it is otherwise. */
    method NewCredit(b: Bearer, s: Status) returns (flying: u32, grant: u32)
      ensures grant == NewGrant(m, b, s)
      ensures flying == if m.qmap && s.query then Flying(b.inFlight, s) else 0
    {
      flying, grant := 0, s.num;
      if m.qmap && s.query {
        flying, grant := AdjustGrant(b.inFlight, s);
      }
    }

    /** The field updates of dfc_update_fc_map. */
    method AcceptUpdate(b: Bearer, s: Status) returns (r: Bearer)
      requires m.Ok()
      ensures r == Updated(m, b, s)
    {
      var flying, grant := NewCredit(b, s);
      UpdatedIsStamped(m, b, s);
      hide NewGrant, Mode.GrantPer, Flying, Updated, WatchdogAdd, WatchdogRemove, Stamped;
      if m.qmap && s.query && grant < s.num / 5 {
        r := AddWatchdog(b);
        r := Stamped(r, s, flying, grant, grant);
      } else {
        r := RemoveWatchdog(b);
        r := Stamped(r, s, flying, grant, m.GrantPer(grant));
      }
    }

    /** dfc_update_fc_map, once the bearer is found. */
    method UpdateBearer(l: Link, s: Status) returns (p: Plan)
      requires m.Ok()
      ensures p == UpdatePlan(m, l, s)
    {
      hide Updated, DisableMsg;
      if !s.ratSwitch && l.b.ratSwitch {
        return Plan(l, false);
      }
      if l.b.txOff && s.num > 0 {
        return Plan(if s.ratSwitch then l.(b := l.b.(ratSwitch := false)) else l, false);
      }
      var b := AcceptUpdate(l.b, s);
      UpdatedGrant(m, l.b, s);
      var action := (l.b.grant == 0 && b.grant > 0) || (l.b.grant > 0 && b.grant == 0);
      var out := l.sent;
      if m.qmap && l.b.ackReq && !s.ackReq && l.b.grant > 0 {
        out := out + [DisableMsg(m, l.b)];
      }
      p := Plan(Link(b, l.queues, out), action);
    }

    /** dfc_update_tx_link_status, once the bearer is found. */
    method TxLinkBearer(l: Link, on: bool) returns (p: Plan)
      requires m.Ok()
      ensures p == TxLinkPlan(m, l, on)
    {
      if l.b.txOff == !on {
        return Plan(l, false);
      }
      var b, act := l.b, false;
      if b.grant > 0 && !on {
        b := RemoveWatchdog(b);
        b, act := b.(grant := 0, tcpBidir := false, inFlight := 0), true;
      } else if b.grant == 0 && on && !b.ratSwitch {
        b := b.(grant := DEFAULT_GRANT, thresh := m.GrantPer(DEFAULT_GRANT), seqNo := 0, ackReq := false);
        act := true;
      }
      p := Plan(l.(b := b.(txOff := !on)), act);
    }

    /** qmi_rmnet_watchdog_fn, on the bearer of the timer. */
    method WatchdogBearer(l: Link) returns (p: Plan)
      requires m.Ok() && l.b.running > 0
      ensures p == CallbackPlan(m, l)
    {
      hide Mode.GrantPer;
      var b := l.b.(running := l.b.running - 1, started := false);
      if b.quit {
        return Plan(l.(b := b), false);
      }
      var grant: u32 := b.grant;
      if grant == 0 {
        grant := DEFAULT_CALL_GRANT;
      }
      p := Plan(l.(b := b.(inFlight := 0, grant := grant, thresh := m.GrantPer(grant))), b.grant == 0);
    }

    /** One round of the loop of qmi_rmnet_enable_all_flows. */
    method WakeBearer(l: Link) returns (p: Plan)
      requires m.Ok()
      ensures p == WakePlan(m, l)
    {
      var b := RemoveWatchdog(l.b);
      b := b.(seqNo := 0, ackReq := false, inFlight := 0, tcpBidir := false, ratSwitch := false);
      if b.txOff {
        return Plan(l.(b := b), false);
      }
      var doWake := b.grant == 0;
      p := Plan(l.(b := b.(grant := DEFAULT_GRANT, thresh := m.GrantPer(DEFAULT_GRANT))), doWake);
    }

    /** dfc_qmi_burst_check */
    method BurstCheck(flowId: u32, ipType: int, len: u32)
      requires Valid()
      modifies this`store, this`queues, this`sent
      ensures View() == QosStep(m, old(View()), Burst(flowId, ipType, len)) && Valid()
    {
      hide Binding, AllInSync, Apply;
      ghost var q := View();
      QosStepKeeps(m, q, Burst(flowId, ipType, len));
      assert sent + [] == sent;
      var i := GetFlowMap(flowId, ipType);
      if i.Some? {
        FlowBearer(q, i.value);
        var a := flows[i.value].bearer;
        var p := BurstBearer(Link(store[a], queues, sent), len);
        Commit(a, p, Send(len));
      }
    }

    /** dfc_update_tx_link_status */
    method UpdateTxLink(id: u8, on: bool)
      requires Valid()
      modifies this`store, this`queues, this`sent
      ensures View() == QosStep(m, old(View()), TxStatus(id, on)) && Valid()
    {
      hide Binding, AllInSync, Apply;
      QosStepKeeps(m, View(), TxStatus(id, on));
      Listed(View());
      assert sent + [] == sent;
      var a := GetBearerMap(id);
      if a.Some? {
        var p := TxLinkBearer(Link(store[a.value], queues, sent), on);
        Commit(a.value, p, TxLink(on));
      }
    }

    /** qmi_rmnet_watchdog_fn */
    method WatchdogFn(a: nat)
      requires Valid() && a in store && store[a].running > 0
      modifies this`store, this`queues, this`sent
      ensures View() == QosStep(m, old(View()), WatchdogRuns(a)) && Valid()
    {
      hide Binding, AllInSync, Apply;
      QosStepKeeps(m, View(), WatchdogRuns(a));
      var p := WatchdogBearer(Link(store[a], queues, sent));
      Commit(a, p, Callback);
    }

    /** dfc_qmap_set_end_marker */
    method SetEndMarker(id: u8, seqNo: u16, txid: u32)
      requires Valid()
      modifies this`store, this`queues, this`sent
      ensures View() == QosStep(m, old(View()), Marker(id, seqNo, txid)) && Valid()
    {
      hide Binding, AllInSync, Apply;
      QosStepKeeps(m, View(), Marker(id, seqNo, txid));
      Listed(View());
      var a := GetBearerMap(id);
      if a.None? {
        sent := sent + [Confirm(id, seqNo, txid)];
        return;
      }
      var l := Link(store[a.value], queues, sent);
      if l.b.lastSeq == seqNo && l.b.grant > 0 {
        Commit(a.value, Plan(l.(b := l.b.(ackReq := true, ackTxid := txid)), false), EndMarker(seqNo, txid));
      } else {
        Commit(a.value, Plan(l.(sent := sent + [Confirm(id, seqNo, txid)]), false), EndMarker(seqNo, txid));
      }
    }

    /** qmi_rmnet_enable_all_flows */
    method EnableAllFlows()
      requires Valid()
      modifies this`store, this`queues, this`sent
      ensures View() == QosStep(m, old(View()), WakeAll) && Valid()
    {
      hide Binding, AllInSync, Apply;
      QosStepKeeps(m, View(), WakeAll);
      Listed(View());
      ghost var q := View();
      var k := 0;
      assert order[0..] == order;
      while k < |order|
        invariant k <= |order| && order == q.order && (forall a :: a in order ==> a in store)
        invariant ApplyAll(m, View(), order[k..], Wake) == ApplyAll(m, q, q.order, Wake)
      {
        assert order[k..][1..] == order[k + 1..];
        ApplyKeys(m, View(), order[k], Wake);
        var p := WakeBearer(Link(store[order[k]], queues, sent));
        Commit(order[k], p, Wake);
        k := k + 1;
      }
    }

    /** dfc_all_bearer_flow_ctl */
    method AllBearerFlowCtl(s: Status)
      requires Valid()
      modifies this`store, this`queues, this`sent
      ensures View() == QosStep(m, old(View()), AllStatus(s)) && Valid()
    {
      hide Binding, AllInSync, Apply;
      QosStepKeeps(m, View(), AllStatus(s));
      Listed(View());
      ghost var q := View();
      var k := 0;
      assert order[0..] == order;
      while k < |order|
        invariant k <= |order| && order == q.order && (forall a :: a in order ==> a in store)
        invariant ApplyAll(m, View(), order[k..], Wildcard(s)) == ApplyAll(m, q, q.order, Wildcard(s))
      {
        assert order[k..][1..] == order[k + 1..];
        ApplyKeys(m, View(), order[k], Wildcard(s));
        var l := Link(store[order[k]], queues, sent);
        var b := l.b.(grant := s.num, thresh := m.GrantPer(s.num), seqNo := s.seqNo, ackReq := s.ackReq,
                      tcpBidir := s.tcpBidir, lastSeq := s.seqNo);
        Commit(order[k], Plan(l.(b := b), true), Wildcard(s));
        k := k + 1;
      }
    }

    /** __qmi_rmnet_bearer_get with one new reference, or with none for qmi_rmnet_get_bearer_noref. */
    method BearerGet(id: u8, refs: nat) returns (a: nat)
      requires m.Ok() && forall c :: c in order ==> c in store
      modifies this`store, this`order, this`next
      ensures a == BearerFor(old(View()), id) && View() == GetBearer(m, old(View()), id, refs)
    {
      var r := GetBearerMap(id);
      if r.Some? {
        a := r.value;
        store := store[a := store[a].(flowRef := store[a].flowRef + refs)];
        return;
      }
      a := next;
      store := store[a := NewBearer(m, id, refs)];
      order, next := [a] + order, next + 1;
    }

    /** dfc_update_fc_map */
    method UpdateFcMap(id: u8, s: Status)
      requires Valid()
      modifies this`store, this`order, this`next, this`queues, this`sent
      ensures View() == QosStep(m, old(View()), FlowStatus(id, s)) && Valid()
    {
      hide Binding, AllInSync, Apply, GetBearer, BearerFor;
      QosStepKeeps(m, View(), FlowStatus(id, s));
      Listed(View());
      GetBearerFacts(m, View(), id, 0);
      var a := BearerGet(id, 0);
      var p := UpdateBearer(Link(store[a], queues, sent), s);
      Commit(a, p, Update(s));
    }

    /** dfc_do_burst_flow_control for one entry of this device. */
    method BurstFlowControl(id: u8, s: Status)
      requires Valid()
      modifies this`store, this`order, this`next, this`queues, this`sent
      ensures View() == QosStep(m, old(View()), StatusOp(id, Update(s))) && Valid()
    {
      hide *;
      StatusOpIs(id, s);
      if id == ALL_BEARERS {
        AllBearerFlowCtl(s);
      } else {
        UpdateFcMap(id, s);
      }
    }

    /** dfc_qmap_handle_ind */
    method HandleIndication(id: u8, c: QmapCmd)
      requires Valid()
      modifies this`store, this`order, this`next, this`queues, this`sent
      ensures View() == QosStep(m, old(View()), IndOp(id, c)) && Valid()
    {
      hide Binding, AllInSync, Apply, QosStep, StatusOp;
      if c.txInfo.Some? {
        UpdateTxLink(id, c.txInfo.value);
        return;
      }
      BurstFlowControl(id, Status(c.grant, c.seqNo, c.rx, false, false, c.tcpBidir, false));
    }

    /** dfc_qmap_handle_query_resp */
    method HandleResponse(id: u8, c: QmapCmd)
      requires Valid()
      modifies this`store, this`order, this`next, this`queues, this`sent
      ensures var op := RespOp(id, c);
        View() == if op.Some? then QosStep(m, old(View()), op.value) else old(View())
      ensures Valid()
    {
      hide Binding, AllInSync, Apply, QosStep, StatusOp;
      if c.invalid {
        return;
      }
      BurstFlowControl(id, Status(c.grant, QUERY_SEQ, c.rx, false, false, c.tcpBidir, true));
    }

    /** The slot loop of __qmi_rmnet_bearer_put. */
    method FreeSlots(a: nat, reset: bool)
      modifies this`mq, this`queues
      ensures mq == Disown(old(mq), a)
      ensures queues == if reset then ResetQueues(old(mq), a, old(queues)) else old(queues)
      ensures reset ==>
        forall i :: 0 <= i < |mq| && old(mq)[i] == Some(a) ==>
          (i < |queues| ==> queues[i]) && (i + 15 < |queues| ==> queues[i + 15])
    {
      var i := 0;
      while i < |mq|
        invariant i <= |mq| == |old(mq)| && |queues| == |old(queues)|
        invariant forall k :: 0 <= k < |mq| ==> mq[k] == if k < i then Disown(old(mq), a)[k] else old(mq)[k]
        invariant forall j :: 0 <= j < |queues| ==>
          queues[j] == (old(queues)[j] || (reset && Serves(old(mq)[..i], a, j)))
      {
        if mq[i] == Some(a) {
          mq := mq[i := None];
          if reset {
            FlowControl(i, true);
            FlowControl(i + ACK_OFFSET, true);
          }
        }
        i := i + 1;
      }
      assert old(mq)[..i] == old(mq);
    }

    /** __qmi_rmnet_bearer_put; the last reference unlists the bearer and leaves it to be cleaned. */
    method BearerPut(a: nat, reset: bool)
      requires a in store
      modifies this`store, this`order, this`mq, this`queues, this`removed
      ensures var b := old(store[a]).(flowRef := old(store[a]).flowRef - 1);
        && store == old(store)[a := b]
        && if b.flowRef != 0 then
             order == old(order) && mq == old(mq) && queues == old(queues) && removed == old(removed)
           else
             && order == Unlink(old(order), a) && mq == Disown(old(mq), a) && removed == Some(a)
             && queues == if reset then ResetQueues(old(mq), a, old(queues)) else old(queues)
    {
      store := store[a := store[a].(flowRef := store[a].flowRef - 1)];
      if store[a].flowRef == 0 {
        FreeSlots(a, reset);
        order := Unlink(order, a);
        removed := Some(a);
      }
    }

    /** qmi_rmnet_bearer_clean: stop the watchdog of the removed bearer and free it. */
    method BearerClean()
      modifies this`store, this`removed
      ensures View() == Cleaned(old(View()))
    {
      if removed.Some? {
        store := store - {removed.value};
        removed := None;
      }
    }

    /** __qmi_rmnet_update_mq */
    method UpdateMq(a: nat, slot: nat)
      requires a in store && slot < |mq|
      modifies this`store, this`mq, this`queues
      ensures View() == TakeSlot(old(View()), a, slot)
    {
      if slot == DEFAULT_MQ || mq[slot].Some? {
        return;
      }
      mq := mq[slot := Some(a)];
      var b := store[a].(mq := slot, ackMq := slot + ACK_OFFSET);
      store := store[a := b];
      FlowControl(slot, b.grant > 0);
      FlowControl(b.ackMq, b.grant > 0);
    }

    /** Put the bearer of flow i, as if the flow were gone already. */
    method PutFlowBearer(i: nat, reset: bool)
      requires Valid() && i < |flows|
      modifies this`store, this`order, this`mq, this`queues, this`removed
      ensures Leftover(View()) && old(flows)[i].bearer in old(store)
      ensures Cleaned(View().(flows := Without(flows, i))) == DropFlow(old(View()), i, reset)
    {
      ghost var q := View();
      RebindStart(q, i);
      hide *;
      BearerPut(flows[i].bearer, reset);
      PutLeftover(q, View(), i);
      PutIsDrop(q, View().(flows := Without(flows, i)), i, reset);
    }

    /** qmi_rmnet_del_flow */
    method DelFlow(flowId: u32, ipType: int)
      requires Valid()
      modifies this
      ensures View() == DelStep(old(View()), flowId, ipType) && Valid()
    {
      hide Binding, AllInSync, DropFlow;
      ghost var q := View();
      DelKeeps(q, flowId, ipType);
      Settled(q);
      var i := GetFlowMap(flowId, ipType);
      if i.Some? {
        PutFlowBearer(i.value, true);
        flows := Without(flows, i.value);
        FlowBearer(q, i.value);
        DropFlowFlows(q, i.value, true);
      }
      if flows == [] {
        queues := seq(|queues|, j => true);
      }
      BearerClean();
    }

    /** __qmi_rmnet_rebind_flow */
    method RebindFlow(i: nat, f: Flow)
      requires Valid() && i < |flows| && f.mq < MAX_MQ
      modifies this
      ensures var q := old(View());
        && q.flows[i].bearer in q.store && Binding(DropFlow(q, i, false))
        && Cleaned(View()) == InsertFlow(m, DropFlow(q, i, false), i, f)
    {
      RebindStart(View(), i);
      hide *;
      PutFlowBearer(i, false);
      ghost var v := View();
      LeftoverListed(v);
      var a := BearerGet(f.bearerId, 1);
      BearerForLive(m, v, f.bearerId);
      flows := flows[i := f.(bearer := a)];
      UpdateMq(a, f.mq);
      RebindCommutes(m, v, i, f);
    }

    /** The creating half of qmi_rmnet_add_flow. */
    method CreateFlow(f: Flow)
      requires m.Ok() && f.mq < |mq| && removed.None? && forall c :: c in order ==> c in store
      modifies this
      ensures View() == InsertFlow(m, old(View()), 0, f)
    {
      ghost var q := View();
      flows := [f] + flows;
      var a := BearerGet(f.bearerId, 1);
      flows := flows[0 := f.(bearer := a)];
      assert flows == With(q.flows, 0, f.(bearer := a));
      CreateIsInsert(m, q, q.(flows := [f] + q.flows), f);
      hide *;
      UpdateMq(a, f.mq);
    }

    /** qmi_rmnet_add_flow; a flow whose queue changes is deleted first, then added anew. */
    method AddFlow(bearerId: u8, flowId: u32, ipType: int, slot: nat)
      requires Valid()
      modifies this
      ensures View() == AddStep(m, old(View()), bearerId, flowId, ipType, slot) && Valid()
    {
      hide Binding, AllInSync, DropFlow, InsertFlow, DelStep;
      if slot >= MAX_MQ {
        return;
      }
      ghost var q := View();
      var f := Flow(flowId, ipType, bearerId, slot, 0);
      while true
        invariant Valid()
        invariant AddStep(m, View(), bearerId, flowId, ipType, slot) == AddStep(m, q, bearerId, flowId, ipType, slot)
        decreases if FindFlow(flows, flowId, ipType).Some? then 1 else 0
      {
        AddKeeps(m, View(), bearerId, flowId, ipType, slot);
        Settled(View());
        Listed(View());
        var i := GetFlowMap(flowId, ipType);
        if i.None? {
          CreateFlow(f);
          return;
        }
        if flows[i.value].bearerId != bearerId {
          RebindFlow(i.value, f);
          BearerClean();
          return;
        }
        if flows[i.value].mq == slot {
          return;
        }
        DelKeeps(View(), flowId, ipType);
        DelFlow(flowId, ipType);
      }
    }
  }

  lemma {:induction false} RebindStart(q: Info, i: nat)
    requires Binding(q) && AllInSync(q) && i < |q.flows|
    ensures q.flows[i].bearer in q.store && q.removed.None? && |q.mq| == MAX_MQ
    ensures Binding(DropFlow(q, i, false)) && AllInSync(DropFlow(q, i, false))
    ensures forall a :: a in DropFlow(q, i, false).order ==> a in DropFlow(q, i, false).store
    ensures |DropFlow(q, i, false).mq| == MAX_MQ && |DropFlow(q, i, false).flows| == |q.flows| - 1
    ensures |Disown(q.mq, q.flows[i].bearer)| == MAX_MQ
  {
    DropFlowKeeps(q, i, false);
    DropFlowFlows(q, i, false);
    hide DropFlow;
  }

  lemma CreateIsInsert(m: Mode, q: Info, v: Info, f: Flow)
    requires m.Ok() && f.mq < |q.mq| && (forall c :: c in q.order ==> c in q.store) && v == q.(flows := [f] + q.flows)
    ensures var a := BearerFor(v, f.bearerId);
      && a == BearerFor(q, f.bearerId) && a in GetBearer(m, v, f.bearerId, 1).store
      && GetBearer(m, v, f.bearerId, 1).(flows := With(q.flows, 0, f.(bearer := a))) == Inserted(m, q, 0, f)
      && TakeSlot(Inserted(m, q, 0, f), a, f.mq) == InsertFlow(m, q, 0, f)
  {
  }

  /** At most one bearer waits to be freed, and no list names it. */
  ghost predicate Leftover(v: Info) {
    && (forall c :: c in v.order ==> c in v.store && c < v.next)
    && (v.removed.Some? ==> v.removed.value in v.store && v.removed.value !in v.order && v.removed.value < v.next)
    && |v.mq| == MAX_MQ
  }

  lemma PutLeftover(q: Info, v: Info, i: nat)
    requires Binding(q) && i < |q.flows| && q.flows[i].bearer in q.store
    requires v.next == q.next && v.store.Keys == q.store.Keys && |v.mq| == |q.mq|
    requires var a := q.flows[i].bearer;
      (v.order == q.order && v.removed.None?) || (v.order == Unlink(q.order, a) && v.removed == Some(a))
    ensures Leftover(v)
  {
  }

  lemma LeftoverListed(v: Info)
    requires Leftover(v)
    ensures |v.mq| == MAX_MQ && forall c :: c in v.order ==> c in v.store
  {
  }

  lemma {:induction false} FindSame(order: seq<nat>, s: map<nat, Bearer>, t: map<nat, Bearer>, id: u8)
    requires forall a :: a in order ==> a in s && a in t && s[a] == t[a]
    ensures FindBearer(order, s, id) == FindBearer(order, t, id)
  {
    if order != [] {
      FindSame(order[1..], s, t, id);
    }
  }

  lemma BearerForLive(m: Mode, v: Info, id: u8)
    requires m.Ok() && Leftover(v)
    ensures var a := BearerFor(v, id);
      a in GetBearer(m, v, id, 1).store && (v.removed.Some? ==> a != v.removed.value)
  {
  }

  lemma {:induction false} GetCommutes(m: Mode, v: Info, id: u8)
    requires m.Ok() && Leftover(v)
    ensures Leftover(Cleaned(v)) && BearerFor(Cleaned(v), id) == BearerFor(v, id)
    ensures Cleaned(GetBearer(m, v, id, 1)) == GetBearer(m, Cleaned(v), id, 1)
  {
    FindSame(v.order, v.store, Cleaned(v).store, id);
    BearerForLive(m, v, id);
    if v.removed.Some? {
      var a, x := BearerFor(v, id), v.removed.value;
      var b := GetBearer(m, v, id, 1).store[a];
      assert v.store[a := b] - {x} == (v.store - {x})[a := b];
    }
  }

  lemma {:induction false} TakeCommutes(v: Info, a: nat, slot: nat)
    requires a in v.store && (v.removed.Some? ==> a != v.removed.value) && slot < |v.mq|
    ensures a in Cleaned(v).store && Cleaned(TakeSlot(v, a, slot)) == TakeSlot(Cleaned(v), a, slot)
  {
    if v.removed.Some? {
      var x, b := v.removed.value, v.store[a].(mq := slot, ackMq := slot + ACK_OFFSET);
      assert v.store[a := b] - {x} == (v.store - {x})[a := b];
    }
  }

  /** Rebinding in the driver's order is dropping the flow and inserting it anew at its place. */
  lemma {:induction false} RebindCommutes(m: Mode, v: Info, i: nat, f: Flow)
    requires m.Ok() && Leftover(v) && i < |v.flows| && f.mq < MAX_MQ
    ensures var a := BearerFor(v, f.bearerId);
      var w := Cleaned(v.(flows := Without(v.flows, i)));
      && (forall c :: c in w.order ==> c in w.store)
      && a in GetBearer(m, v, f.bearerId, 1).store
      && Cleaned(TakeSlot(GetBearer(m, v, f.bearerId, 1).(flows := v.flows[i := f.(bearer := a)]), a, f.mq))
         == InsertFlow(m, w, i, f)
  {
    var id := f.bearerId;
    var u := v.(flows := Without(v.flows, i));
    var a, w := BearerFor(v, id), Cleaned(u);
    assert v.flows[i := f.(bearer := a)] == With(Without(v.flows, i), i, f.(bearer := a));
    GetCommutes(m, u, id);
    BearerForLive(m, v, id);
    hide With, Without, FindBearer;
    var g := GetBearer(m, v, id, 1).(flows := v.flows[i := f.(bearer := a)]);
    assert Cleaned(g) == Inserted(m, w, i, f);
    hide GetBearer, Inserted;
    TakeCommutes(g, a, f.mq);
  }

  /** The state once the removed bearer is freed. */
  function Cleaned(q: Info): Info {
    if q.removed.Some? then q.(store := q.store - {q.removed.value}, removed := None) else q
  }

  lemma Settled(q: Info)
    requires Binding(q)
    ensures q.removed.None? && Cleaned(q) == q && |q.mq| == MAX_MQ
  {
  }

  /** Putting the bearer and unlisting the flow is DropFlow, up to the clean-up. */
  lemma {:induction false} PutIsDrop(q: Info, v: Info, i: nat, reset: bool)
    requires q.removed.None? && i < |q.flows| && q.flows[i].bearer in q.store && v.flows == Without(q.flows, i)
    requires v.sent == q.sent && v.next == q.next
    requires var a := q.flows[i].bearer;
      var b := q.store[a].(flowRef := q.store[a].flowRef - 1);
      && v.store == q.store[a := b]
      && if b.flowRef != 0 then
           v.order == q.order && v.mq == q.mq && v.queues == q.queues && v.removed == q.removed
         else
           && v.order == Unlink(q.order, a) && v.mq == Disown(q.mq, a) && v.removed == Some(a)
           && v.queues == if reset then ResetQueues(q.mq, a, q.queues) else q.queues
    ensures Cleaned(v) == DropFlow(q, i, reset)
  {
    hide Disown, ResetQueues, Unlink, Without;
    var a := q.flows[i].bearer;
    assert q.store[a := q.store[a].(flowRef := q.store[a].flowRef - 1)] - {a} == q.store - {a};
  }

  lemma UpdatedGrant(m: Mode, b: Bearer, s: Status)
    requires m.Ok()
    ensures Updated(m, b, s).grant == NewGrant(m, b, s)
  {
  }

  lemma StatusOpIs(id: u8, s: Status)
    ensures StatusOp(id, Update(s)) == if id == ALL_BEARERS then AllStatus(s) else FlowStatus(id, s)
  {
  }

  lemma {:induction false} ApplyKeys(m: Mode, q: Info, a: nat, e: Event)
    requires m.Ok() && a in q.store
    ensures Apply(m, q, a, e).store.Keys == q.store.Keys && Apply(m, q, a, e).order == q.order
  {
    hide Step;
  }

  lemma {:induction false} PlanKeepsQueues(m: Mode, l: Link, e: Event)
    requires m.Ok()
    ensures PlanOf(m, l, e).l.queues == l.queues
  {
    hide PlanOf;
    PlanQuiet(m, l, e);
  }

  lemma FlowCtlBearer(m: Mode, l: Link)
    ensures FlowCtl(m, l).b == l.b
  {
  }
}
