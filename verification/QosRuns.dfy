/** The single-bearer results over runs of a whole qos_info: gating, watchdogs, no silent stall, the end marker. */
module QosRuns {
  import opened Bytes
  import opened AddressLists
  import opened Dfc
  import opened Qos

  /** What a run is held to besides gates and watchdogs: end-marker discipline in QMAP mode, and no silent stall. */
  datatype Scope = Scope(marks: bool, feeding: bool) {
    predicate Ok(m: Mode) { (marks ==> m.qmap) && (feeding ==> m.scale >= 2) }
  }

  predicate Fine(m: Mode, sc: Scope, b: Bearer) {
    Gated(m, b) && Watched(b) && (sc.marks ==> Unmarked(b)) && (sc.feeding ==> Alert(b))
  }

  predicate Healthy(m: Mode, sc: Scope, store: map<nat, Bearer>) {
    forall a :: a in store ==> Fine(m, sc, store[a])
  }

  /** Events that fit the scope; never a wildcard update. */
  predicate Suits(sc: Scope, e: Event) {
    !e.Wildcard? && (sc.marks ==> FromQmap(e)) && (sc.feeding ==> Feeding(e))
  }

  predicate OpSuits(sc: Scope, op: Op) {
    match op
    case Burst(_, _, _) => true
    case FlowStatus(_, s) => Suits(sc, Update(s))
    case AllStatus(_) => false
    case TxStatus(_, on) => Suits(sc, TxLink(on))
    case TimerFires(_) => true
    case WatchdogRuns(_) => true
    case WakeAll => Suits(sc, Wake)
    case Marker(_, seqNo, txid) => Suits(sc, EndMarker(seqNo, txid))
    case AddFlow(_, _, _, _) => true
    case DelFlow(_, _) => true
  }

  lemma {:induction false} TargetSuits(q: Info, sc: Scope, op: Op)
    requires Binding(q) && OpSuits(sc, op) && Target(q, op).Some?
    ensures Suits(sc, Target(q, op).value.1)
  {
    hide Binding, FindFlow, FindBearer;
  }

  lemma {:induction false} StepFine(m: Mode, sc: Scope, l: Link, e: Event)
    requires m.Ok() && sc.Ok(m) && Fine(m, sc, l.b) && Suits(sc, e)
    ensures Fine(m, sc, Step(m, l, e).b)
  {
    hide Step, Gated, Watched, Unmarked, Alert;
    StepGates(m, l, e);
    StepWatched(m, l, e);
    if sc.marks {
      StepUnmarked(m, l, e);
    }
    if sc.feeding {
      StepAlert(m, l, e);
    }
  }

  lemma {:induction false} NewFine(m: Mode, sc: Scope, id: u8, refs: int)
    requires m.Ok() && sc.Ok(m)
    ensures Fine(m, sc, NewBearer(m, id, refs))
  {
    if m.scale >= 2 {
      NewBearerAlert(m, id, refs);
    }
    hide Mode.GrantPer;
  }

  /** Binding fields do not matter to flow control. */
  predicate SameCredit(b: Bearer, c: Bearer) { c == b.(flowRef := c.flowRef, mq := c.mq, ackMq := c.ackMq) }

  lemma {:induction false} HealthyRebound(m: Mode, sc: Scope, s: map<nat, Bearer>, t: map<nat, Bearer>)
    requires m.Ok() && sc.Ok(m) && Healthy(m, sc, s)
    requires forall a :: a in t ==> (a in s && SameCredit(s[a], t[a])) || (exists id, n :: t[a] == NewBearer(m, id, n))
    ensures Healthy(m, sc, t)
  {
    hide NewBearer;
    forall a | a in t
      ensures Fine(m, sc, t[a])
    {
      if !(a in s && SameCredit(s[a], t[a])) {
        var id, n :| t[a] == NewBearer(m, id, n);
        NewFine(m, sc, id, n);
      }
    }
  }

  lemma {:induction false} DropHealthy(m: Mode, sc: Scope, q: Info, i: nat, reset: bool)
    requires m.Ok() && sc.Ok(m) && Healthy(m, sc, q.store) && i < |q.flows| && q.flows[i].bearer in q.store
    ensures Healthy(m, sc, DropFlow(q, i, reset).store)
  {
    hide Healthy, NewBearer, Disown, ResetQueues, Without, Unlink;
    HealthyRebound(m, sc, q.store, DropFlow(q, i, reset).store);
  }

  lemma {:induction false} GetHealthy(m: Mode, sc: Scope, q: Info, id: u8, refs: nat)
    requires m.Ok() && sc.Ok(m) && Healthy(m, sc, q.store) && forall a :: a in q.order ==> a in q.store
    ensures Healthy(m, sc, GetBearer(m, q, id, refs).store)
  {
    hide Healthy, NewBearer;
    var p := GetBearer(m, q, id, refs);
    forall a | a in p.store
      ensures || (a in q.store && SameCredit(q.store[a], p.store[a]))
              || (exists id, n :: p.store[a] == NewBearer(m, id, n))
    {
      if a == q.next && FindBearer(q.order, q.store, id).None? {
        assert p.store[a] == NewBearer(m, id, refs);
      }
    }
    HealthyRebound(m, sc, q.store, p.store);
  }

  lemma {:induction false} TakeHealthy(m: Mode, sc: Scope, q: Info, a: nat, slot: nat)
    requires m.Ok() && sc.Ok(m) && Healthy(m, sc, q.store) && a in q.store && slot < |q.mq|
    ensures Healthy(m, sc, TakeSlot(q, a, slot).store)
  {
    hide Healthy, NewBearer, SetQueue;
    HealthyRebound(m, sc, q.store, TakeSlot(q, a, slot).store);
  }

  lemma {:induction false} InsertHealthy(m: Mode, sc: Scope, q: Info, i: nat, f: Flow)
    requires m.Ok() && sc.Ok(m) && Binding(q) && Healthy(m, sc, q.store) && i <= |q.flows| && f.mq < |q.mq|
    ensures Healthy(m, sc, InsertFlow(m, q, i, f).store)
  {
    GetBearerFacts(m, q, f.bearerId, 1);
    hide Healthy, GetBearer, BearerFor, With, TakeSlot;
    GetHealthy(m, sc, q, f.bearerId, 1);
    TakeHealthy(m, sc, Inserted(m, q, i, f), BearerFor(q, f.bearerId), f.mq);
  }

  lemma {:induction false} ApplyHealthy(m: Mode, sc: Scope, q: Info, a: nat, e: Event)
    requires m.Ok() && sc.Ok(m) && Healthy(m, sc, q.store) && a in q.store && Suits(sc, e)
    ensures Healthy(m, sc, Apply(m, q, a, e).store)
  {
    hide Step, Fine;
    StepFine(m, sc, Link(q.store[a], q.queues, q.sent), e);
  }

  lemma {:induction false} ApplyAllHealthy(m: Mode, sc: Scope, q: Info, list: seq<nat>, e: Event)
    requires m.Ok() && sc.Ok(m) && Healthy(m, sc, q.store) && Suits(sc, e) && forall a :: a in list ==> a in q.store
    ensures Healthy(m, sc, ApplyAll(m, q, list, e).store)
    decreases |list|
  {
    hide Step, Healthy;
    if list != [] {
      ApplyHealthy(m, sc, q, list[0], e);
      ApplyAllHealthy(m, sc, Apply(m, q, list[0], e), list[1..], e);
    }
  }

  lemma {:induction false} DelHealthy(m: Mode, sc: Scope, q: Info, flowId: u32, ipType: int)
    requires m.Ok() && sc.Ok(m) && Binding(q) && Healthy(m, sc, q.store)
    ensures Healthy(m, sc, DelStep(q, flowId, ipType).store)
  {
    hide Healthy, DropFlow;
    var i := FindFlow(q.flows, flowId, ipType);
    if i.Some? {
      assert FlowOk(q, q.flows[i.value]);
      DropHealthy(m, sc, q, i.value, true);
    }
  }

  lemma {:induction false} AddHealthy(m: Mode, sc: Scope, q: Info, bearerId: u8, flowId: u32, ipType: int, mq: nat)
    requires m.Ok() && sc.Ok(m) && Binding(q) && AllInSync(q) && Healthy(m, sc, q.store)
    ensures Healthy(m, sc, AddStep(m, q, bearerId, flowId, ipType, mq).store)
  {
    hide AllInSync, Healthy, DropFlow, InsertFlow, DelStep;
    var f := Flow(flowId, ipType, bearerId, mq, 0);
    var i := FindFlow(q.flows, flowId, ipType);
    if mq >= MAX_MQ {
    } else if i.None? {
      InsertHealthy(m, sc, q, 0, f);
    } else if q.flows[i.value].bearerId != bearerId {
      DropFlowKeeps(q, i.value, false);
      DropFlowFlows(q, i.value, false);
      DropHealthy(m, sc, q, i.value, false);
      InsertHealthy(m, sc, DropFlow(q, i.value, false), i.value, f);
    } else if q.flows[i.value].mq != mq {
      DelKeeps(q, flowId, ipType);
      DelHealthy(m, sc, q, flowId, ipType);
      InsertHealthy(m, sc, DelStep(q, flowId, ipType), 0, f);
    }
  }

  /** Every operation that fits the scope keeps every bearer fine. */
  lemma {:induction false} QosStepHealthy(m: Mode, sc: Scope, q: Info, op: Op)
    requires m.Ok() && sc.Ok(m) && Binding(q) && AllInSync(q) && Healthy(m, sc, q.store) && OpSuits(sc, op)
    ensures Healthy(m, sc, QosStep(m, q, op).store)
  {
    Listed(q);
    hide AllInSync, Healthy, Apply, ApplyAll, AddStep, DelStep, GetBearer, BearerFor, Target;
    match op {
      case FlowStatus(id, s) =>
        GetBearerFacts(m, q, id, 0);
        GetHealthy(m, sc, q, id, 0);
        ApplyHealthy(m, sc, GetBearer(m, q, id, 0), BearerFor(q, id), Update(s));
      case AllStatus(_) =>
      case WakeAll => ApplyAllHealthy(m, sc, q, q.order, Wake);
      case AddFlow(bearerId, flowId, ipType, mq) => AddHealthy(m, sc, q, bearerId, flowId, ipType, mq);
      case DelFlow(flowId, ipType) => DelHealthy(m, sc, q, flowId, ipType);
      case _ =>
        var t := Target(q, op);
        if t.Some? {
          TargetSuits(q, sc, op);
          ApplyHealthy(m, sc, q, t.value.0, t.value.1);
        }
    }
  }

  /**
   * In every state of every run in scope each bearer is held by its gates and every started watchdog is on its way;
   * with end-marker discipline a live watchdog rules out a waiting marker, and fed bearers never stall silently.
   */
  lemma {:induction false} ReachableHealthy(m: Mode, sc: Scope, q: Info, ops: seq<Op>, r: Info)
    requires m.Ok() && sc.Ok(m) && Binding(q) && AllInSync(q) && Healthy(m, sc, q.store) && Reaches(m, q, ops, r)
    requires forall k :: 0 <= k < |ops| ==> OpSuits(sc, ops[k])
    ensures Healthy(m, sc, r.store)
    decreases |ops|
  {
    hide Binding, AllInSync, QosStep, Healthy, OpSuits;
    if ops != [] {
      QosStepKeeps(m, q, ops[0]);
      QosStepHealthy(m, sc, q, ops[0]);
      assert forall k :: 0 <= k < |ops[1..]| ==> ops[1..][k] == ops[k + 1];
      ReachableHealthy(m, sc, QosStep(m, q, ops[0]), ops[1..], r);
    }
  }

  // The end marker among other bearers

  /** Operations that may run while an end marker of bearer `id` waits. */
  predicate Meanwhile(id: u8, op: Op) {
    match op
    case FlowStatus(_, s) => FromQmap(Update(s))
    case AllStatus(_) => false
    case WakeAll => false
    case Marker(other, seqNo, _) => other != id && seqNo != QUERY_SEQ
    case _ => true
  }

  /** Seen from the bearer at a, an operation is one of its own steps, or changes nothing but its binding. */
  ghost predicate Seen(m: Mode, q: Info, p: Info, a: nat)
    requires m.Ok() && a in q.store && a in p.store
  {
    || (SameCredit(q.store[a], p.store[a]) && Confirms(p.sent, q.store[a].id) == Confirms(q.sent, q.store[a].id))
    || (exists e :: Between(e)
          && p.store[a] == Step(m, Link(q.store[a], q.queues, q.sent), e).b
          && p.sent == Step(m, Link(q.store[a], q.queues, q.sent), e).sent)
  }

  lemma {:induction false} ApplySeen(m: Mode, q: Info, a: nat, b: nat, e: Event)
    requires m.Ok() && IdsUnique(q) && a in q.store && b in q.store && (a == b ==> Between(e))
    ensures a in Apply(m, q, b, e).store && Seen(m, q, Apply(m, q, b, e), a)
  {
    hide Step, Confirms, Between;
    if a != b {
      var l := Link(q.store[b], q.queues, q.sent);
      StepMessages(m, l, e);
      OthersConfirmNothing(q.sent, Step(m, l, e).sent, l.b.id, q.store[a].id);
    }
  }

  /** Operations on flows send nothing and keep the credit of every bearer that survives. */
  predicate Silent(q: Info, p: Info) {
    p.sent == q.sent && forall a :: a in q.store && a in p.store ==> SameCredit(q.store[a], p.store[a])
  }

  lemma {:induction false} DropSilent(q: Info, i: nat, reset: bool)
    requires i < |q.flows| && q.flows[i].bearer in q.store
    ensures var p := DropFlow(q, i, reset);
      Silent(q, p) && p.next == q.next && forall a :: a in p.store ==> a in q.store
  {
    hide Disown, ResetQueues, Without, Unlink;
  }

  lemma {:induction false} InsertSilent(m: Mode, q: Info, i: nat, f: Flow)
    requires m.Ok() && Binding(q) && i <= |q.flows| && f.mq < |q.mq|
    ensures var p := InsertFlow(m, q, i, f);
      Silent(q, p) && forall a :: a in p.store ==> a in q.store || a == q.next
  {
    GetSilent(m, q, i, f);
    var p := Inserted(m, q, i, f);
    TakeSilent(p, BearerFor(q, f.bearerId), f.mq);
    SilentSame(q, p, InsertFlow(m, q, i, f));
    hide Binding, Inserted, BearerFor, TakeSlot, Silent;
  }

  lemma SilentSame(q: Info, p: Info, r: Info)
    requires Silent(q, p) && Silent(p, r) && r.store.Keys == p.store.Keys
    ensures Silent(q, r)
  {
  }

  lemma {:induction false} GetSilent(m: Mode, q: Info, i: nat, f: Flow)
    requires m.Ok() && Binding(q) && i <= |q.flows| && f.mq < |q.mq|
    ensures var p := Inserted(m, q, i, f);
      && Silent(q, p) && BearerFor(q, f.bearerId) in p.store && |p.mq| == |q.mq|
      && forall a :: a in p.store ==> a in q.store || a == q.next
  {
    assert forall a :: a in q.store ==> a < q.next;
    hide NewBearer, With, OwnersOk, BoundOk, RefsOk, FlowsOk;
  }

  lemma {:induction false} TakeSilent(q: Info, a: nat, slot: nat)
    requires a in q.store && slot < |q.mq|
    ensures var p := TakeSlot(q, a, slot); Silent(q, p) && p.store.Keys == q.store.Keys
  {
    hide SetQueue;
  }

  lemma {:induction false} SilentChain(q: Info, p: Info, r: Info)
    requires Silent(q, p) && Silent(p, r) && (forall a :: a in p.store ==> a in q.store)
    requires forall a :: a in r.store ==> a in p.store || a !in q.store
    ensures Silent(q, r)
  {
  }

  lemma {:induction false} DelSilent(q: Info, flowId: u32, ipType: int)
    requires Binding(q)
    ensures var p := DelStep(q, flowId, ipType);
      Silent(q, p) && p.next == q.next && forall a :: a in p.store ==> a in q.store
  {
    hide DropFlow;
    var i := FindFlow(q.flows, flowId, ipType);
    if i.Some? {
      FlowBearer(q, i.value);
      DropSilent(q, i.value, true);
    }
  }

  lemma {:induction false} AddSilent(m: Mode, q: Info, bearerId: u8, flowId: u32, ipType: int, mq: nat)
    requires m.Ok() && Binding(q) && AllInSync(q)
    ensures Silent(q, AddStep(m, q, bearerId, flowId, ipType, mq))
  {
    assert forall a :: a in q.store ==> a < q.next;
    hide AllInSync, DropFlow, InsertFlow, DelStep;
    var f := Flow(flowId, ipType, bearerId, mq, 0);
    var i := FindFlow(q.flows, flowId, ipType);
    if mq >= MAX_MQ {
    } else if i.None? {
      InsertSilent(m, q, 0, f);
    } else if q.flows[i.value].bearerId != bearerId {
      DropFlowKeeps(q, i.value, false);
      DropFlowFlows(q, i.value, false);
      DropSilent(q, i.value, false);
      var p := DropFlow(q, i.value, false);
      InsertSilent(m, p, i.value, f);
      SilentChain(q, p, InsertFlow(m, p, i.value, f));
    } else if q.flows[i.value].mq != mq {
      DelKeeps(q, flowId, ipType);
      DelSilent(q, flowId, ipType);
      var p := DelStep(q, flowId, ipType);
      InsertSilent(m, p, 0, f);
      SilentChain(q, p, InsertFlow(m, p, 0, f));
    }
  }

  lemma {:induction false} StatusSeen(m: Mode, q: Info, id: u8, s: Status, a: nat)
    requires m.Ok() && Binding(q) && a in q.store && FromQmap(Update(s))
    ensures a in StatusStep(m, q, id, s).store && Seen(m, q, StatusStep(m, q, id, s), a)
  {
    hide FromQmap, Confirms, Step;
    GetBearerFacts(m, q, id, 0);
    GetBearerFrame(m, q, id);
    var p := GetBearer(m, q, id, 0);
    hide GetBearer, BearerFor, Binding;
    ApplySeen(m, p, a, BearerFor(q, id), Update(s));
  }

  /** An operation meanwhile, as the bearer at a sees it. */
  lemma {:induction false} OpSeen(m: Mode, q: Info, op: Op, a: nat)
    requires m.Ok() && Binding(q) && AllInSync(q) && a in q.store && Meanwhile(q.store[a].id, op)
    requires a in QosStep(m, q, op).store
    ensures Seen(m, q, QosStep(m, q, op), a)
  {
    Listed(q);
    hide AllInSync, Apply, AddStep, DelStep, StatusStep, Confirms, Step;
    match op {
      case FlowStatus(id, s) => StatusSeen(m, q, id, s, a);
      case AllStatus(_) =>
      case WakeAll =>
      case AddFlow(bearerId, flowId, ipType, mq) => AddSilent(m, q, bearerId, flowId, ipType, mq);
      case DelFlow(flowId, ipType) => DelSilent(q, flowId, ipType);
      case _ =>
        var t := Target(q, op);
        if t.Some? {
          ApplySeen(m, q, a, t.value.0, t.value.1);
        } else {
          AnswerConfirmsNothing(q.sent, op, q.store[a].id);
        }
    }
  }

  lemma {:induction false} AnswerConfirmsNothing(sent: seq<Msg>, op: Op, id: u8)
    requires Meanwhile(id, op)
    ensures Confirms(sent + Answer(op), id) == Confirms(sent, id)
  {
    if op.Marker? {
      ConfirmsSnoc(sent, Confirm(op.id, op.seqNo, op.txid), id);
    } else {
      assert sent + [] == sent;
    }
  }

  /** A request: the bearer as it was, what it had confirmed before, whether the request waits, and its confirmation. */
  datatype Request = Request(b: Bearer, before: seq<Msg>, matched: bool, txid: u32, answer: Msg) {
    /** The bearer as it is now, and the messages sent: answered once, or still waiting. */
    predicate Stands(now: Bearer, sent: seq<Msg>) {
      && now.id == b.id && Unmarked(now) && Watched(now)
      && (matched ==> answer == Confirm(b.id, b.seqNo, txid))
      && (Waiting(now) ==> matched && now.seqNo == b.seqNo && now.ackTxid == txid)
      && Confirms(sent, b.id) == before + (if Waiting(now) then [] else [answer])
    }
  }

  lemma {:induction false} SeenStands(m: Mode, q: Info, p: Info, a: nat, req: Request)
    requires m.Ok() && m.qmap && a in q.store && a in p.store && Seen(m, q, p, a)
    requires req.Stands(q.store[a], q.sent)
    ensures req.Stands(p.store[a], p.sent) && (Waiting(p.store[a]) ==> Waiting(q.store[a]))
  {
    hide Step, Confirms, Between;
    var b := q.store[a];
    var l := Link(b, q.queues, q.sent);
    if !(SameCredit(b, p.store[a]) && Confirms(p.sent, b.id) == Confirms(q.sent, b.id)) {
      var e :| Between(e) && p.store[a] == Step(m, l, e).b && p.sent == Step(m, l, e).sent;
      BetweenQmap(e);
      StepUnmarked(m, l, e);
      StepWatched(m, l, e);
      StepConfirms(m, l, e);
      assert req.before + [] + [req.answer] == req.before + [req.answer];
    }
  }

  /** The bearer at a is never removed in the run. */
  ghost predicate Stays(m: Mode, q: Info, ops: seq<Op>, a: nat)
    requires m.Ok() && Binding(q) && AllInSync(q)
    decreases |ops|
  {
    a in q.store &&
    (ops == [] || (QosStepKeeps(m, q, ops[0]); Stays(m, QosStep(m, q, ops[0]), ops[1..], a)))
  }

  lemma {:induction false} RunStands(m: Mode, q: Info, ops: seq<Op>, r: Info, a: nat, req: Request)
    requires m.Ok() && m.qmap && Binding(q) && AllInSync(q) && Reaches(m, q, ops, r) && Stays(m, q, ops, a)
    requires req.Stands(q.store[a], q.sent) && forall k :: 0 <= k < |ops| ==> Meanwhile(req.b.id, ops[k])
    ensures a in r.store && req.Stands(r.store[a], r.sent)
    decreases |ops|
  {
    hide Binding, AllInSync, QosStep, Meanwhile, Seen;
    if ops != [] {
      var p := QosStep(m, q, ops[0]);
      QosStepKeeps(m, q, ops[0]);
      assert q.store[a].id == req.b.id;
      hide Request.Stands;
      assert Stays(m, p, ops[1..], a);
      OpSeen(m, q, ops[0], a);
      SeenStands(m, q, p, a, req);
      assert forall k :: 0 <= k < |ops[1..]| ==> ops[1..][k] == ops[k + 1];
      RunStands(m, p, ops[1..], r, a, req);
    }
  }

  /** The bearer's answer to an end marker request. */
  function RequestOf(b: Bearer, before: seq<Msg>, seqNo: u16, txid: u32): Request {
    var matched := b.lastSeq == seqNo && b.grant > 0;
    Request(b, before, matched, txid, Confirm(b.id, if matched then b.seqNo else seqNo, txid))
  }

  /** The request finds its bearer, whose id no other has. */
  lemma {:induction false} MarkerFinds(m: Mode, q: Info, a: nat, seqNo: u16, txid: u32)
    requires m.Ok() && Binding(q) && AllInSync(q) && a in q.store
    ensures QosStep(m, q, Marker(q.store[a].id, seqNo, txid)) == Apply(m, q, a, EndMarker(seqNo, txid))
  {
    OwnBearer(q, a);
    hide FindBearer, Apply, AllInSync;
  }

  lemma {:induction false} MarkerStands(m: Mode, q: Info, a: nat, seqNo: u16, txid: u32)
    requires m.Ok() && m.qmap && a in q.store && seqNo != QUERY_SEQ
    requires Unmarked(q.store[a]) && Watched(q.store[a]) && !Waiting(q.store[a])
    ensures var p := Apply(m, q, a, EndMarker(seqNo, txid));
      RequestOf(q.store[a], Confirms(q.sent, q.store[a].id), seqNo, txid).Stands(p.store[a], p.sent)
  {
    hide Step, Confirms;
    EndMarkerStart(m, Link(q.store[a], q.queues, q.sent), seqNo, txid);
  }

  /**
   * The QMAP end marker with every other bearer, flow and timer interleaved: the bearer confirms it at most once, as
   * soon as its grant is used up or replaced, with the transaction id of the request.
   */
  lemma {:induction false} MarkerOnce(m: Mode, q: Info, a: nat, seqNo: u16, txid: u32, ops: seq<Op>, r: Info)
    requires m.Ok() && m.qmap && Binding(q) && AllInSync(q) && a in q.store && seqNo != QUERY_SEQ
    requires Unmarked(q.store[a]) && Watched(q.store[a]) && !Waiting(q.store[a])
    requires var p := QosStep(m, q, Marker(q.store[a].id, seqNo, txid));
      Binding(p) && AllInSync(p) && Reaches(m, p, ops, r) && Stays(m, p, ops, a)
    requires forall k :: 0 <= k < |ops| ==> Meanwhile(q.store[a].id, ops[k])
    ensures a in r.store
    ensures var b := q.store[a];
      var matched := b.lastSeq == seqNo && b.grant > 0;
      && (Waiting(r.store[a]) ==> matched)
      && Confirms(r.sent, b.id) == Confirms(q.sent, b.id) +
           (if Waiting(r.store[a]) then [] else [Confirm(b.id, if matched then b.seqNo else seqNo, txid)])
  {
    var b := q.store[a];
    var req := RequestOf(b, Confirms(q.sent, b.id), seqNo, txid);
    MarkerFinds(m, q, a, seqNo, txid);
    MarkerStands(m, q, a, seqNo, txid);
    hide QosStep, Confirms, Binding, AllInSync, Apply, Reaches, Stays, Meanwhile;
    RunStands(m, QosStep(m, q, Marker(b.id, seqNo, txid)), ops, r, a, req);
  }

  /** Somewhere in the run the bearer at a is given an update that it accepts. */
  ghost predicate Updates(m: Mode, q: Info, ops: seq<Op>, a: nat)
    requires m.Ok() && Binding(q) && AllInSync(q)
    decreases |ops|
  {
    a in q.store && ops != [] &&
    (|| (ops[0].FlowStatus? && ops[0].id == q.store[a].id && Accepts(q.store[a], ops[0].s))
     || (QosStepKeeps(m, q, ops[0]); Updates(m, QosStep(m, q, ops[0]), ops[1..], a)))
  }

  lemma {:induction false} StatusAnswers(m: Mode, q: Info, a: nat, s: Status)
    requires m.Ok() && m.qmap && Binding(q) && a in q.store && FromQmap(Update(s)) && Accepts(q.store[a], s)
    requires Unmarked(q.store[a]) && Watched(q.store[a])
    ensures var p := StatusStep(m, q, q.store[a].id, s); a in p.store && !Waiting(p.store[a])
  {
    GetBearerFacts(m, q, q.store[a].id, 0);
    OwnBearer(q, a);
    var p := GetBearer(m, q, q.store[a].id, 0);
    assert BearerFor(q, q.store[a].id) == a && p.store[a] == q.store[a];
    hide GetBearer, Accepts, Step, Unmarked, Watched;
    StepConfirms(m, Link(p.store[a], p.queues, p.sent), Update(s));
  }

  lemma {:induction false} RunAnswered(m: Mode, q: Info, ops: seq<Op>, r: Info, a: nat, req: Request)
    requires m.Ok() && m.qmap && Binding(q) && AllInSync(q) && Reaches(m, q, ops, r) && Stays(m, q, ops, a)
    requires req.Stands(q.store[a], q.sent) && forall k :: 0 <= k < |ops| ==> Meanwhile(req.b.id, ops[k])
    requires Updates(m, q, ops, a) || !Waiting(q.store[a])
    ensures a in r.store && !Waiting(r.store[a])
    decreases |ops|
  {
    hide Binding, AllInSync, QosStep, Meanwhile, Seen, Accepts, Waiting;
    if ops != [] {
      var p, op := QosStep(m, q, ops[0]), ops[0];
      QosStepKeeps(m, q, op);
      assert q.store[a].id == req.b.id && Unmarked(q.store[a]) && Watched(q.store[a]);
      hide Request.Stands;
      assert Stays(m, p, ops[1..], a);
      OpSeen(m, q, op, a);
      SeenStands(m, q, p, a, req);
      if op.FlowStatus? && op.id == q.store[a].id && Accepts(q.store[a], op.s) {
        MeanwhileStatus(req.b.id, op);
        StatusIs(m, q, op);
        StatusAnswers(m, q, a, op.s);
      }
      assert forall k :: 0 <= k < |ops[1..]| ==> ops[1..][k] == ops[k + 1];
      RunAnswered(m, p, ops[1..], r, a, req);
    }
  }

  lemma MeanwhileStatus(id: u8, op: Op)
    requires Meanwhile(id, op) && op.FlowStatus?
    ensures FromQmap(Update(op.s))
  {
  }

  lemma StatusIs(m: Mode, q: Info, op: Op)
    requires m.Ok() && Binding(q) && AllInSync(q) && op.FlowStatus?
    ensures QosStep(m, q, op) == StatusStep(m, q, op.id, op.s)
  {
  }

  /** With every other bearer interleaved, an accepted update of its bearer has the request confirmed. */
  lemma {:induction false} MarkerAccepted(m: Mode, q: Info, a: nat, seqNo: u16, txid: u32, ops: seq<Op>, r: Info)
    requires m.Ok() && m.qmap && Binding(q) && AllInSync(q) && a in q.store && seqNo != QUERY_SEQ
    requires Unmarked(q.store[a]) && Watched(q.store[a]) && !Waiting(q.store[a])
    requires var p := QosStep(m, q, Marker(q.store[a].id, seqNo, txid));
      Binding(p) && AllInSync(p) && Reaches(m, p, ops, r) && Stays(m, p, ops, a) && Updates(m, p, ops, a)
    requires forall k :: 0 <= k < |ops| ==> Meanwhile(q.store[a].id, ops[k])
    ensures var b := q.store[a];
      var seen := if b.lastSeq == seqNo && b.grant > 0 then b.seqNo else seqNo;
      Confirms(r.sent, b.id) == Confirms(q.sent, b.id) + [Confirm(b.id, seen, txid)]
  {
    var b := q.store[a];
    var req := RequestOf(b, Confirms(q.sent, b.id), seqNo, txid);
    MarkerFinds(m, q, a, seqNo, txid);
    MarkerStands(m, q, a, seqNo, txid);
    hide QosStep, Confirms, Binding, AllInSync, Apply, Reaches, Stays, Updates, Meanwhile, Waiting;
    RunAnswered(m, QosStep(m, q, Marker(b.id, seqNo, txid)), ops, r, a, req);
    MarkerOnce(m, q, a, seqNo, txid, ops, r);
  }

  // QMAP commands

  /**
   * What goes on in QMAP mode: commands for single bearers, sends, timers, flows, powersave wake, and proper end
   * markers.
   */
  ghost predicate FromModem(op: Op) {
    match op
    case AllStatus(_) => false
    case FlowStatus(_, _) => exists id, c :: id != ALL_BEARERS && (op == IndOp(id, c) || RespOp(id, c) == Some(op))
    case Marker(_, seqNo, _) => seqNo != QUERY_SEQ
    case _ => true
  }

  lemma {:induction false} ModemSuits(op: Op)
    requires FromModem(op)
    ensures OpSuits(Scope(true, false), op)
  {
    if op.FlowStatus? {
      var id, c :| id != ALL_BEARERS && (op == IndOp(id, c) || RespOp(id, c) == Some(op));
      QmapEvents(c);
    }
  }

  /**
   * In every state of every QMAP run from the initial one, a live watchdog rules out a waiting end marker, on all
   * bearers.
   */
  lemma {:induction false} QmapRuns(m: Mode, queues: nat, ops: seq<Op>, r: Info)
    requires m.Ok() && m.qmap && queues <= INVALID_MQ && Reaches(m, Initial(queues), ops, r)
    requires forall k :: 0 <= k < |ops| ==> FromModem(ops[k])
    ensures Healthy(m, Scope(true, false), r.store)
  {
    hide Reaches, FromModem, OpSuits;
    forall k | 0 <= k < |ops|
      ensures OpSuits(Scope(true, false), ops[k])
    {
      ModemSuits(ops[k]);
    }
    ReachableHealthy(m, Scope(true, false), Initial(queues), ops, r);
  }
}
