/** Bearers that own more than one queue slot, and what becomes of the queues. */
module QosSlots {
  import opened Bytes
  import opened AddressLists
  import opened Dfc
  import opened Qos

  /** Every owned slot is the one its owner controls. */
  predicate SingleSlot(q: Info) {
    forall i :: 0 <= i < |q.mq| && q.mq[i].Some? ==> q.mq[i].value in q.store && q.store[q.mq[i].value].mq == i
  }

  /** The queue of every owned slot, not just that of mq_idx, runs exactly while its owner has a grant. */
  predicate SlotsSynced(q: Info) {
    forall i :: 0 <= i < |q.mq| && q.mq[i].Some? ==>
      q.mq[i].value in q.store && (i < |q.queues| ==> (q.queues[i] <==> q.store[q.mq[i].value].grant > 0))
  }

  lemma {:induction false} SingleSynced(q: Info)
    requires Binding(q) && AllInSync(q) && SingleSlot(q)
    ensures SlotsSynced(q)
  {
    forall i | 0 <= i < |q.mq| && q.mq[i].Some?
      ensures i < |q.queues| ==> (q.queues[i] <==> q.store[q.mq[i].value].grant > 0)
    {
      assert InSync(q.store[q.mq[i].value], q.queues);
    }
  }

  /** A slot its owner has moved on from is never controlled again: no handler of any bearer changes its queue. */
  lemma {:induction false} ForgottenSlot(m: Mode, q: Info, i: nat, a: nat, e: Event)
    requires m.Ok() && Binding(q) && AllInSync(q) && i < MAX_MQ && q.mq[i].Some? && i < |q.queues|
    requires q.mq[i].value in q.store && q.store[q.mq[i].value].mq != i && a in q.store
    ensures i < |Apply(m, q, a, e).queues| && Apply(m, q, a, e).queues[i] == q.queues[i]
  {
    hide Step;
    assert BoundOk(q, a) && InSync(q.store[a], q.queues);
    StepSyncs(m, Link(q.store[a], q.queues, q.sent), e);
  }

  /** No bearer controls queue j. */
  predicate Uncontrolled(q: Info, j: nat) {
    forall a :: a in q.store ==> q.store[a].mq != j && q.store[a].ackMq != j
  }

  /** Handlers leave flows, slots and their owners' bindings alone, and queues that nobody controls. */
  predicate Framed(q: Info, p: Info) {
    && p.flows == q.flows && p.mq == q.mq && p.order == q.order && p.store.Keys == q.store.Keys
    && |p.queues| == |q.queues|
    && (forall a :: a in q.store ==> p.store[a].mq == q.store[a].mq && p.store[a].ackMq == q.store[a].ackMq
                                     && p.store[a].id == q.store[a].id)
    && (forall j :: 0 <= j < |q.queues| && Uncontrolled(q, j) ==> p.queues[j] == q.queues[j])
  }

  lemma {:induction false} ApplyFramed(m: Mode, q: Info, a: nat, e: Event)
    requires m.Ok() && Binding(q) && AllInSync(q) && a in q.store
    ensures Framed(q, Apply(m, q, a, e))
    ensures forall b :: b in q.store && b != a ==> Apply(m, q, a, e).store[b] == q.store[b]
  {
    var l := Link(q.store[a], q.queues, q.sent);
    assert BoundOk(q, a) && InSync(q.store[a], q.queues);
    StepSyncs(m, l, e);
    SyncsLocal(l, Step(m, l, e));
    hide Step, Binding, AllInSync, Framed, Local;
    LocalFramed(q, a, Step(m, l, e));
  }

  lemma LocalFramed(q: Info, a: nat, r: Link)
    requires a in q.store && Local(Link(q.store[a], q.queues, q.sent), r)
    ensures Framed(q, q.(store := q.store[a := r.b], queues := r.queues, sent := r.sent))
  {
  }

  lemma {:induction false} FramedChain(q: Info, p: Info, r: Info)
    requires Framed(q, p) && Framed(p, r)
    ensures Framed(q, r)
  {
    forall j | 0 <= j < |q.queues| && Uncontrolled(q, j)
      ensures r.queues[j] == q.queues[j]
    {
      assert Uncontrolled(p, j);
    }
  }

  /** A wildcard update reaches every bearer of the list, and only controlled queues. */
  lemma {:induction false} WildcardFramed(m: Mode, q: Info, list: seq<nat>, s: Status)
    requires m.Ok() && Binding(q) && AllInSync(q) && forall a :: a in list ==> a in q.store
    ensures var p := ApplyAll(m, q, list, Wildcard(s));
      && Framed(q, p)
      && (forall a :: a in q.store && (a in list || q.store[a].grant == s.num) ==> p.store[a].grant == s.num)
    decreases |list|
  {
    hide Binding, AllInSync, Step, Framed;
    if list == [] {
      SameFramed(q);
    } else {
      var p := Apply(m, q, list[0], Wildcard(s));
      ApplyKeeps(m, q, list[0], Wildcard(s));
      ApplyFramed(m, q, list[0], Wildcard(s));
      WildcardGrants(m, Link(q.store[list[0]], q.queues, q.sent), s);
      assert p.store[list[0]].grant == s.num;
      KeysOf(q, p);
      WildcardFramed(m, p, list[1..], s);
      FramedChain(q, p, ApplyAll(m, p, list[1..], Wildcard(s)));
    }
  }

  lemma SameFramed(q: Info)
    ensures Framed(q, q)
  {
  }

  lemma KeysOf(q: Info, p: Info)
    requires Framed(q, p)
    ensures p.store.Keys == q.store.Keys && p.order == q.order
  {
  }

  lemma {:induction false} WildcardGrants(m: Mode, l: Link, s: Status)
    requires m.Ok()
    ensures Step(m, l, Wildcard(s)).b.grant == s.num
  {
    StepBearer(m, l, Wildcard(s));
    hide Step;
  }

  /** A slot that its owner has moved on from is controlled by nobody. */
  lemma {:induction false} ForgottenUncontrolled(q: Info, i: nat)
    requires Binding(q) && i < MAX_MQ && q.mq[i].Some?
    requires q.mq[i].value in q.store && q.store[q.mq[i].value].mq != i
    ensures Uncontrolled(q, i)
  {
    forall a | a in q.store
      ensures q.store[a].mq != i && q.store[a].ackMq != i
    {
      assert BoundOk(q, a);
    }
  }

  /** The wildcard update that gives all bearers a grant, or takes it from all. */
  function Flip(b: Bearer): Op {
    AllStatus(Status(if b.grant > 0 then 0 else 1, 0, None, false, false, false, false))
  }

  /** With a forgotten slot, a wildcard update leaves its queue out of step with its owner. */
  lemma {:induction false} ForgottenParts(m: Mode, q: Info, i: nat)
    requires m.Ok() && Binding(q) && AllInSync(q) && SlotsSynced(q) && i < MAX_MQ <= |q.queues| && q.mq[i].Some?
    requires q.mq[i].value in q.store && q.store[q.mq[i].value].mq != i
    ensures !SlotsSynced(QosStep(m, q, Flip(q.store[q.mq[i].value])))
  {
    var a := q.mq[i].value;
    var op := Flip(q.store[a]);
    Listed(q);
    ForgottenUncontrolled(q, i);
    assert a in q.order;
    WildcardFramed(m, q, q.order, op.s);
    var p := QosStep(m, q, op);
    assert p == ApplyAll(m, q, q.order, Wildcard(op.s));
    hide ApplyAll, AllInSync;
    assert p.mq[i] == Some(a) && p.queues[i] == q.queues[i];
  }

  /** Every operation but an addition keeps the queues of owned slots in step iff no bearer owns a second slot. */
  lemma {:induction false} SlotsSyncedExact(m: Mode, q: Info)
    requires m.Ok() && Binding(q) && AllInSync(q) && SlotsSynced(q) && MAX_MQ <= |q.queues|
    ensures SingleSlot(q) <==> forall op: Op :: !op.AddFlow? ==> SlotsSynced(QosStep(m, q, op))
  {
    if SingleSlot(q) {
      hide Binding, AllInSync, SingleSlot, SlotsSynced, QosStep;
      forall op: Op | !op.AddFlow?
        ensures SlotsSynced(QosStep(m, q, op))
      {
        QosStepKeeps(m, q, op);
        OthersSingle(m, q, op);
        SingleSynced(QosStep(m, q, op));
      }
    } else {
      var i :| 0 <= i < |q.mq| && q.mq[i].Some? && !(q.mq[i].value in q.store && q.store[q.mq[i].value].mq == i);
      hide QosStep, AllInSync;
      ForgottenParts(m, q, i);
    }
  }

  /** The bearer already controls a slot and now takes another. */
  predicate TakesSecond(q: Info, id: u8, slot: nat)
    requires slot < |q.mq| && forall a :: a in q.order ==> a in q.store
  {
    var a := FindBearer(q.order, q.store, id);
    slot != DEFAULT_MQ && q.mq[slot].None? && a.Some? && Bound(q.store[a.value])
  }

  lemma {:induction false} TakeSlotExact(q: Info, a: nat, slot: nat)
    requires Binding(q) && SingleSlot(q) && a in q.store && slot < MAX_MQ
    ensures SingleSlot(TakeSlot(q, a, slot)) <==> !(slot != DEFAULT_MQ && q.mq[slot].None? && Bound(q.store[a]))
  {
    assert BoundOk(q, a);
    var p := TakeSlot(q, a, slot);
    if slot != DEFAULT_MQ && q.mq[slot].None? {
      if Bound(q.store[a]) {
        var i := q.store[a].mq;
        assert p.mq[i] == Some(a) && p.store[a].mq == slot;
      } else {
        assert forall i :: 0 <= i < |q.mq| ==> q.mq[i] != Some(a);
      }
    }
  }

  lemma {:induction false} InsertExact(m: Mode, q: Info, i: nat, f: Flow)
    requires m.Ok() && Binding(q) && AllInSync(q) && SingleSlot(q)
    requires i <= |q.flows| && f.mq < MAX_MQ && Fresh(q.flows, f)
    ensures SingleSlot(InsertFlow(m, q, i, f)) <==> !TakesSecond(q, f.bearerId, f.mq)
  {
    InsertedKeeps(m, q, i, f);
    var p, a := Inserted(m, q, i, f), BearerFor(q, f.bearerId);
    assert SingleSlot(p) && p.mq == q.mq;
    assert Bound(p.store[a]) <==> FindBearer(q.order, q.store, f.bearerId).Some? && Bound(q.store[a]);
    hide AllInSync, Inserted, TakeSlot;
    TakeSlotExact(p, a, f.mq);
  }

  lemma {:induction false} DropSingle(q: Info, i: nat, reset: bool)
    requires Binding(q) && SingleSlot(q) && i < |q.flows| && q.flows[i].bearer in q.store
    ensures SingleSlot(DropFlow(q, i, reset))
  {
    hide ResetQueues, Unlink, Without, Refs;
  }

  lemma {:induction false} ApplySingle(m: Mode, q: Info, a: nat, e: Event)
    requires m.Ok() && SingleSlot(q) && a in q.store
    ensures SingleSlot(Apply(m, q, a, e))
  {
    hide Step, PlanOf;
    StepBearer(m, Link(q.store[a], q.queues, q.sent), e);
    PlanQuiet(m, Link(q.store[a], q.queues, q.sent), e);
  }

  lemma {:induction false} ApplyAllSingle(m: Mode, q: Info, list: seq<nat>, e: Event)
    requires m.Ok() && SingleSlot(q) && forall a :: a in list ==> a in q.store
    ensures SingleSlot(ApplyAll(m, q, list, e))
    decreases |list|
  {
    hide Step, SingleSlot;
    if list != [] {
      ApplySingle(m, q, list[0], e);
      ApplyAllSingle(m, Apply(m, q, list[0], e), list[1..], e);
    }
  }

  /** The state in which qmi_rmnet_add_flow binds the flow, if it does. */
  function AddBase(q: Info, bearerId: u8, flowId: u32, ipType: int, mq: nat): Option<Info>
    requires Binding(q)
  {
    var i := FindFlow(q.flows, flowId, ipType);
    if mq >= MAX_MQ then None
    else if i.None? then Some(q)
    else if q.flows[i.value].bearerId != bearerId then
      assert FlowOk(q, q.flows[i.value]);
      Some(DropFlow(q, i.value, false))
    else if q.flows[i.value].mq != mq then Some(DelStep(q, flowId, ipType))
    else None
  }

  lemma {:induction false} AddBaseKeeps(q: Info, bearerId: u8, flowId: u32, ipType: int, mq: nat)
    requires Binding(q) && AllInSync(q) && AddBase(q, bearerId, flowId, ipType, mq).Some?
    ensures var p := AddBase(q, bearerId, flowId, ipType, mq).value;
      && Binding(p) && AllInSync(p) && Fresh(p.flows, Flow(flowId, ipType, bearerId, mq, 0))
      && (SingleSlot(q) ==> SingleSlot(p))
  {
    hide AllInSync, DropFlow, SingleSlot;
    var i := FindFlow(q.flows, flowId, ipType);
    DelKeeps(q, flowId, ipType);
    if i.Some? {
      DropFlowKeeps(q, i.value, false);
      DropFlowFlows(q, i.value, false);
      DropFlowKeeps(q, i.value, true);
      KeysWithout(q.flows, i.value);
      if SingleSlot(q) {
        DropSingle(q, i.value, false);
        DropSingle(q, i.value, true);
        WakeSingle(DropFlow(q, i.value, true));
      }
    }
  }

  lemma WakeSingle(q: Info)
    requires SingleSlot(q)
    ensures SingleSlot(q.(queues := seq(|q.queues|, j => true)))
  {
  }

  /** Which additions make a bearer lose sight of a queue: exactly those that give a bound bearer a second slot. */
  lemma {:induction false} AddSingleExact(m: Mode, q: Info, bearerId: u8, flowId: u32, ipType: int, mq: nat)
    requires m.Ok() && Binding(q) && AllInSync(q) && SingleSlot(q)
    ensures AddBase(q, bearerId, flowId, ipType, mq).Some? ==> Binding(AddBase(q, bearerId, flowId, ipType, mq).value)
    ensures var base := AddBase(q, bearerId, flowId, ipType, mq);
      SingleSlot(AddStep(m, q, bearerId, flowId, ipType, mq)) <==> base.None? || !TakesSecond(base.value, bearerId, mq)
  {
    var base := AddBase(q, bearerId, flowId, ipType, mq);
    if base.Some? {
      AddBaseKeeps(q, bearerId, flowId, ipType, mq);
      var f := Flow(flowId, ipType, bearerId, mq, 0);
      var i := FindFlow(q.flows, flowId, ipType);
      var at := if i.Some? && q.flows[i.value].bearerId != bearerId then i.value else 0;
      AddStepIs(m, q, bearerId, flowId, ipType, mq);
      hide AllInSync, SingleSlot, InsertFlow, AddStep, AddBase;
      InsertExact(m, base.value, at, f);
    }
  }

  lemma {:induction false} AddStepIs(m: Mode, q: Info, bearerId: u8, flowId: u32, ipType: int, mq: nat)
    requires m.Ok() && Binding(q) && AllInSync(q) && AddBase(q, bearerId, flowId, ipType, mq).Some?
    ensures var p := AddBase(q, bearerId, flowId, ipType, mq).value;
      var i := FindFlow(q.flows, flowId, ipType);
      var at := if i.Some? && q.flows[i.value].bearerId != bearerId then i.value else 0;
      && Binding(p) && at <= |p.flows| && mq < |p.mq|
      && AddStep(m, q, bearerId, flowId, ipType, mq) == InsertFlow(m, p, at, Flow(flowId, ipType, bearerId, mq, 0))
  {
    AddBaseKeeps(q, bearerId, flowId, ipType, mq);
    var i := FindFlow(q.flows, flowId, ipType);
    if i.Some? {
      assert FlowOk(q, q.flows[i.value]);
      DropFlowFlows(q, i.value, false);
    }
    hide AllInSync, DropFlow, DelStep, InsertFlow;
  }

  /** No other operation does. */
  lemma {:induction false} OthersSingle(m: Mode, q: Info, op: Op)
    requires m.Ok() && Binding(q) && AllInSync(q) && SingleSlot(q) && !op.AddFlow?
    ensures SingleSlot(QosStep(m, q, op))
  {
    hide AllInSync, SingleSlot, Apply, ApplyAll, DropFlow, Target;
    match op {
      case FlowStatus(id, s) =>
        GetBearerFacts(m, q, id, 0);
        GetSingle(m, q, id);
        ApplySingle(m, GetBearer(m, q, id, 0), BearerFor(q, id), Update(s));
      case AllStatus(s) => ApplyAllSingle(m, q, q.order, Wildcard(s));
      case WakeAll => ApplyAllSingle(m, q, q.order, Wake);
      case AddFlow(_, _, _, _) =>
      case DelFlow(flowId, ipType) =>
        var i := FindFlow(q.flows, flowId, ipType);
        WakeSingle(q);
        if i.Some? {
          assert FlowOk(q, q.flows[i.value]);
          DropSingle(q, i.value, true);
          WakeSingle(DropFlow(q, i.value, true));
        }
      case _ =>
        var t := Target(q, op);
        if t.Some? {
          ApplySingle(m, q, t.value.0, t.value.1);
        } else {
          SentSingle(q, q.sent + Answer(op));
        }
    }
  }

  lemma SentSingle(q: Info, sent: seq<Msg>)
    requires SingleSlot(q)
    ensures SingleSlot(q.(sent := sent))
  {
  }

  lemma {:induction false} GetSingle(m: Mode, q: Info, id: u8)
    requires m.Ok() && Binding(q) && SingleSlot(q)
    ensures SingleSlot(GetBearer(m, q, id, 0))
  {
    hide Refs;
  }

  /** The operation gives a bearer a second slot. */
  ghost predicate SecondSlot(q: Info, op: Op)
    requires Binding(q)
  {
    op.AddFlow? &&
    var base := AddBase(q, op.bearerId, op.flowId, op.ipType, op.mq);
    base.Some? && Binding(base.value) && TakesSecond(base.value, op.bearerId, op.mq)
  }

  lemma {:induction false} StepSingleExact(m: Mode, q: Info, op: Op)
    requires m.Ok() && Binding(q) && AllInSync(q) && SingleSlot(q)
    ensures SingleSlot(QosStep(m, q, op)) <==> !SecondSlot(q, op)
  {
    hide AllInSync, SingleSlot, AddStep, AddBase;
    if op.AddFlow? {
      AddSingleExact(m, q, op.bearerId, op.flowId, op.ipType, op.mq);
    } else {
      OthersSingle(m, q, op);
    }
  }

  /** No operation of the run gives a bearer a second slot. */
  ghost predicate NoSecondSlot(m: Mode, q: Info, ops: seq<Op>)
    requires m.Ok() && Binding(q) && AllInSync(q)
    decreases |ops|
  {
    ops == [] ||
    (!SecondSlot(q, ops[0]) &&
     (QosStepKeeps(m, q, ops[0]); NoSecondSlot(m, QosStep(m, q, ops[0]), ops[1..])))
  }

  /** In every state of the run the queues of all owned slots follow the grants, under every handler. */
  ghost predicate AlwaysSingle(m: Mode, q: Info, ops: seq<Op>)
    requires m.Ok() && Binding(q) && AllInSync(q)
    decreases |ops|
  {
    SingleSlot(q) &&
    (ops == [] || (QosStepKeeps(m, q, ops[0]); AlwaysSingle(m, QosStep(m, q, ops[0]), ops[1..])))
  }

  /**
   * Over any run every bearer controls all the slots it owns if and only if no addition gives a bearer a second slot.
   */
  lemma {:induction false} RunSingleExact(m: Mode, q: Info, ops: seq<Op>)
    requires m.Ok() && Binding(q) && AllInSync(q) && SingleSlot(q)
    ensures AlwaysSingle(m, q, ops) <==> NoSecondSlot(m, q, ops)
    decreases |ops|
  {
    hide Binding, AllInSync, SingleSlot, QosStep, SecondSlot;
    if ops != [] {
      QosStepKeeps(m, q, ops[0]);
      StepSingleExact(m, q, ops[0]);
      if SingleSlot(QosStep(m, q, ops[0])) {
        RunSingleExact(m, QosStep(m, q, ops[0]), ops[1..]);
      } else {
        NotSingle(m, QosStep(m, q, ops[0]), ops[1..]);
      }
    }
  }

  lemma NotSingle(m: Mode, q: Info, ops: seq<Op>)
    requires m.Ok() && Binding(q) && AllInSync(q) && !SingleSlot(q)
    ensures !AlwaysSingle(m, q, ops)
  {
  }

  /** In every state such a run reaches, the queue of every owned slot runs exactly while its owner has a grant. */
  lemma {:induction false} ReachableSynced(m: Mode, q: Info, ops: seq<Op>, r: Info)
    requires m.Ok() && Binding(q) && AllInSync(q) && SingleSlot(q) && Reaches(m, q, ops, r) && NoSecondSlot(m, q, ops)
    ensures SingleSlot(r) && SlotsSynced(r)
    decreases |ops|
  {
    hide Binding, AllInSync, SingleSlot, SlotsSynced, QosStep, SecondSlot;
    if ops == [] {
      SingleSynced(q);
    } else {
      QosStepKeeps(m, q, ops[0]);
      StepSingleExact(m, q, ops[0]);
      ReachableSynced(m, QosStep(m, q, ops[0]), ops[1..], r);
    }
  }

  /** The state after one flow of one new bearer was bound to slot 1. */
  lemma {:induction false} OneFlow(m: Mode)
    requires m.Ok()
    ensures var p := AddStep(m, Initial(31), 1, 10, 2, 1);
      && p.order == [0] && p.store == map[0 := NewBearer(m, 1, 1).(mq := 1, ackMq := 16)]
      && p.flows == [Flow(10, 2, 1, 1, 0)] && p.mq == Initial(31).mq[1 := Some(0)] && |p.queues| == 31 && p.queues[1]
  {
    var q := Initial(31);
    assert With(q.flows, 0, Flow(10, 2, 1, 1, 0)) == [Flow(10, 2, 1, 1, 0)];
    assert [0] + q.order == [0];
  }

  /** A second flow of it on slot 2: the bearer owns both slots and controls the second. */
  lemma {:induction false} TwoFlows(m: Mode, q: Info)
    requires m.Ok() && Binding(q) && AllInSync(q) && q.order == [0] && |q.queues| == 31 && q.queues[1]
    requires q.store == map[0 := NewBearer(m, 1, 1).(mq := 1, ackMq := 16)] && q.mq == Initial(31).mq[1 := Some(0)]
    requires q.flows == [Flow(10, 2, 1, 1, 0)]
    ensures var p := AddStep(m, q, 1, 11, 2, 2);
      && p.order == [0] && 0 in p.store && p.store[0] == NewBearer(m, 1, 2).(mq := 2, ackMq := 17)
      && p.mq[1] == Some(0) && |p.queues| == 31 && p.queues[1]
  {
    assert q.flows[1..] == [];
    assert FindFlow(q.flows, 11, 2) == None;
    assert FindBearer(q.order, q.store, 1) == Some(0);
  }

  /** Slot i has an owner without grant, and a queue that runs. */
  predicate Stale(q: Info, i: nat) {
    && i < |q.mq| && q.mq[i].Some? && q.mq[i].value in q.store && q.store[q.mq[i].value].grant == 0
    && i < |q.queues| && q.queues[i]
  }

  /** Two flows of one bearer on slots 1 and 2, then an indication without grant. */
  function StaleOps(): seq<Op> {
    [AddFlow(1, 10, 2, 1), AddFlow(1, 11, 2, 2), FlowStatus(1, Status(0, 7, None, false, false, false, false))]
  }

  lemma {:induction false} ReachesThree(m: Mode, q: Info, a: Op, b: Op, c: Op)
    requires m.Ok() && Binding(q) && AllInSync(q)
    ensures Binding(QosStep(m, q, a)) && AllInSync(QosStep(m, q, a))
    ensures var p := QosStep(m, q, a); Binding(QosStep(m, p, b)) && AllInSync(QosStep(m, p, b))
    ensures Reaches(m, q, [a, b, c], QosStep(m, QosStep(m, QosStep(m, q, a), b), c))
  {
    hide QosStep, Binding, AllInSync;
    QosStepKeeps(m, q, a);
    var p := QosStep(m, q, a);
    QosStepKeeps(m, p, b);
    var r := QosStep(m, p, b);
    QosStepKeeps(m, r, c);
    var s := QosStep(m, r, c);
    assert [a, b, c][1..] == [b, c] && [b, c][1..] == [c] && [c][1..] == [];
    assert Reaches(m, s, [], s);
    assert Reaches(m, r, [c], s);
    assert Reaches(m, p, [b, c], s);
  }

  /** A run from the initial state that leaves a queue running for a bearer without grant. */
  lemma {:induction false} StaleQueue(m: Mode)
    requires m.Ok()
    ensures exists r :: Reaches(m, Initial(31), StaleOps(), r) && Stale(r, 1)
  {
    var q0, ops := Initial(31), StaleOps();
    ReachesThree(m, q0, ops[0], ops[1], ops[2]);
    assert ops == [ops[0], ops[1], ops[2]];
    OneFlow(m);
    var q1 := QosStep(m, q0, ops[0]);
    TwoFlows(m, q1);
    var q2 := QosStep(m, q1, ops[1]);
    hide Binding, AllInSync, AddStep, StatusStep, Reaches;
    StaleStatus(m, q2);
  }

  lemma {:induction false} StaleStatus(m: Mode, q: Info)
    requires m.Ok() && Binding(q) && AllInSync(q) && q.order == [0] && 0 in q.store && |q.queues| == 31 && q.queues[1]
    requires q.store[0] == NewBearer(m, 1, 2).(mq := 2, ackMq := 17) && q.mq[1] == Some(0)
    ensures Stale(StatusStep(m, q, 1, Status(0, 7, None, false, false, false, false)), 1)
  {
    var s := Status(0, 7, None, false, false, false, false);
    assert FindBearer(q.order, q.store, 1) == Some(0);
    assert q.store[0 := q.store[0].(flowRef := q.store[0].flowRef + 0)] == q.store;
    assert GetBearer(m, q, 1, 0) == q;
    ForgottenSlot(m, q, 1, 0, Update(s));
    StepBearer(m, Link(q.store[0], q.queues, q.sent), Update(s));
    hide Step;
  }

  // Flows and the queues they transmit on

  /** The queue a flow transmits on runs exactly while its bearer has a grant. */
  predicate FlowSynced(q: Info, k: nat)
    requires k < |q.flows|
  {
    var f := q.flows[k];
    f.bearer in q.store && (f.mq < |q.queues| ==> (q.queues[f.mq] <==> q.store[f.bearer].grant > 0))
  }

  /** Its bearer owns that slot and controls it: mq_idx of a bearer is always a slot of its own. */
  predicate FlowControlled(q: Info, k: nat)
    requires k < |q.flows|
  {
    q.flows[k].bearer in q.store && q.store[q.flows[k].bearer].mq == q.flows[k].mq
  }

  lemma {:induction false} ControlledOwns(q: Info, k: nat)
    requires Binding(q) && AllInSync(q) && k < |q.flows| && FlowControlled(q, k)
    ensures q.flows[k].mq < |q.mq| && q.mq[q.flows[k].mq] == Some(q.flows[k].bearer) && FlowSynced(q, k)
  {
    var f := q.flows[k];
    assert FlowOk(q, f) && BoundOk(q, f.bearer) && InSync(q.store[f.bearer], q.queues);
  }

  /** Operations that neither add nor delete flows. */
  predicate Steady(op: Op) { !op.AddFlow? && !op.DelFlow? }

  /** Flows keep their places and bearers their slots. */
  predicate SameFlows(q: Info, p: Info) {
    && p.flows == q.flows && |p.queues| == |q.queues|
    && forall a :: a in q.store ==> a in p.store && p.store[a].mq == q.store[a].mq && p.store[a].id == q.store[a].id
  }

  lemma {:induction false} SteadyStep(m: Mode, q: Info, op: Op)
    requires m.Ok() && Binding(q) && AllInSync(q) && Steady(op)
    ensures SameFlows(q, QosStep(m, q, op))
  {
    Listed(q);
    hide AllInSync, Apply, ApplyAll, GetBearer, BearerFor, Target, Framed;
    match op {
      case FlowStatus(id, s) =>
        GetBearerFacts(m, q, id, 0);
        GetBearerFrame(m, q, id);
        ApplySame(m, GetBearer(m, q, id, 0), BearerFor(q, id), Update(s));
      case AllStatus(s) => ApplyAllSame(m, q, q.order, Wildcard(s));
      case WakeAll => ApplyAllSame(m, q, q.order, Wake);
      case AddFlow(_, _, _, _) =>
      case DelFlow(_, _) =>
      case _ =>
        var t := Target(q, op);
        if t.Some? {
          ApplySame(m, q, t.value.0, t.value.1);
        }
    }
  }

  lemma {:induction false} ApplySame(m: Mode, q: Info, a: nat, e: Event)
    requires m.Ok() && a in q.store
    ensures SameFlows(q, Apply(m, q, a, e))
  {
    hide Step, PlanOf;
    StepBearer(m, Link(q.store[a], q.queues, q.sent), e);
    PlanQuiet(m, Link(q.store[a], q.queues, q.sent), e);
    StepQueues(m, Link(q.store[a], q.queues, q.sent), e);
  }

  lemma {:induction false} StepQueues(m: Mode, l: Link, e: Event)
    requires m.Ok()
    ensures |Step(m, l, e).queues| == |l.queues|
  {
    hide PlanOf;
    PlanQuiet(m, l, e);
  }

  lemma {:induction false} ApplyAllSame(m: Mode, q: Info, list: seq<nat>, e: Event)
    requires m.Ok() && forall a :: a in list ==> a in q.store
    ensures SameFlows(q, ApplyAll(m, q, list, e))
    decreases |list|
  {
    hide Step, Apply;
    if list != [] {
      ApplySame(m, q, list[0], e);
      ApplyAllSame(m, Apply(m, q, list[0], e), list[1..], e);
    }
  }

  lemma {:induction false} SteadyRun(m: Mode, q: Info, ops: seq<Op>, r: Info)
    requires m.Ok() && Binding(q) && AllInSync(q) && Reaches(m, q, ops, r)
    requires forall i :: 0 <= i < |ops| ==> Steady(ops[i])
    ensures SameFlows(q, r)
    decreases |ops|
  {
    hide Binding, AllInSync, QosStep, Steady;
    if ops != [] {
      QosStepKeeps(m, q, ops[0]);
      SteadyStep(m, q, ops[0]);
      assert forall i :: 0 <= i < |ops[1..]| ==> ops[1..][i] == ops[i + 1];
      SteadyRun(m, QosStep(m, q, ops[0]), ops[1..], r);
    }
  }

  /** One operation on the bearer at a: a queue it does not control keeps its state, and so do all the other bearers. */
  lemma {:induction false} AimedStep(m: Mode, q: Info, a: nat, op: Op, e: Event, j: nat)
    requires m.Ok() && Binding(q) && AllInSync(q) && a in q.store && j < |q.queues| && j < MAX_MQ
    requires q.store[a].mq != j && Target(q, op) == Some((a, e))
    ensures var p := QosStep(m, q, op);
      && p == Apply(m, q, a, e) && Binding(p) && AllInSync(p) && a in p.store
      && p.store[a] == Step(m, Link(q.store[a], q.queues, q.sent), e).b
      && |p.queues| == |q.queues| && p.queues[j] == q.queues[j]
      && p.store[a].mq == q.store[a].mq && p.store[a].id == q.store[a].id
  {
    hide Step;
    QosStepKeeps(m, q, op);
    assert BoundOk(q, a) && InSync(q.store[a], q.queues);
    StepSyncs(m, Link(q.store[a], q.queues, q.sent), e);
  }

  /** What takes the grant from the bearer of a flow: a packet of that size. */
  lemma {:induction false} UsedUp(m: Mode, q: Info, k: nat)
    requires m.Ok() && Binding(q) && AllInSync(q) && k < |q.flows| && FlowSynced(q, k) && !FlowControlled(q, k)
    requires q.store[q.flows[k].bearer].grant > 0 && MAX_MQ <= |q.queues|
    ensures var f := q.flows[k];
      var p := QosStep(m, q, Burst(f.id, f.ipType, q.store[f.bearer].grant));
      SameFlows(q, p) && !FlowSynced(p, k)
  {
    var f := q.flows[k];
    var a := f.bearer;
    assert FlowOk(q, f);
    OwnFlow(q, k);
    var op, e := Burst(f.id, f.ipType, q.store[a].grant), Send(q.store[a].grant);
    assert Target(q, op) == Some((a, e));
    hide FindFlow;
    AimedStep(m, q, a, op, e, f.mq);
    SteadyStep(m, q, op);
    StepBearer(m, Link(q.store[a], q.queues, q.sent), e);
    hide Step, QosStep;
  }

  /** What gives one to a bearer without: the end of a RAT switch, then TX off and on. */
  function ReviveOps(id: u8): seq<Op> {
    [FlowStatus(id, Status(1, 0, None, false, true, false, false)), TxStatus(id, false), TxStatus(id, true)]
  }

  /** How the bearer at a and queue j stand before and after an operation on that bearer alone. */
  ghost predicate Aimed(m: Mode, q: Info, p: Info, a: nat, e: Event, j: nat)
    requires m.Ok() && a in q.store
  {
    && Binding(p) && AllInSync(p) && a in p.store && j < |q.queues| == |p.queues| && p.queues[j] == q.queues[j]
    && p.store[a].mq == q.store[a].mq && p.store[a].id == q.store[a].id
    && p.store[a] == Step(m, Link(q.store[a], q.queues, q.sent), e).b
  }

  lemma {:induction false} TxAimed(m: Mode, q: Info, a: nat, on: bool, j: nat)
    requires m.Ok() && Binding(q) && AllInSync(q) && a in q.store && j < |q.queues| && j < MAX_MQ && q.store[a].mq != j
    ensures Aimed(m, q, QosStep(m, q, TxStatus(q.store[a].id, on)), a, TxLink(on), j)
  {
    OwnBearer(q, a);
    assert Target(q, TxStatus(q.store[a].id, on)) == Some((a, TxLink(on)));
    hide QosStep, Step, Target, Binding, AllInSync;
    AimedStep(m, q, a, TxStatus(q.store[a].id, on), TxLink(on), j);
  }

  lemma {:induction false} StatusAimed(m: Mode, q: Info, a: nat, s: Status, j: nat)
    requires m.Ok() && Binding(q) && AllInSync(q) && a in q.store && j < |q.queues| && j < MAX_MQ && q.store[a].mq != j
    ensures Aimed(m, q, QosStep(m, q, FlowStatus(q.store[a].id, s)), a, Update(s), j)
  {
    GetOwn(m, q, a);
    var p := QosStep(m, q, FlowStatus(q.store[a].id, s));
    assert p == Apply(m, q, a, Update(s));
    QosStepKeeps(m, q, FlowStatus(q.store[a].id, s));
    assert BoundOk(q, a) && InSync(q.store[a], q.queues);
    StepSyncs(m, Link(q.store[a], q.queues, q.sent), Update(s));
    hide Step, QosStep, Binding, AllInSync, BoundOk, InSync;
  }

  lemma {:induction false} GetOwn(m: Mode, q: Info, a: nat)
    requires m.Ok() && Binding(q) && a in q.store
    ensures GetBearer(m, q, q.store[a].id, 0) == q && BearerFor(q, q.store[a].id) == a
  {
    OwnBearer(q, a);
    Listed(q);
    hide Binding, FindBearer, NewBearer;
    var b := q.store[a];
    assert b.(flowRef := b.flowRef + 0) == b;
    SameEntry(q.store, a);
  }

  lemma SameEntry(s: map<nat, Bearer>, a: nat)
    requires a in s
    ensures s[a := s[a]] == s
  {
  }

  lemma {:induction false} ReviveRun(m: Mode, q: Info, a: nat, j: nat) returns (r: Info)
    requires m.Ok() && Binding(q) && AllInSync(q) && a in q.store && j < |q.queues| && j < MAX_MQ && q.store[a].mq != j
    ensures Reaches(m, q, ReviveOps(q.store[a].id), r)
    ensures a in r.store && r.store[a].grant > 0 && |r.queues| == |q.queues| && r.queues[j] == q.queues[j]
  {
    var id, s := q.store[a].id, Status(1, 0, None, false, true, false, false);
    hide QosStep, Step, Binding, AllInSync, Reaches;
    StatusAimed(m, q, a, s, j);
    var q1 := QosStep(m, q, FlowStatus(id, s));
    TxAimed(m, q1, a, false, j);
    var q2 := QosStep(m, q1, TxStatus(id, false));
    TxAimed(m, q2, a, true, j);
    RevivedGrant(m, Link(q.store[a], q.queues, q.sent), q1.store[a], Link(q1.store[a], q1.queues, q1.sent),
                 q2.store[a], Link(q2.store[a], q2.queues, q2.sent), s);
    ReachesThree(m, q, FlowStatus(id, s), TxStatus(id, false), TxStatus(id, true));
    r := QosStep(m, q2, TxStatus(id, true));
  }

  lemma {:induction false} Revived(m: Mode, q: Info, k: nat) returns (r: Info)
    requires m.Ok() && Binding(q) && AllInSync(q) && k < |q.flows| && FlowSynced(q, k) && !FlowControlled(q, k)
    requires q.store[q.flows[k].bearer].grant == 0 && MAX_MQ <= |q.queues|
    ensures Reaches(m, q, ReviveOps(q.store[q.flows[k].bearer].id), r) && SameFlows(q, r) && !FlowSynced(r, k)
  {
    var f := q.flows[k];
    var a := f.bearer;
    assert FlowOk(q, f);
    hide QosStep, Step, Binding, AllInSync, Reaches;
    r := ReviveRun(m, q, a, f.mq);
    SteadyRun(m, q, ReviveOps(q.store[a].id), r);
  }

  lemma {:induction false} RevivedGrant(m: Mode, l: Link, b1: Bearer, l1: Link, b2: Bearer, l2: Link, s: Status)
    requires m.Ok() && s == Status(1, 0, None, false, true, false, false) && l1.b == b1 && l2.b == b2
    requires b1 == Step(m, l, Update(s)).b && b2 == Step(m, l1, TxLink(false)).b
    ensures Step(m, l2, TxLink(true)).b.grant > 0
  {
    StepBearer(m, l, Update(s));
    StepBearer(m, l1, TxLink(false));
    StepBearer(m, l2, TxLink(true));
    hide Step, NewGrant, Watches, Flying, Mode.GrantPer;
    assert !b1.ratSwitch && (b1.txOff ==> b1.grant == l.b.grant);
  }

  /**
   * As long as flows are neither added nor deleted, the queue a flow transmits on follows the grant of its bearer in
   * every run if and only if that bearer owns and controls the slot.
   */
  lemma {:induction false} FlowSyncedExact(m: Mode, q: Info, k: nat)
    requires m.Ok() && Binding(q) && AllInSync(q) && k < |q.flows| && FlowSynced(q, k) && MAX_MQ <= |q.queues|
    ensures FlowControlled(q, k) <==>
      forall ops, r :: Reaches(m, q, ops, r) && (forall i :: 0 <= i < |ops| ==> Steady(ops[i])) ==>
        k < |r.flows| && FlowSynced(r, k)
  {
    hide QosStep, Step;
    if FlowControlled(q, k) {
      forall ops, r | Reaches(m, q, ops, r) && (forall i :: 0 <= i < |ops| ==> Steady(ops[i]))
        ensures k < |r.flows| && FlowSynced(r, k)
      {
        SteadyRun(m, q, ops, r);
        ReachableKeeps(m, q, ops, r);
        ControlledOwns(r, k);
      }
    } else if q.store[q.flows[k].bearer].grant > 0 {
      var f := q.flows[k];
      var op := Burst(f.id, f.ipType, q.store[f.bearer].grant);
      UsedUp(m, q, k);
      ReachesOne(m, q, op);
      var ops := [op];
      assert Reaches(m, q, ops, QosStep(m, q, op)) && forall i :: 0 <= i < |ops| ==> Steady(ops[i]);
    } else {
      var r := Revived(m, q, k);
      var ops := ReviveOps(q.store[q.flows[k].bearer].id);
      assert forall i :: 0 <= i < |ops| ==> Steady(ops[i]);
    }
  }

  lemma {:induction false} ReachesOne(m: Mode, q: Info, op: Op)
    requires m.Ok() && Binding(q) && AllInSync(q)
    ensures Reaches(m, q, [op], QosStep(m, q, op))
  {
    hide QosStep, Binding, AllInSync;
    QosStepKeeps(m, q, op);
    assert [op][1..] == [];
    assert Reaches(m, QosStep(m, q, op), [], QosStep(m, q, op));
  }

  // A flow left behind by a rebind

  /** A flow whose bearer has a grant, on a stopped queue that no bearer owns. */
  predicate Stranded(q: Info, k: nat) {
    && k < |q.flows| && q.flows[k].bearer in q.store && q.store[q.flows[k].bearer].grant > 0
    && q.flows[k].mq < |q.mq| && q.mq[q.flows[k].mq].None?
    && q.flows[k].mq < |q.queues| && !q.queues[q.flows[k].mq]
  }

  /** Nothing but a change of flows frees it: no handler controls the queue, and rebinding its owner did not wake it. */
  lemma {:induction false} StrandedStays(m: Mode, q: Info, k: nat, a: nat, e: Event)
    requires m.Ok() && Binding(q) && AllInSync(q) && Stranded(q, k) && a in q.store
    ensures var p := Apply(m, q, a, e);
      p.mq == q.mq && p.flows == q.flows && |p.queues| == |q.queues| && !p.queues[q.flows[k].mq]
  {
    hide Step;
    var j := q.flows[k].mq;
    assert FlowOk(q, q.flows[k]);
    forall b | b in q.store
      ensures q.store[b].mq != j && q.store[b].ackMq != j
    {
      assert BoundOk(q, b);
    }
    ApplyFramed(m, q, a, e);
  }

  /** Two bearers with flows on slot 1: the first owns it, runs out of grant and is rebound elsewhere. */
  function StrandOps(): seq<Op> {
    [AddFlow(2, 11, 2, 1), FlowStatus(1, Status(0, 7, None, false, false, false, false)), AddFlow(3, 10, 2, 3)]
  }

  /** The first bearer's flow and a second bearer's flow on the same slot. */
  lemma {:induction false} SharedSlot(m: Mode, q: Info)
    requires m.Ok() && Binding(q) && AllInSync(q) && q.order == [0] && |q.queues| == 31
    requires q.store == map[0 := NewBearer(m, 1, 1).(mq := 1, ackMq := 16)] && q.mq == Initial(31).mq[1 := Some(0)]
    requires q.flows == [Flow(10, 2, 1, 1, 0)] && q.next == 1
    ensures var p := AddStep(m, q, 2, 11, 2, 1);
      && p.flows == [Flow(11, 2, 2, 1, 1), Flow(10, 2, 1, 1, 0)] && p.order == [1, 0] && p.mq == q.mq
      && p.store.Keys == {0, 1} && p.store[0] == q.store[0] && p.store[1] == NewBearer(m, 2, 1)
      && p.next == 2 && |p.queues| == 31
  {
    assert q.flows[1..] == [];
    assert FindFlow(q.flows, 11, 2) == None;
    assert q.order[1..] == [];
    assert FindBearer(q.order, q.store, 2) == None;
    assert With(q.flows, 0, Flow(11, 2, 2, 1, 1)) == [Flow(11, 2, 2, 1, 1), Flow(10, 2, 1, 1, 0)];
    assert [1] + q.order == [1, 0];
  }

  /** The first bearer runs out of grant and its queue stops. */
  lemma {:induction false} SharedStops(m: Mode, q: Info)
    requires m.Ok() && Binding(q) && AllInSync(q) && |q.queues| == 31 && 0 in q.store
    requires q.store[0] == NewBearer(m, 1, 1).(mq := 1, ackMq := 16)
    ensures var s := Status(0, 7, None, false, false, false, false);
      var p := StatusStep(m, q, 1, s);
      && SameFlows(q, p) && p.mq == q.mq && p.order == q.order && p.store.Keys == q.store.Keys && p.next == q.next
      && !p.queues[1] && p.store[0].flowRef == 1 && (forall a :: a in q.store && a != 0 ==> p.store[a] == q.store[a])
  {
    var s := Status(0, 7, None, false, false, false, false);
    GetOwn(m, q, 0);
    assert q.store[0].id == 1;
    ApplyFramed(m, q, 0, Update(s));
    ApplySame(m, q, 0, Update(s));
    var l := Link(q.store[0], q.queues, q.sent);
    assert BoundOk(q, 0) && InSync(q.store[0], q.queues);
    StepSyncs(m, l, Update(s));
    StepBearer(m, l, Update(s));
    hide Step, Binding, AllInSync, GetBearer, BearerFor;
    assert StatusStep(m, q, 1, s) == Apply(m, q, 0, Update(s));
  }

  /** Its flow goes to a third bearer on slot 3; the first bearer is gone, and slot 1 with it, without a wake-up. */
  lemma {:induction false} ReboundAway(m: Mode, q: Info)
    requires m.Ok() && Binding(q) && AllInSync(q) && |q.queues| == 31 && !q.queues[1] && q.next == 2
    requires q.flows == [Flow(11, 2, 2, 1, 1), Flow(10, 2, 1, 1, 0)] && q.order == [1, 0] && q.store.Keys == {0, 1}
    requires q.store[0].flowRef == 1 && q.store[1] == NewBearer(m, 2, 1) && q.mq == Initial(31).mq[1 := Some(0)]
    ensures Stranded(AddStep(m, q, 3, 10, 2, 3), 0)
  {
    assert q.flows[1..] == [q.flows[1]] && q.flows[2..] == [];
    assert FindFlow(q.flows, 10, 2) == Some(1);
    var p := DropFlow(q, 1, false);
    assert p.flows == [q.flows[0]] && p.store.Keys == {1} && p.store[1] == q.store[1];
    assert p.queues == q.queues && p.mq[1] == None && p.mq[3] == None && p.next == 2;
    DropFlowKeeps(q, 1, false);
    assert q.order[1..] == [0] && [0][1..] == [];
    assert Unlink([0], 0) == [] && p.order == [1];
    assert [1][1..] == [];
    assert FindBearer(p.order, p.store, 3) == None;
    var f := Flow(10, 2, 3, 3, 0);
    assert With(p.flows, 1, f.(bearer := 2)) == [q.flows[0], f.(bearer := 2)];
    hide Binding, AllInSync, DropFlow;
  }

  /** A run from the initial state that strands a flow. */
  lemma {:induction false} StrandedFlow(m: Mode)
    requires m.Ok()
    ensures exists r :: Reaches(m, Initial(31), [AddFlow(1, 10, 2, 1)] + StrandOps(), r) && Stranded(r, 0)
  {
    var q0, op, ops := Initial(31), AddFlow(1, 10, 2, 1), StrandOps();
    OneFlow(m);
    QosStepKeeps(m, q0, op);
    var q1 := QosStep(m, q0, op);
    StrandRun(m, q1);
    hide QosStep, Binding, AllInSync;
    ReachesThree(m, q1, ops[0], ops[1], ops[2]);
    assert ops == [ops[0], ops[1], ops[2]];
    var r := QosStep(m, QosStep(m, QosStep(m, q1, ops[0]), ops[1]), ops[2]);
    ReachesCons(m, q0, op, ops, r);
  }

  lemma {:induction false} StrandRun(m: Mode, q: Info)
    requires m.Ok() && Binding(q) && AllInSync(q) && q.order == [0] && |q.queues| == 31
    requires q.store == map[0 := NewBearer(m, 1, 1).(mq := 1, ackMq := 16)] && q.mq == Initial(31).mq[1 := Some(0)]
    requires q.flows == [Flow(10, 2, 1, 1, 0)] && q.next == 1
    ensures var a, b, c := StrandOps()[0], StrandOps()[1], StrandOps()[2];
      var p := QosStep(m, q, a);
      && Binding(p) && AllInSync(p) && Binding(QosStep(m, p, b)) && AllInSync(QosStep(m, p, b))
      && Stranded(QosStep(m, QosStep(m, p, b), c), 0)
  {
    var ops := StrandOps();
    hide Binding, AllInSync, AddStep, StatusStep, Stranded;
    SharedSlot(m, q);
    QosStepKeeps(m, q, ops[0]);
    var p := QosStep(m, q, ops[0]);
    SharedStops(m, p);
    QosStepKeeps(m, p, ops[1]);
    ReboundAway(m, QosStep(m, p, ops[1]));
  }

  lemma {:induction false} ReachesCons(m: Mode, q: Info, op: Op, ops: seq<Op>, r: Info)
    requires m.Ok() && Binding(q) && AllInSync(q)
    requires Binding(QosStep(m, q, op)) && AllInSync(QosStep(m, q, op)) && Reaches(m, QosStep(m, q, op), ops, r)
    ensures Reaches(m, q, [op] + ops, r)
  {
    hide QosStep, Binding, AllInSync;
    assert ([op] + ops)[1..] == ops;
  }
}
