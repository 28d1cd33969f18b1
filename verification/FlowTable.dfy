/** The flows of a qos_info as a table, and the queues that adding and deleting flows set. */
module FlowTable {
  import opened Bytes
  import opened AddressLists
  import opened Dfc
  import opened Qos
  import opened QosSlots

  // The table of flows

  /** One entry per flow: its key, and the bearer id and queue it was given. */
  datatype Row = Row(id: u32, ipType: int, bearerId: u8, mq: nat)

  function RowOf(f: Flow): Row { Row(f.id, f.ipType, f.bearerId, f.mq) }

  function Table(flows: seq<Flow>): set<Row> {
    if flows == [] then {} else {RowOf(flows[0])} + Table(flows[1..])
  }

  function Others(t: set<Row>, id: u32, ipType: int): set<Row> {
    set r | r in t && !(r.id == id && r.ipType == ipType)
  }

  /** What an operation does to the table. */
  function TableStep(t: set<Row>, op: Op): set<Row> {
    match op
    case AddFlow(bearerId, flowId, ipType, mq) =>
      if mq < 16 then Others(t, flowId, ipType) + {Row(flowId, ipType, bearerId, mq)} else t
    case DelFlow(flowId, ipType) => Others(t, flowId, ipType)
    case _ => t
  }

  function TableRun(t: set<Row>, ops: seq<Op>): set<Row>
    decreases |ops|
  {
    if ops == [] then t else TableRun(TableStep(t, ops[0]), ops[1..])
  }

  lemma {:induction false} TableHas(flows: seq<Flow>, r: Row)
    ensures r in Table(flows) <==> exists k :: 0 <= k < |flows| && RowOf(flows[k]) == r
  {
    if flows != [] {
      var rest := flows[1..];
      TableHas(rest, r);
      if r in Table(rest) {
        var k :| 0 <= k < |rest| && RowOf(rest[k]) == r;
        assert flows[k + 1] == rest[k];
      }
      if k :| 0 <= k < |flows| && RowOf(flows[k]) == r {
        if k != 0 {
          assert rest[k - 1] == flows[k];
        }
      }
    }
  }

  lemma {:induction false} TableConcat(a: seq<Flow>, b: seq<Flow>)
    ensures Table(a + b) == Table(a) + Table(b)
  {
    if a == [] {
      assert a + b == b;
    } else {
      assert (a + b)[1..] == a[1..] + b;
      TableConcat(a[1..], b);
    }
  }

  lemma {:induction false} TableWith(flows: seq<Flow>, i: nat, f: Flow)
    requires i <= |flows|
    ensures Table(With(flows, i, f)) == Table(flows) + {RowOf(f)}
  {
    TableConcat(flows[..i] + [f], flows[i..]);
    TableConcat(flows[..i], [f]);
    TableConcat(flows[..i], flows[i..]);
    assert flows[..i] + flows[i..] == flows && [f][1..] == [];
  }

  lemma {:induction false} TableFresh(flows: seq<Flow>, id: u32, ipType: int)
    requires forall k :: 0 <= k < |flows| ==> !SameKey(flows[k], id, ipType)
    ensures Others(Table(flows), id, ipType) == Table(flows)
  {
    forall r | r in Table(flows)
      ensures !(r.id == id && r.ipType == ipType)
    {
      TableHas(flows, r);
    }
  }

  lemma {:induction false} TableWithout(flows: seq<Flow>, i: nat)
    requires KeysUnique(flows) && i < |flows|
    ensures Table(Without(flows, i)) == Others(Table(flows), flows[i].id, flows[i].ipType)
  {
    var w, f := Without(flows, i), flows[i];
    KeysWithout(flows, i);
    TableFresh(w, f.id, f.ipType);
    TableWith(w, i, f);
    assert With(w, i, f) == flows;
    assert Others(Table(w) + {RowOf(f)}, f.id, f.ipType) == Others(Table(w), f.id, f.ipType);
  }

  lemma InsertFlows(m: Mode, q: Info, i: nat, f: Flow)
    requires m.Ok() && i <= |q.flows| && f.mq < |q.mq| && forall a :: a in q.order ==> a in q.store
    ensures InsertFlow(m, q, i, f).flows == With(q.flows, i, f.(bearer := BearerFor(q, f.bearerId)))
  {
  }

  lemma {:induction false} DelTable(q: Info, flowId: u32, ipType: int)
    requires Binding(q)
    ensures Table(DelStep(q, flowId, ipType).flows) == Others(Table(q.flows), flowId, ipType)
    ensures forall k :: 0 <= k < |DelStep(q, flowId, ipType).flows| ==>
      !SameKey(DelStep(q, flowId, ipType).flows[k], flowId, ipType)
  {
    hide DropFlow;
    var i := FindFlow(q.flows, flowId, ipType);
    if i.Some? {
      FlowBearer(q, i.value);
      DropFlowFlows(q, i.value, true);
      TableWithout(q.flows, i.value);
      KeysWithout(q.flows, i.value);
    } else {
      TableFresh(q.flows, flowId, ipType);
    }
    hide Binding, Without, KeysUnique, Others, Table;
  }

  lemma {:induction false} AddTable(m: Mode, q: Info, bearerId: u8, flowId: u32, ipType: int, mq: nat)
    requires m.Ok() && Binding(q) && AllInSync(q)
    ensures Table(AddStep(m, q, bearerId, flowId, ipType, mq).flows)
         == TableStep(Table(q.flows), AddFlow(bearerId, flowId, ipType, mq))
  {
    Listed(q);
    hide AllInSync, DropFlow, InsertFlow, DelStep, Table, Others;
    var f := Flow(flowId, ipType, bearerId, mq, 0);
    var i := FindFlow(q.flows, flowId, ipType);
    if mq >= MAX_MQ {
    } else if i.None? {
      TableFresh(q.flows, flowId, ipType);
      InsertTable(m, q, 0, f);
    } else if q.flows[i.value].bearerId != bearerId {
      DropFlowKeeps(q, i.value, false);
      DropFlowFlows(q, i.value, false);
      TableWithout(q.flows, i.value);
      InsertTable(m, DropFlow(q, i.value, false), i.value, f);
    } else if q.flows[i.value].mq != mq {
      DelKeeps(q, flowId, ipType);
      DelTable(q, flowId, ipType);
      InsertTable(m, DelStep(q, flowId, ipType), 0, f);
    } else {
      RowStays(q.flows, i.value);
    }
  }

  lemma {:induction false} InsertTable(m: Mode, q: Info, i: nat, f: Flow)
    requires m.Ok() && Binding(q) && i <= |q.flows| && f.mq < MAX_MQ
    ensures Table(InsertFlow(m, q, i, f).flows) == Table(q.flows) + {RowOf(f)}
  {
    InsertFlows(m, q, i, f);
    TableWith(q.flows, i, f.(bearer := BearerFor(q, f.bearerId)));
  }

  lemma {:induction false} RowStays(flows: seq<Flow>, i: nat)
    requires KeysUnique(flows) && i < |flows|
    ensures Table(flows) == Others(Table(flows), flows[i].id, flows[i].ipType) + {RowOf(flows[i])}
  {
    TableWithout(flows, i);
    TableWith(Without(flows, i), i, flows[i]);
    assert With(Without(flows, i), i, flows[i]) == flows;
  }

  /** Over every run the flows are the table of the additions and deletions in it. */
  lemma {:induction false} RunTable(m: Mode, q: Info, ops: seq<Op>, r: Info)
    requires m.Ok() && Binding(q) && AllInSync(q) && Reaches(m, q, ops, r)
    ensures Table(r.flows) == TableRun(Table(q.flows), ops) && KeysUnique(r.flows)
    decreases |ops|
  {
    ReachableKeeps(m, q, ops, r);
    if ops != [] {
      StepTable(m, q, ops[0]);
      QosStepKeeps(m, q, ops[0]);
      hide QosStep, Table, TableStep, Binding, AllInSync, KeysUnique;
      RunTable(m, QosStep(m, q, ops[0]), ops[1..], r);
    }
  }

  lemma {:induction false} StepTable(m: Mode, q: Info, op: Op)
    requires m.Ok() && Binding(q) && AllInSync(q)
    ensures Table(QosStep(m, q, op).flows) == TableStep(Table(q.flows), op)
  {
    hide Binding, AllInSync, AddStep, DelStep, Table, Others;
    if op.AddFlow? {
      AddTable(m, q, op.bearerId, op.flowId, op.ipType, op.mq);
    } else if op.DelFlow? {
      DelTable(q, op.flowId, op.ipType);
    } else {
      SteadyStep(m, q, op);
      hide QosStep;
    }
  }

  // Queues set by deleting a flow

  /** Some other flow uses the bearer of flow i. */
  predicate Shared(q: Info, i: nat)
    requires i < |q.flows|
  {
    exists k :: 0 <= k < |q.flows| && k != i && q.flows[k].bearer == q.flows[i].bearer
  }

  lemma {:induction false} SharedRefs(q: Info, i: nat)
    requires Binding(q) && i < |q.flows|
    ensures q.flows[i].bearer in q.store
    ensures q.store[q.flows[i].bearer].flowRef > 1 <==> Shared(q, i)
    ensures q.store[q.flows[i].bearer].flowRef >= 1
  {
    var a, w := q.flows[i].bearer, Without(q.flows, i);
    assert FlowOk(q, q.flows[i]);
    RefsWithout(q.flows, i, a);
    assert forall k :: 0 <= k < |w| ==> w[k] == q.flows[if k < i then k else k + 1];
    if Shared(q, i) {
      var k :| 0 <= k < |q.flows| && k != i && q.flows[k].bearer == a;
      RefsPositive(w, if k < i then k else k - 1, a);
    } else {
      RefsNone(w, a);
    }
  }

  /** Queue j belongs to a slot that bearer a owns: the slot's own queue, or its ack queue fifteen above. */
  predicate OwnsQueue(q: Info, a: nat, j: nat) {
    exists i :: 0 <= i < |q.mq| && q.mq[i] == Some(a) && (j == i || j == i + 15)
  }

  /**
   * Deleting a flow: as long as flows are left, if it was the last of its bearer, that bearer and its slots are given
   * up and the queues of these slots run; other queues, and all queues if its bearer stays, are as they were.
   */
  lemma {:induction false} DelQueues(m: Mode, q: Info, i: nat)
    requires m.Ok() && Binding(q) && AllInSync(q) && i < |q.flows|
    ensures var f := q.flows[i];
      var p := QosStep(m, q, DelFlow(f.id, f.ipType));
      && (f.bearer in p.store <==> Shared(q, i))
      && |p.mq| == |q.mq| && |p.queues| == |q.queues|
      && (forall s :: 0 <= s < |q.mq| ==>
            p.mq[s] == if q.mq[s] == Some(f.bearer) && !Shared(q, i) then None else q.mq[s])
      && (forall j :: 0 <= j < |q.queues| && |q.flows| > 1 ==>
            p.queues[j] == (q.queues[j] || (!Shared(q, i) && OwnsQueue(q, f.bearer, j))))
  {
    OwnFlow(q, i);
    DropGivesUp(q, i, true);
    DropFlowFlows(q, i, true);
    assert QosStep(m, q, DelFlow(q.flows[i].id, q.flows[i].ipType)) == DelStep(q, q.flows[i].id, q.flows[i].ipType);
    hide FindFlow, Binding, AllInSync, Shared, OwnsQueue, QosStep, DropFlow;
  }

  /** Dropping a flow: what its bearer gives up with the last one, and what of that is woken. */
  lemma {:induction false} DropGivesUp(q: Info, i: nat, reset: bool)
    requires Binding(q) && i < |q.flows|
    ensures var f := q.flows[i];
      f.bearer in q.store &&
      var p := DropFlow(q, i, reset);
      && (f.bearer in p.store <==> Shared(q, i))
      && |p.mq| == |q.mq| && |p.queues| == |q.queues|
      && (forall s :: 0 <= s < |q.mq| ==>
            p.mq[s] == if q.mq[s] == Some(f.bearer) && !Shared(q, i) then None else q.mq[s])
      && (forall j :: 0 <= j < |q.queues| ==>
            p.queues[j] == (q.queues[j] || (reset && !Shared(q, i) && OwnsQueue(q, f.bearer, j))))
  {
    var a := q.flows[i].bearer;
    SharedRefs(q, i);
    forall j | 0 <= j < |q.queues|
      ensures Serves(q.mq, a, j) <==> OwnsQueue(q, a, j)
    {
      ServesOwned(q, a, j);
    }
    hide Binding, Shared, OwnsQueue, Serves, Unlink, Without;
  }

  lemma {:induction false} ServesOwned(q: Info, a: nat, j: nat)
    ensures Serves(q.mq, a, j) <==> OwnsQueue(q, a, j)
  {
    if Serves(q.mq, a, j) {
      var i := if j < |q.mq| && q.mq[j] == Some(a) then j else j - ACK_OFFSET;
      assert q.mq[i] == Some(a);
    }
  }

  /** With the last flow gone every queue runs. */
  lemma {:induction false} DelLastWakes(m: Mode, q: Info, i: nat)
    requires m.Ok() && Binding(q) && AllInSync(q) && |q.flows| == 1 && i == 0
    ensures var p := QosStep(m, q, DelFlow(q.flows[i].id, q.flows[i].ipType));
      p.flows == [] && forall j :: 0 <= j < |p.queues| ==> p.queues[j]
  {
    OwnFlow(q, i);
    FlowBearer(q, i);
    DropFlowFlows(q, i, true);
    hide DropFlow, Binding, AllInSync;
  }

  // Queues set by adding a flow

  /** A flow added takes its slot if that is free: both queues of it then run exactly if the bearer has a grant. */
  lemma {:induction false} InsertQueues(m: Mode, q: Info, i: nat, f: Flow)
    requires m.Ok() && Binding(q) && i <= |q.flows| && f.mq < MAX_MQ
    ensures var a, p := BearerFor(q, f.bearerId), InsertFlow(m, q, i, f);
      && a in p.store && p.store[a].id == f.bearerId
      && p.store[a].grant == (if a in q.store then q.store[a].grant else 20480)
      && Seated(q.mq, q.queues, p, a, f.mq)
  {
    GetBearerFacts(m, q, f.bearerId, 1);
    NextFresh(q);
    GetBearerSlots(m, q, f.bearerId, 1);
    GetBearerGrant(m, q, f.bearerId, 1);
    TakeSeats(Inserted(m, q, i, f), BearerFor(q, f.bearerId), f.mq);
    hide Binding, GetBearer, BearerFor, ListOk, IdsUnique, Refs, With, TakeSlot, Seated;
  }

  lemma TakeSeats(q: Info, a: nat, slot: nat)
    requires a in q.store && slot < |q.mq|
    ensures var p := TakeSlot(q, a, slot);
      Seated(q.mq, q.queues, p, a, slot) && p.store[a].grant == q.store[a].grant && p.store[a].id == q.store[a].id
  {
  }

  /** The slots and queues of p, where slot mq was offered to bearer a, and those before. */
  predicate Seated(slots: seq<Option<nat>>, queues: seq<bool>, p: Info, a: nat, mq: nat) {
    && mq < |slots| == |p.mq| && |queues| == |p.queues| && a in p.store
    && var taken := mq != 0 && slots[mq].None?;
       && (taken ==> p.mq == slots[mq := Some(a)] && p.store[a].mq == mq && p.store[a].ackMq == mq + 15)
       && (!taken ==> p.mq == slots)
       && (forall j :: 0 <= j < |queues| ==>
             p.queues[j] == if taken && (j == mq || j == mq + 15) then p.store[a].grant > 0 else queues[j])
  }

  lemma GetBearerGrant(m: Mode, q: Info, id: u8, refs: nat)
    requires m.Ok() && q.next !in q.store && forall a :: a in q.order ==> a in q.store
    ensures var p, a := GetBearer(m, q, id, refs), BearerFor(q, id);
      a in p.store && p.store[a].grant == if a in q.store then q.store[a].grant else 20480
  {
  }

  /** Slots once the flow with this key, if there is one, has left its bearer. */
  predicate LeftSlots(q: Info, flowId: u32, ipType: int, slots: seq<Option<nat>>) {
    && |slots| == |q.mq|
    && forall s :: 0 <= s < |slots| ==> slots[s] == if GivenUp(q, flowId, ipType, s) then None else q.mq[s]
  }

  /** Slot s is owned by the bearer that has this flow and no other. */
  predicate GivenUp(q: Info, flowId: u32, ipType: int, s: nat)
    requires s < |q.mq|
  {
    exists i :: 0 <= i < |q.flows| && SameKey(q.flows[i], flowId, ipType) && q.mq[s] == Some(q.flows[i].bearer)
                && !Shared(q, i)
  }

  /**
   * Adding a flow, or moving it to another bearer: slots given up in a move are not woken, and the slot asked for is
   * taken if it is then free. The bearer with this id is the old one if there is one, else a new one.
   */
  lemma {:induction false} AddQueues(m: Mode, q: Info, bearerId: u8, flowId: u32, ipType: int, mq: nat)
    returns (a: nat, slots: seq<Option<nat>>)
    requires m.Ok() && Binding(q) && AllInSync(q) && mq < 16
    requires forall i :: 0 <= i < |q.flows| && SameKey(q.flows[i], flowId, ipType) ==> q.flows[i].bearerId != bearerId
    ensures var p := QosStep(m, q, AddFlow(bearerId, flowId, ipType, mq));
      && a in p.store && p.store[a].id == bearerId
      && p.store[a].grant == (if a in q.store then q.store[a].grant else 20480)
      && LeftSlots(q, flowId, ipType, slots) && Seated(slots, q.queues, p, a, mq)
  {
    var f := Flow(flowId, ipType, bearerId, mq, 0);
    var i := FindFlow(q.flows, flowId, ipType);
    if i.None? {
      InsertQueues(m, q, 0, f);
      a, slots := BearerFor(q, bearerId), q.mq;
    } else {
      var k := i.value;
      DropFlowKeeps(q, k, false);
      DropGivesUp(q, k, false);
      var d := DropFlow(q, k, false);
      DropFlowFlows(q, k, false);
      InsertQueues(m, d, k, f);
      DropAddress(q, k, bearerId);
      a, slots := BearerFor(d, bearerId), d.mq;
      MovedSlots(q, k, flowId, ipType, slots);
      assert d.queues == q.queues;
    }
    hide DropFlow, Binding, AllInSync, InsertFlow, BearerFor, LeftSlots, Seated;
  }

  lemma {:induction false} DropAddress(q: Info, k: nat, id: u8)
    requires Binding(q) && k < |q.flows| && q.flows[k].bearer in q.store && Binding(DropFlow(q, k, false))
    ensures var d := DropFlow(q, k, false);
      var a := BearerFor(d, id);
      (a in d.store <==> a in q.store) && (a in d.store ==> d.store[a].grant == q.store[a].grant)
  {
    var d := DropFlow(q, k, false);
    assert forall b :: b in d.store ==> b in q.store && d.store[b].grant == q.store[b].grant;
    assert d.next == q.next;
    NextFresh(q);
    Listed(d);
    hide Binding, DropFlow;
  }

  lemma {:induction false} MovedSlots(q: Info, k: nat, flowId: u32, ipType: int, slots: seq<Option<nat>>)
    requires KeysUnique(q.flows) && k < |q.flows| && SameKey(q.flows[k], flowId, ipType) && |slots| == |q.mq|
    requires forall s :: 0 <= s < |q.mq| ==>
      slots[s] == if q.mq[s] == Some(q.flows[k].bearer) && !Shared(q, k) then None else q.mq[s]
    ensures LeftSlots(q, flowId, ipType, slots)
  {
    hide Shared;
    forall s | 0 <= s < |slots|
      ensures slots[s] == if GivenUp(q, flowId, ipType, s) then None else q.mq[s]
    {
      forall i | 0 <= i < |q.flows| && SameKey(q.flows[i], flowId, ipType)
        ensures i == k
      {
        OneKey(q.flows, i, k);
      }
    }
  }

  /** Asking for another queue under the same bearer is deleting the flow and adding it anew. */
  lemma {:induction false} MoveIsDelAdd(m: Mode, q: Info, i: nat, mq: nat)
    requires m.Ok() && Binding(q) && AllInSync(q) && i < |q.flows| && mq < 16 && mq != q.flows[i].mq
    ensures var f := q.flows[i];
      var d := QosStep(m, q, DelFlow(f.id, f.ipType));
      && Binding(d) && AllInSync(d)
      && var op := AddFlow(f.bearerId, f.id, f.ipType, mq); QosStep(m, q, op) == QosStep(m, d, op)
  {
    var f := q.flows[i];
    var g := Flow(f.id, f.ipType, f.bearerId, mq, 0);
    DelIs(m, q, f.id, f.ipType);
    AddIs(m, q, g);
    AddMoved(m, q, i, mq);
    DelTable(q, f.id, f.ipType);
    hide QosStep, DelStep, InsertFlow, AddStep, Binding, AllInSync;
    AddIs(m, DelStep(q, f.id, f.ipType), g);
    AddAbsent(m, DelStep(q, f.id, f.ipType), g);
  }

  lemma DelIs(m: Mode, q: Info, flowId: u32, ipType: int)
    requires m.Ok() && Binding(q) && AllInSync(q)
    ensures QosStep(m, q, DelFlow(flowId, ipType)) == DelStep(q, flowId, ipType)
  {
  }

  lemma AddIs(m: Mode, q: Info, f: Flow)
    requires m.Ok() && Binding(q) && AllInSync(q)
    ensures QosStep(m, q, AddFlow(f.bearerId, f.id, f.ipType, f.mq)) == AddStep(m, q, f.bearerId, f.id, f.ipType, f.mq)
  {
  }

  lemma {:induction false} AddMoved(m: Mode, q: Info, i: nat, mq: nat)
    requires m.Ok() && Binding(q) && AllInSync(q) && i < |q.flows| && mq < 16 && mq != q.flows[i].mq
    ensures var f := q.flows[i];
      var d := DelStep(q, f.id, f.ipType);
      && Binding(d) && AllInSync(d)
      && AddStep(m, q, f.bearerId, f.id, f.ipType, mq) == InsertFlow(m, d, 0, Flow(f.id, f.ipType, f.bearerId, mq, 0))
  {
    OwnFlow(q, i);
    DelKeeps(q, q.flows[i].id, q.flows[i].ipType);
    hide DelStep, InsertFlow, FindFlow, Binding, AllInSync;
  }

  lemma {:induction false} AddAbsent(m: Mode, q: Info, f: Flow)
    requires m.Ok() && Binding(q) && AllInSync(q) && f.mq < 16 && f.bearer == 0
    requires forall k :: 0 <= k < |q.flows| ==> !SameKey(q.flows[k], f.id, f.ipType)
    ensures AddStep(m, q, f.bearerId, f.id, f.ipType, f.mq) == InsertFlow(m, q, 0, f)
  {
    assert FindFlow(q.flows, f.id, f.ipType).None?;
    assert f == Flow(f.id, f.ipType, f.bearerId, f.mq, 0);
    hide InsertFlow, FindFlow, Binding, AllInSync;
  }

  // Operations on all bearers, or on one that may not exist

  /** Powersave wake gives every bearer whose TX is on a grant of one byte, which runs its queue. */
  lemma {:induction false} WakeAllGrants(m: Mode, q: Info)
    requires m.Ok() && Binding(q) && AllInSync(q)
    ensures var p := QosStep(m, q, WakeAll);
      forall a :: a in q.store ==>
        && a in p.store && p.store[a].grant == (if q.store[a].txOff then q.store[a].grant else 1)
        && !p.store[a].ratSwitch && p.store[a].mq == q.store[a].mq
        && (!q.store[a].txOff && Bound(q.store[a]) && q.store[a].mq < |p.queues| ==> p.queues[q.store[a].mq])
  {
    Listed(q);
    var p := QosStep(m, q, WakeAll);
    WakeEach(m, q, q.order);
    QosStepKeeps(m, q, WakeAll);
    hide QosStep, ApplyAll, Woken;
    forall a | a in q.store
      ensures Woken(q, p, a)
      ensures !q.store[a].txOff && Bound(q.store[a]) && q.store[a].mq < |p.queues| ==> p.queues[q.store[a].mq]
    {
      assert a in q.order;
      WokenRuns(q, p, a);
    }
  }

  predicate Woken(q: Info, p: Info, a: nat)
    requires a in q.store
  {
    && a in p.store && p.store[a].grant == (if q.store[a].txOff then q.store[a].grant else 1)
    && !p.store[a].ratSwitch && p.store[a].mq == q.store[a].mq && p.store[a].txOff == q.store[a].txOff
  }

  lemma WokenRuns(q: Info, p: Info, a: nat)
    requires a in q.store && Woken(q, p, a) && AllInSync(p)
    ensures !q.store[a].txOff && Bound(q.store[a]) && q.store[a].mq < |p.queues| ==> p.queues[q.store[a].mq]
  {
  }

  lemma {:induction false} WakeEach(m: Mode, q: Info, list: seq<nat>)
    requires m.Ok() && forall a :: a in list ==> a in q.store
    ensures var p := ApplyAll(m, q, list, Wake);
      forall a :: a in q.store ==> a in p.store && if a in list then Woken(q, p, a) else p.store[a] == q.store[a]
    decreases |list|
  {
    hide Step;
    if list != [] {
      var k := Apply(m, q, list[0], Wake);
      WakeOne(m, Link(q.store[list[0]], q.queues, q.sent));
      WakeEach(m, k, list[1..]);
      assert list == [list[0]] + list[1..];
    }
  }

  lemma {:induction false} WakeOne(m: Mode, l: Link)
    requires m.Ok()
    ensures var b := Step(m, l, Wake).b;
      b.grant == (if l.b.txOff then l.b.grant else 1) && !b.ratSwitch && b.mq == l.b.mq && b.txOff == l.b.txOff
  {
    StepBearer(m, l, Wake);
    hide Step, Mode.GrantPer, FlowCtl;
  }

  /** An end marker for a bearer id nobody has is confirmed at once, and changes nothing else. */
  lemma {:induction false} UnknownConfirmed(m: Mode, q: Info, id: u8, seqNo: u16, txid: u32)
    requires m.Ok() && Binding(q) && AllInSync(q) && forall a :: a in q.store ==> q.store[a].id != id
    ensures QosStep(m, q, Marker(id, seqNo, txid)) == q.(sent := q.sent + [Confirm(id, seqNo, txid)])
  {
    assert FindBearer(q.order, q.store, id).None?;
    hide FindBearer, Binding, AllInSync;
  }

  /** A flow status reaches the bearer with its id, which is created for it where there is none. */
  lemma {:induction false} StatusLands(m: Mode, q: Info, id: u8, s: Status) returns (a: nat)
    requires m.Ok() && Binding(q) && AllInSync(q)
    ensures var p := QosStep(m, q, FlowStatus(id, s));
      var b := if a in q.store then q.store[a] else NewBearer(m, id, 0);
      a in p.store && b.id == id && p.store[a] == Step(m, Link(b, q.queues, q.sent), Update(s)).b
  {
    GetBearerFacts(m, q, id, 0);
    GetBearerFrame(m, q, id);
    a := BearerFor(q, id);
    NextFresh(q);
    if a !in q.store {
      assert GetBearer(m, q, id, 0).store[a] == NewBearer(m, id, 0);
    }
    hide Step, GetBearer, BearerFor, Binding, NewBearer;
  }

  /** Bearer id 255 in a flow status stands for all bearers, any other for one; TX information always is for one. */
  lemma BroadcastOps(id: u8, c: QmapCmd)
    ensures IndOp(id, c).AllStatus? <==> c.txInfo.None? && id == 255
    ensures IndOp(id, c).FlowStatus? ==> IndOp(id, c).id == id
    ensures IndOp(id, c).TxStatus? ==> IndOp(id, c) == TxStatus(id, c.txInfo.value)
    ensures var r := RespOp(id, c);
      r.Some? ==> if id == 255 then r.value.AllStatus? else r.value.FlowStatus? && r.value.id == id
  {
  }
}
