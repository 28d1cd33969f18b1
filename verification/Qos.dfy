/** One qos_info in SA mode: flows, bearers and tx queues, and how the handlers bind them. */
module Qos {
  import opened Bytes
  import opened AddressLists
  import opened Dfc

  const MAX_MQ := 16
  const ACK_OFFSET := 15
  const DEFAULT_MQ := 0

  /** rmnet_flow_map; `bearer` is the address of its bearer. */
  datatype Flow = Flow(id: u32, ipType: int, bearerId: u8, mq: nat, bearer: nat)

  /**
   * qos_info: the flow list, the bearer list as addresses into the store, the owner of each mq slot, the tx queues of
   * the device, the messages sent, the bearer waiting to be freed, and the next fresh address.
   */
  datatype Info = Info(flows: seq<Flow>, order: seq<nat>, store: map<nat, Bearer>, mq: seq<Option<nat>>,
                       queues: seq<bool>, sent: seq<Msg>, removed: Option<nat>, next: nat)

  datatype Op =
    | Burst(flowId: u32, ipType: int, len: u32)
    | FlowStatus(id: u8, s: Status)
    | AllStatus(s: Status)
    | TxStatus(id: u8, on: bool)
    | TimerFires(a: nat)
    | WatchdogRuns(a: nat)
    | WakeAll
    | Marker(id: u8, seqNo: u16, txid: u32)
    | AddFlow(bearerId: u8, flowId: u32, ipType: int, mq: nat)
    | DelFlow(flowId: u32, ipType: int)

  /** How many flows point at the bearer. */
  function Refs(flows: seq<Flow>, a: nat): nat {
    if flows == [] then 0 else (if flows[0].bearer == a then 1 else 0) + Refs(flows[1..], a)
  }

  predicate SameKey(f: Flow, id: u32, ipType: int) { f.id == id && f.ipType == ipType }

  /** qmi_rmnet_get_flow_map: the first flow with this key. */
  function FindFlow(flows: seq<Flow>, id: u32, ipType: int): (r: Option<nat>)
    ensures r.Some? ==> r.value < |flows| && SameKey(flows[r.value], id, ipType)
    ensures r.None? ==> forall i :: 0 <= i < |flows| ==> !SameKey(flows[i], id, ipType)
  {
    if flows == [] then None
    else if SameKey(flows[0], id, ipType) then Some(0)
    else
      var r := FindFlow(flows[1..], id, ipType);
      if r.Some? then Some(r.value + 1) else None
  }

  /** qmi_rmnet_get_bearer_map: the first bearer of the list with this id. */
  function FindBearer(order: seq<nat>, store: map<nat, Bearer>, id: u8): (r: Option<nat>)
    requires forall a :: a in order ==> a in store
    ensures r.Some? ==> r.value in order && store[r.value].id == id
    ensures r.None? ==> forall a :: a in order ==> store[a].id != id
  {
    if order == [] then None
    else if store[order[0]].id == id then Some(order[0])
    else FindBearer(order[1..], store, id)
  }

  /** The bearer list has no duplicates and is what the store holds. */
  ghost predicate ListOk(q: Info) {
    && Distinct(q.order)
    && (forall a :: a in q.store <==> a in q.order)
    && (forall a :: a in q.store ==> a < q.next)
    && |q.mq| == MAX_MQ && |q.queues| <= INVALID_MQ
  }

  predicate IdsUnique(q: Info) {
    forall a, b :: a in q.store && b in q.store && a != b ==> q.store[a].id != q.store[b].id
  }

  predicate KeysUnique(flows: seq<Flow>) {
    forall i, j :: 0 <= i < j < |flows| ==> !SameKey(flows[i], flows[j].id, flows[j].ipType)
  }

  predicate FlowOk(q: Info, f: Flow) {
    f.bearer in q.store && q.store[f.bearer].id == f.bearerId && f.mq < MAX_MQ
  }

  predicate FlowsOk(q: Info) { forall i :: 0 <= i < |q.flows| ==> FlowOk(q, q.flows[i]) }

  predicate RefsOk(q: Info) { forall a :: a in q.store ==> q.store[a].flowRef == Refs(q.flows, a) }

  /** Owners of mq slots are listed bearers that some flow uses; the default queue has no owner. */
  predicate OwnersOk(q: Info)
    requires |q.mq| == MAX_MQ
  {
    && q.mq[DEFAULT_MQ].None?
    && forall i :: 0 <= i < MAX_MQ && q.mq[i].Some? ==> q.mq[i].value in q.store && q.store[q.mq[i].value].flowRef >= 1
  }

  /** A bound bearer owns its slot: data queues 1..15 and ack queues 16..30 never collide. */
  predicate BoundOk(q: Info, a: nat)
    requires |q.mq| == MAX_MQ && a in q.store
  {
    var b := q.store[a];
    if Bound(b) then 1 <= b.mq < MAX_MQ && q.mq[b.mq] == Some(a) && b.ackMq == b.mq + ACK_OFFSET
    else b.ackMq == INVALID_MQ
  }

  /** The binding invariant between operations. */
  ghost predicate Binding(q: Info) {
    && ListOk(q) && IdsUnique(q) && KeysUnique(q.flows) && FlowsOk(q) && RefsOk(q) && OwnersOk(q)
    && (forall a {:trigger BoundOk(q, a)} :: a in q.store ==> BoundOk(q, a))
    && q.removed.None?
  }

  /** Every bearer that owns a queue has it running exactly while it has a grant. */
  predicate AllInSync(q: Info) {
    forall a :: a in q.store ==> InSync(q.store[a], q.queues)
  }

  /** A handler of one bearer, within the whole. */
  function Apply(m: Mode, q: Info, a: nat, e: Event): Info
    requires m.Ok() && a in q.store
  {
    var r := Step(m, Link(q.store[a], q.queues, q.sent), e);
    q.(store := q.store[a := r.b], queues := r.queues, sent := r.sent)
  }

  /** Flows and lists stand where only slots, queues and other fields of bearers change. */
  lemma {:induction false} ListsKept(q: Info, r: Info)
    requires ListOk(q) && IdsUnique(q) && FlowsOk(q) && RefsOk(q) && |r.mq| == MAX_MQ && |r.queues| == |q.queues|
    requires r.flows == q.flows && r.order == q.order && r.next == q.next && r.store.Keys == q.store.Keys
    requires forall a :: a in q.store ==> r.store[a].flowRef == q.store[a].flowRef && r.store[a].id == q.store[a].id
    ensures ListOk(r) && IdsUnique(r) && FlowsOk(r) && RefsOk(r)
  {
    hide Refs, Distinct;
    forall i | 0 <= i < |r.flows|
      ensures FlowOk(r, r.flows[i])
    {
      assert FlowOk(q, q.flows[i]);
    }
  }

  lemma Listed(q: Info)
    requires Binding(q)
    ensures forall a :: a in q.order ==> a in q.store
  {
  }

  lemma {:induction false} FlowBearer(q: Info, i: nat)
    requires Binding(q) && i < |q.flows|
    ensures q.flows[i].bearer in q.store
  {
    assert FlowOk(q, q.flows[i]);
  }

  /** Looking for the id of a bearer finds that bearer. */
  lemma {:induction false} OwnBearer(q: Info, a: nat)
    requires Binding(q) && a in q.store
    ensures FindBearer(q.order, q.store, q.store[a].id) == Some(a)
  {
    var r := FindBearer(q.order, q.store, q.store[a].id);
    assert r.Some?;
  }

  /** Looking for the key of a flow finds that flow. */
  lemma {:induction false} OwnFlow(q: Info, k: nat)
    requires Binding(q) && k < |q.flows|
    ensures FindFlow(q.flows, q.flows[k].id, q.flows[k].ipType) == Some(k)
  {
    var r := FindFlow(q.flows, q.flows[k].id, q.flows[k].ipType);
    assert SameKey(q.flows[k], q.flows[k].id, q.flows[k].ipType);
    OneKey(q.flows, r.value, k);
  }

  lemma OneKey(flows: seq<Flow>, i: nat, k: nat)
    requires KeysUnique(flows) && i < |flows| && k < |flows| && SameKey(flows[i], flows[k].id, flows[k].ipType)
    ensures i == k
  {
  }

  /** Two bound bearers share no queue. */
  lemma {:induction false} NoCollision(q: Info, a: nat, b: nat)
    requires Binding(q) && a in q.store && b in q.store && a != b && Bound(q.store[a]) && Bound(q.store[b])
    ensures var x, y := q.store[a], q.store[b];
      x.mq != y.mq && x.ackMq != y.ackMq && x.mq != y.ackMq && x.ackMq != y.mq
  {
    assert BoundOk(q, a) && BoundOk(q, b);
  }

  /** A step of one bearer that stays local keeps the binding of all. */
  lemma {:induction false} ReplaceBinding(q: Info, a: nat, r: Link)
    requires Binding(q) && a in q.store && Local(Link(q.store[a], q.queues, q.sent), r)
    ensures Binding(q.(store := q.store[a := r.b], queues := r.queues, sent := r.sent))
  {
    var p := q.(store := q.store[a := r.b], queues := r.queues, sent := r.sent);
    assert p.store.Keys == q.store.Keys;
    ListsKept(q, p);
    hide ListOk, IdsUnique, FlowsOk, RefsOk, KeysUnique;
    forall c | c in p.store
      ensures BoundOk(p, c)
    {
      assert BoundOk(q, c);
    }
  }

  /** It keeps the synchrony of all. */
  lemma {:induction false} ReplaceSync(q: Info, a: nat, r: Link)
    requires Binding(q) && AllInSync(q) && a in q.store && Syncs(Link(q.store[a], q.queues, q.sent), r)
    ensures AllInSync(q.(store := q.store[a := r.b], queues := r.queues, sent := r.sent))
  {
    var p := q.(store := q.store[a := r.b], queues := r.queues, sent := r.sent);
    hide Binding, InSync;
    forall c | c in p.store
      ensures InSync(p.store[c], p.queues)
    {
      if c != a {
        OtherSync(q, a, r, c);
      }
    }
  }

  lemma {:induction false} OtherSync(q: Info, a: nat, r: Link, c: nat)
    requires Binding(q) && a in q.store && c in q.store && c != a && InSync(q.store[c], q.queues)
    requires Local(Link(q.store[a], q.queues, q.sent), r)
    ensures InSync(q.store[c], r.queues)
  {
    assert BoundOk(q, c) && BoundOk(q, a);
    if Bound(q.store[a]) && Bound(q.store[c]) {
      NoCollision(q, a, c);
    }
    hide Binding;
  }

  lemma {:induction false} ApplyKeeps(m: Mode, q: Info, a: nat, e: Event)
    requires m.Ok() && Binding(q) && AllInSync(q) && a in q.store
    ensures Binding(Apply(m, q, a, e)) && AllInSync(Apply(m, q, a, e))
    ensures Apply(m, q, a, e).order == q.order
  {
    hide Step, Syncs, InSync;
    var l := Link(q.store[a], q.queues, q.sent);
    assert BoundOk(q, a);
    StepSyncs(m, l, e);
    hide Binding, AllInSync;
    ReplaceSync(q, a, Step(m, l, e));
    SyncsLocal(l, Step(m, l, e));
    ReplaceBinding(q, a, Step(m, l, e));
  }

  lemma SyncsLocal(l: Link, r: Link)
    requires Syncs(l, r)
    ensures Local(l, r)
  {
  }

  // Flow lists

  function Without(flows: seq<Flow>, i: nat): seq<Flow>
    requires i < |flows|
  {
    flows[..i] + flows[i + 1..]
  }

  function With(flows: seq<Flow>, i: nat, f: Flow): seq<Flow>
    requires i <= |flows|
  {
    flows[..i] + [f] + flows[i..]
  }

  lemma {:induction false} RefsConcat(x: seq<Flow>, y: seq<Flow>, a: nat)
    ensures Refs(x + y, a) == Refs(x, a) + Refs(y, a)
  {
    if x == [] {
      assert x + y == y;
    } else {
      assert (x + y)[1..] == x[1..] + y;
      RefsConcat(x[1..], y, a);
    }
  }

  lemma {:induction false} RefsWith(flows: seq<Flow>, i: nat, f: Flow, a: nat)
    requires i <= |flows|
    ensures Refs(With(flows, i, f), a) == Refs(flows, a) + if f.bearer == a then 1 else 0
  {
    RefsConcat(flows[..i], [f], a);
    RefsConcat(flows[..i] + [f], flows[i..], a);
    RefsConcat(flows[..i], flows[i..], a);
    assert flows[..i] + flows[i..] == flows;
    assert Refs([f], a) == (if f.bearer == a then 1 else 0) + Refs([f][1..], a);
  }

  lemma {:induction false} RefsWithout(flows: seq<Flow>, i: nat, a: nat)
    requires i < |flows|
    ensures Refs(Without(flows, i), a) == Refs(flows, a) - if flows[i].bearer == a then 1 else 0
  {
    RefsWith(Without(flows, i), i, flows[i], a);
    assert With(Without(flows, i), i, flows[i]) == flows;
  }

  lemma {:induction false} RefsPositive(flows: seq<Flow>, i: nat, a: nat)
    requires i < |flows| && flows[i].bearer == a
    ensures Refs(flows, a) >= 1
  {
    if i > 0 {
      RefsPositive(flows[1..], i - 1, a);
    }
  }

  lemma {:induction false} KeysWithout(flows: seq<Flow>, i: nat)
    requires KeysUnique(flows) && i < |flows|
    ensures KeysUnique(Without(flows, i))
    ensures forall k :: 0 <= k < |Without(flows, i)| ==> !SameKey(Without(flows, i)[k], flows[i].id, flows[i].ipType)
    ensures forall k :: 0 <= k < |Without(flows, i)| ==> Without(flows, i)[k] in flows
  {
    var w := Without(flows, i);
    forall k | 0 <= k < |w|
      ensures w[k] == flows[if k < i then k else k + 1]
    {
    }
  }

  lemma {:induction false} KeysWith(flows: seq<Flow>, i: nat, f: Flow)
    requires KeysUnique(flows) && i <= |flows| && forall k :: 0 <= k < |flows| ==> !SameKey(flows[k], f.id, f.ipType)
    ensures KeysUnique(With(flows, i, f))
    ensures forall k :: 0 <= k < |With(flows, i, f)| ==> With(flows, i, f)[k] == f || With(flows, i, f)[k] in flows
  {
    var w := With(flows, i, f);
    forall k | 0 <= k < |w|
      ensures w[k] == if k < i then flows[k] else if k == i then f else flows[k - 1]
    {
    }
  }

  // Putting a bearer

  function Disown(mq: seq<Option<nat>>, a: nat): seq<Option<nat>> {
    seq(|mq|, i requires 0 <= i < |mq| => if mq[i] == Some(a) then None else mq[i])
  }

  /** Queue j is the data or the ack queue of a slot owned by a. */
  predicate Serves(mq: seq<Option<nat>>, a: nat, j: nat) {
    (j < |mq| && mq[j] == Some(a)) || (ACK_OFFSET <= j && j - ACK_OFFSET < |mq| && mq[j - ACK_OFFSET] == Some(a))
  }

  function ResetQueues(mq: seq<Option<nat>>, a: nat, queues: seq<bool>): seq<bool> {
    seq(|queues|, j requires 0 <= j < |queues| => queues[j] || Serves(mq, a, j))
  }

  /** Drop flow i and one reference of its bearer; the last reference frees the bearer and its slots. */
  function DropFlow(q: Info, i: nat, reset: bool): Info
    requires i < |q.flows| && q.flows[i].bearer in q.store
  {
    var a := q.flows[i].bearer;
    var b := q.store[a].(flowRef := q.store[a].flowRef - 1);
    var p := q.(flows := Without(q.flows, i));
    if b.flowRef != 0 then p.(store := q.store[a := b])
    else
      p.(store := q.store - {a}, order := Unlink(q.order, a), mq := Disown(q.mq, a),
         queues := if reset then ResetQueues(q.mq, a, q.queues) else q.queues)
  }

  lemma {:induction false} DropFlowCommon(q: Info, i: nat, reset: bool)
    requires Binding(q) && i < |q.flows|
    ensures q.flows[i].bearer in q.store && q.store[q.flows[i].bearer].flowRef >= 1
    ensures var p := DropFlow(q, i, reset);
      && KeysUnique(p.flows)
      && (forall k :: 0 <= k < |p.flows| ==> p.flows[k] in q.flows)
      && (forall a :: Refs(p.flows, a) == Refs(q.flows, a) - if q.flows[i].bearer == a then 1 else 0)
  {
    assert FlowOk(q, q.flows[i]);
    RefsPositive(q.flows, i, q.flows[i].bearer);
    KeysWithout(q.flows, i);
    forall a
      ensures Refs(Without(q.flows, i), a) == Refs(q.flows, a) - if q.flows[i].bearer == a then 1 else 0
    {
      RefsWithout(q.flows, i, a);
    }
  }

  /** Dropping a flow of a bearer that keeps others. */
  lemma {:induction false} DropSharedKeeps(q: Info, i: nat, reset: bool)
    requires Binding(q) && AllInSync(q) && i < |q.flows| && q.flows[i].bearer in q.store
    requires q.store[q.flows[i].bearer].flowRef > 1
    ensures Binding(DropFlow(q, i, reset)) && AllInSync(DropFlow(q, i, reset))
  {
    DropFlowCommon(q, i, reset);
    var p := DropFlow(q, i, reset);
    var a := q.flows[i].bearer;
    assert p == q.(flows := p.flows, store := q.store[a := q.store[a].(flowRef := q.store[a].flowRef - 1)]);
    hide Refs, DropFlow, Distinct, Without;
    DropSharedBound(q, p, a);
    hide InSync, BoundOk;
    forall k | 0 <= k < |p.flows|
      ensures FlowOk(p, p.flows[k])
    {
      var n :| 0 <= n < |q.flows| && q.flows[n] == p.flows[k];
      assert FlowOk(q, q.flows[n]);
    }
  }

  /** References matter neither to slots, as long as one is left, nor to queues. */
  lemma {:induction false} DropSharedBound(q: Info, p: Info, a: nat)
    requires Binding(q) && AllInSync(q) && a in q.store && q.store[a].flowRef > 1
    requires p == q.(flows := p.flows, store := q.store[a := q.store[a].(flowRef := q.store[a].flowRef - 1)])
    ensures |p.mq| == MAX_MQ && OwnersOk(p) && AllInSync(p)
    ensures forall c {:trigger BoundOk(p, c)} :: c in p.store ==> BoundOk(p, c)
  {
    hide Refs, InSync, Distinct;
    forall c | c in p.store
      ensures BoundOk(p, c) && InSync(p.store[c], p.queues)
    {
      assert BoundOk(q, c) && InSync(q.store[c], q.queues);
      SyncIgnoresRefs(q.store[c], p.store[c], q.queues);
    }
  }

  lemma SyncIgnoresRefs(b: Bearer, c: Bearer, queues: seq<bool>)
    requires SameSlot(b, c)
    ensures InSync(b, queues) <==> InSync(c, queues)
  {
  }

  predicate LastFlow(q: Info, i: nat) {
    i < |q.flows| && q.flows[i].bearer in q.store && q.store[q.flows[i].bearer].flowRef == 1
  }

  lemma {:induction false} DropLastFlows(q: Info, i: nat, reset: bool)
    requires Binding(q) && LastFlow(q, i)
    ensures FlowsOk(DropFlow(q, i, reset))
  {
    DropFlowCommon(q, i, reset);
    var a := q.flows[i].bearer;
    var p := DropFlow(q, i, reset);
    assert Refs(p.flows, a) == 0;
    assert p.store == q.store - {a} && FlowsOk(q);
    hide DropFlow, Binding, Refs, Without;
    forall k | 0 <= k < |p.flows|
      ensures FlowOk(p, p.flows[k])
    {
      var n :| 0 <= n < |q.flows| && q.flows[n] == p.flows[k];
      assert FlowOk(q, q.flows[n]);
      if p.flows[k].bearer == a {
        RefsPositive(p.flows, k, a);
      }
    }
  }

  lemma {:induction false} DropLastLists(q: Info, i: nat, reset: bool)
    requires Binding(q) && LastFlow(q, i)
    ensures var p := DropFlow(q, i, reset); ListOk(p) && IdsUnique(p) && RefsOk(p) && p.removed.None?
  {
    DropFlowCommon(q, i, reset);
    var a := q.flows[i].bearer;
    UnlinkDistinct(q.order, a);
    hide Refs, Without, Distinct, FlowsOk, OwnersOk, BoundOk;
  }

  lemma {:induction false} DropLastOwners(q: Info, i: nat, reset: bool)
    requires Binding(q) && LastFlow(q, i)
    ensures var p := DropFlow(q, i, reset);
      |p.mq| == MAX_MQ && OwnersOk(p) && forall c {:trigger BoundOk(p, c)} :: c in p.store ==> BoundOk(p, c)
  {
    hide Refs, Without, Distinct, FlowsOk, RefsOk, IdsUnique;
    var p := DropFlow(q, i, reset);
    forall c | c in p.store
      ensures BoundOk(p, c)
    {
      assert BoundOk(q, c);
    }
  }

  /** Dropping the last flow of a bearer. */
  lemma {:induction false} DropLastBinding(q: Info, i: nat, reset: bool)
    requires Binding(q) && LastFlow(q, i)
    ensures Binding(DropFlow(q, i, reset))
  {
    DropFlowCommon(q, i, reset);
    DropLastFlows(q, i, reset);
    DropLastLists(q, i, reset);
    DropLastOwners(q, i, reset);
    hide DropFlow, Refs, Without, Distinct, FlowsOk, RefsOk, IdsUnique, OwnersOk, ListOk, BoundOk;
  }

  /** Waking the queues of a leaves the queues of another bearer alone. */
  lemma {:induction false} ResetSpares(q: Info, a: nat, c: nat)
    requires |q.mq| == MAX_MQ && q.mq[DEFAULT_MQ].None? && a != c && c in q.store && BoundOk(q, c)
    requires InSync(q.store[c], q.queues)
    ensures InSync(q.store[c], ResetQueues(q.mq, a, q.queues))
  {
    var b := q.store[c];
    if Bound(b) {
      assert !Serves(q.mq, a, b.mq) && !Serves(q.mq, a, b.ackMq);
    }
  }

  lemma {:induction false} DropLastSync(q: Info, i: nat, reset: bool)
    requires Binding(q) && AllInSync(q) && LastFlow(q, i)
    ensures AllInSync(DropFlow(q, i, reset))
  {
    var a := q.flows[i].bearer;
    var p := DropFlow(q, i, reset);
    hide InSync, ResetQueues;
    forall c | c in p.store
      ensures InSync(p.store[c], p.queues)
    {
      assert BoundOk(q, c) && InSync(q.store[c], q.queues) && q.mq[DEFAULT_MQ].None?;
      ResetSpares(q, a, c);
    }
  }

  lemma {:induction false} DropFlowKeeps(q: Info, i: nat, reset: bool)
    requires Binding(q) && AllInSync(q) && i < |q.flows|
    ensures q.flows[i].bearer in q.store
    ensures Binding(DropFlow(q, i, reset)) && AllInSync(DropFlow(q, i, reset))
  {
    DropFlowCommon(q, i, reset);
    hide DropFlow, Binding, AllInSync;
    if q.store[q.flows[i].bearer].flowRef == 1 {
      DropLastBinding(q, i, reset);
      DropLastSync(q, i, reset);
    } else {
      DropSharedKeeps(q, i, reset);
    }
  }

  // Getting a bearer

  /** __qmi_rmnet_update_mq: take the slot if it is free; the default queue is never taken. */
  function TakeSlot(q: Info, a: nat, slot: nat): Info
    requires a in q.store && slot < |q.mq|
  {
    if slot == DEFAULT_MQ || q.mq[slot].Some? then q
    else
      var b := q.store[a].(mq := slot, ackMq := slot + ACK_OFFSET);
      var on := b.grant > 0;
      q.(mq := q.mq[slot := Some(a)], store := q.store[a := b],
         queues := SetQueue(SetQueue(q.queues, slot, on), slot + ACK_OFFSET, on))
  }

  lemma {:induction false} TakeSlotBinding(q: Info, a: nat, slot: nat)
    requires Binding(q) && a in q.store && q.store[a].flowRef >= 1 && slot < MAX_MQ
    ensures Binding(TakeSlot(q, a, slot))
  {
    if slot != DEFAULT_MQ && q.mq[slot].None? {
      var p := TakeSlot(q, a, slot);
      assert p.store.Keys == q.store.Keys;
      ListsKept(q, p);
      hide ListOk, IdsUnique, FlowsOk, RefsOk, KeysUnique;
      forall c | c in p.store
        ensures BoundOk(p, c)
      {
        assert BoundOk(q, c);
      }
    }
  }

  /** Setting the two queues of a slot leaves bearers bound to other slots in step. */
  lemma SlotSpares(b: Bearer, queues: seq<bool>, slot: nat, on: bool)
    requires InSync(b, queues) && slot < MAX_MQ
    requires Bound(b) ==> 1 <= b.mq < MAX_MQ && b.mq != slot && b.ackMq == b.mq + ACK_OFFSET && slot != 0
    ensures InSync(b, SetQueue(SetQueue(queues, slot, on), slot + ACK_OFFSET, on))
  {
  }

  lemma SlotSyncs(b: Bearer, queues: seq<bool>)
    requires Bound(b) && b.ackMq == b.mq + ACK_OFFSET
    ensures InSync(b, SetQueue(SetQueue(queues, b.mq, b.grant > 0), b.ackMq, b.grant > 0))
  {
  }

  lemma {:induction false} TakeSlotSync(q: Info, a: nat, slot: nat)
    requires Binding(q) && AllInSync(q) && a in q.store && slot < MAX_MQ
    ensures AllInSync(TakeSlot(q, a, slot))
  {
    if slot != DEFAULT_MQ && q.mq[slot].None? {
      var p := TakeSlot(q, a, slot);
      hide InSync, SetQueue;
      forall c | c in p.store
        ensures InSync(p.store[c], p.queues)
      {
        assert BoundOk(q, c) && InSync(q.store[c], q.queues);
        if c == a {
          SlotSyncs(p.store[a], q.queues);
        } else {
          SlotSpares(q.store[c], q.queues, slot, p.store[a].grant > 0);
        }
      }
    }
  }

  /** The address __qmi_rmnet_bearer_get hands out for this id. */
  function BearerFor(q: Info, id: u8): nat
    requires forall a :: a in q.order ==> a in q.store
  {
    var r := FindBearer(q.order, q.store, id);
    if r.Some? then r.value else q.next
  }

  /** __qmi_rmnet_bearer_get with `refs` new references: count them, or create the bearer with them. */
  function GetBearer(m: Mode, q: Info, id: u8, refs: nat): Info
    requires m.Ok() && forall a :: a in q.order ==> a in q.store
  {
    var r := FindBearer(q.order, q.store, id);
    if r.Some? then
      q.(store := q.store[r.value := q.store[r.value].(flowRef := q.store[r.value].flowRef + refs)])
    else
      q.(store := q.store[q.next := NewBearer(m, id, refs)], order := [q.next] + q.order, next := q.next + 1)
  }

  /** List a flow at position i and count its reference. */
  function Inserted(m: Mode, q: Info, i: nat, f: Flow): Info
    requires m.Ok() && i <= |q.flows| && forall a :: a in q.order ==> a in q.store
  {
    GetBearer(m, q, f.bearerId, 1).(flows := With(q.flows, i, f.(bearer := BearerFor(q, f.bearerId))))
  }

  /** List a flow at position i and bind it. */
  function InsertFlow(m: Mode, q: Info, i: nat, f: Flow): Info
    requires m.Ok() && i <= |q.flows| && f.mq < |q.mq| && forall a :: a in q.order ==> a in q.store
  {
    TakeSlot(Inserted(m, q, i, f), BearerFor(q, f.bearerId), f.mq)
  }

  lemma {:induction false} GetBearerFacts(m: Mode, q: Info, id: u8, refs: nat)
    requires m.Ok() && Binding(q)
    ensures var p, a := GetBearer(m, q, id, refs), BearerFor(q, id);
      && a in p.store && p.store[a].id == id && p.store.Keys == q.store.Keys + {a}
      && p.store[a].flowRef == (if a in q.store then q.store[a].flowRef else 0) + refs
      && (a !in q.store ==> Refs(q.flows, a) == 0)
      && (forall c :: c in q.store && c != a ==> p.store[c] == q.store[c])
      && ListOk(p) && IdsUnique(p)
  {
    var b := GotBearer(m, q, id, refs);
    NextFresh(q);
    assert BearerFor(q, id) !in q.store ==> BearerFor(q, id) == q.next;
    hide Binding, ListOk, IdsUnique, Refs, GetBearer, BearerFor;
  }

  lemma {:induction false} GotBearer(m: Mode, q: Info, id: u8, refs: nat) returns (b: Bearer)
    requires m.Ok() && ListOk(q) && IdsUnique(q)
    ensures var p, a := GetBearer(m, q, id, refs), BearerFor(q, id);
      && StoredOne(q, p, a, b) && b.id == id && b.flowRef == (if a in q.store then q.store[a].flowRef else 0) + refs
  {
    assert forall a :: a in q.order ==> a in q.store;
    hide ListOk, IdsUnique, StoredOne;
    if FindBearer(q.order, q.store, id).Some? {
      b := FoundBearer(m, q, id, refs);
    } else {
      b := CreatedBearer(m, q, id, refs);
    }
  }

  lemma {:induction false} FoundBearer(m: Mode, q: Info, id: u8, refs: nat) returns (b: Bearer)
    requires m.Ok() && ListOk(q) && IdsUnique(q) && FindBearer(q.order, q.store, id).Some?
    ensures var p, a := GetBearer(m, q, id, refs), BearerFor(q, id);
      StoredOne(q, p, a, b) && b.id == id && a in q.store && b.flowRef == q.store[a].flowRef + refs
  {
    var a := BearerFor(q, id);
    b := q.store[a].(flowRef := q.store[a].flowRef + refs);
    StoreSame(q, a, b);
    hide ListOk, IdsUnique, FindBearer, StoredOne;
  }

  lemma {:induction false} CreatedBearer(m: Mode, q: Info, id: u8, refs: nat) returns (b: Bearer)
    requires m.Ok() && ListOk(q) && IdsUnique(q) && FindBearer(q.order, q.store, id).None?
    ensures var p, a := GetBearer(m, q, id, refs), BearerFor(q, id);
      StoredOne(q, p, a, b) && b.id == id && a !in q.store && b.flowRef == refs
  {
    b := NewBearer(m, id, refs);
    StoreMore(q, b);
    assert q.next !in q.store;
    hide ListOk, IdsUnique, FindBearer, StoredOne;
  }

  /** p has b at address a, and the bearers of q elsewhere. */
  ghost predicate StoredOne(q: Info, p: Info, a: nat, b: Bearer) {
    && p.store.Keys == q.store.Keys + {a} && p.store[a] == b
    && (forall c :: c in q.store && c != a ==> p.store[c] == q.store[c])
    && ListOk(p) && IdsUnique(p)
  }

  lemma StoreSame(q: Info, a: nat, b: Bearer)
    requires ListOk(q) && IdsUnique(q) && a in q.store && b.id == q.store[a].id
    ensures StoredOne(q, q.(store := q.store[a := b]), a, b)
  {
  }

  lemma {:induction false} StoreMore(q: Info, b: Bearer)
    requires ListOk(q) && IdsUnique(q) && forall a :: a in q.order ==> q.store[a].id != b.id
    ensures var p := q.(store := q.store[q.next := b], order := [q.next] + q.order, next := q.next + 1);
      StoredOne(q, p, q.next, b)
  {
    var s := [q.next] + q.order;
    forall i, j | 0 <= i < j < |s|
      ensures s[i] != s[j]
    {
      assert s[j] == q.order[j - 1] && s[j] in q.order;
    }
  }

  /** Nothing refers to an address not handed out yet. */
  lemma {:induction false} NextFresh(q: Info)
    requires Binding(q)
    ensures q.next !in q.store && Refs(q.flows, q.next) == 0
  {
    forall i | 0 <= i < |q.flows|
      ensures q.flows[i].bearer != q.next
    {
      assert FlowOk(q, q.flows[i]);
    }
    RefsNone(q.flows, q.next);
  }

  lemma {:induction false} RefsNone(flows: seq<Flow>, a: nat)
    requires forall i :: 0 <= i < |flows| ==> flows[i].bearer != a
    ensures Refs(flows, a) == 0
  {
    if flows != [] {
      RefsNone(flows[1..], a);
    }
  }

  predicate Fresh(flows: seq<Flow>, f: Flow) {
    forall k :: 0 <= k < |flows| ==> !SameKey(flows[k], f.id, f.ipType)
  }

  /** Counting `refs` references and listing as many flows (one or none) keeps the rest of the binding. */
  lemma {:induction false} GetBearerKeeps(m: Mode, q: Info, id: u8, refs: nat, flows: seq<Flow>)
    requires m.Ok() && Binding(q) && AllInSync(q)
    requires KeysUnique(flows)
    requires forall c :: Refs(flows, c) == Refs(q.flows, c) + if c == BearerFor(q, id) then refs else 0
    requires forall k :: 0 <= k < |flows| ==>
      flows[k] in q.flows || (flows[k].bearer == BearerFor(q, id) && flows[k].bearerId == id && flows[k].mq < MAX_MQ)
    ensures var p := GetBearer(m, q, id, refs).(flows := flows); Binding(p) && AllInSync(p)
  {
    GetBearerFacts(m, q, id, refs);
    NewUnbound(m, q, id, refs, flows);
    GetBearerCounts(m, q, id, refs, flows);
    Assembled(GetBearer(m, q, id, refs), GetBearer(m, q, id, refs).(flows := flows));
    hide Binding, Refs, GetBearer, BearerFor, ListOk, OwnersOk, BoundOk;
    hide RefsOk, FlowsOk, IdsUnique, KeysUnique, AllInSync;
  }

  lemma Assembled(g: Info, p: Info)
    requires ListOk(g) && IdsUnique(g) && p == g.(flows := p.flows) && p.removed.None?
    requires KeysUnique(p.flows) && FlowsOk(p) && RefsOk(p) && OwnersOk(p)
    requires forall c {:trigger BoundOk(p, c)} :: c in p.store ==> BoundOk(p, c)
    ensures Binding(p)
  {
  }

  lemma {:induction false} GetBearerCounts(m: Mode, q: Info, id: u8, refs: nat, flows: seq<Flow>)
    requires m.Ok() && Binding(q)
    requires forall c :: Refs(flows, c) == Refs(q.flows, c) + if c == BearerFor(q, id) then refs else 0
    requires forall k :: 0 <= k < |flows| ==>
      flows[k] in q.flows || (flows[k].bearer == BearerFor(q, id) && flows[k].bearerId == id && flows[k].mq < MAX_MQ)
    ensures var p := GetBearer(m, q, id, refs).(flows := flows); RefsOk(p) && FlowsOk(p)
  {
    GetBearerFacts(m, q, id, refs);
    var p, a := GetBearer(m, q, id, refs).(flows := flows), BearerFor(q, id);
    Counted(q, p, a, refs);
    forall k | 0 <= k < |flows|
      ensures FlowOk(p, flows[k])
    {
      if flows[k] in q.flows {
        OldFlow(q, p, flows[k], a);
      }
    }
    hide Refs, GetBearer, BearerFor, Binding, ListOk, IdsUnique;
  }

  lemma Counted(q: Info, p: Info, a: nat, refs: nat)
    requires RefsOk(q) && a in p.store && p.store.Keys == q.store.Keys + {a}
    requires p.store[a].flowRef == (if a in q.store then q.store[a].flowRef else 0) + refs
    requires a !in q.store ==> Refs(q.flows, a) == 0
    requires forall c :: c in q.store && c != a ==> p.store[c] == q.store[c]
    requires forall c :: Refs(p.flows, c) == Refs(q.flows, c) + if c == a then refs else 0
    ensures RefsOk(p)
  {
  }

  lemma {:induction false} OldFlow(q: Info, p: Info, f: Flow, a: nat)
    requires FlowsOk(q) && f in q.flows && a in p.store && p.store.Keys == q.store.Keys + {a}
    requires forall c :: c in q.store && c != a ==> p.store[c] == q.store[c]
    requires a in q.store ==> p.store[a].id == q.store[a].id
    ensures FlowOk(p, f)
  {
    var n :| 0 <= n < |q.flows| && q.flows[n] == f;
    assert FlowOk(q, q.flows[n]);
  }

  /** A bearer just created owns no slot. */
  lemma {:induction false} NewUnbound(m: Mode, q: Info, id: u8, refs: nat, flows: seq<Flow>)
    requires m.Ok() && Binding(q) && AllInSync(q)
    ensures var p := GetBearer(m, q, id, refs).(flows := flows);
      && |p.mq| == MAX_MQ && OwnersOk(p) && AllInSync(p) && p.removed.None?
      && (forall c {:trigger BoundOk(p, c)} :: c in p.store ==> BoundOk(p, c))
  {
    NextFresh(q);
    GetBearerSlots(m, q, id, refs);
    GetBearerFacts(m, q, id, refs);
    SlotsKept(q, GetBearer(m, q, id, refs).(flows := flows), BearerFor(q, id));
    hide ListOk, IdsUnique, FlowsOk, RefsOk, KeysUnique, InSync, GetBearer;
    hide BearerFor, Refs, OwnersOk, AllInSync, BoundOk;
  }

  lemma {:induction false} SlotsKept(q: Info, p: Info, a: nat)
    requires Binding(q) && AllInSync(q) && p.mq == q.mq && p.queues == q.queues
    requires a in p.store && p.store.Keys == q.store.Keys + {a}
    requires forall c :: c in q.store && c != a ==> p.store[c] == q.store[c]
    requires a !in q.store ==> !Bound(p.store[a]) && p.store[a].ackMq == INVALID_MQ
    requires a in q.store ==> SameSlot(q.store[a], p.store[a]) && p.store[a].flowRef >= q.store[a].flowRef
    ensures OwnersOk(p) && AllInSync(p) && forall c {:trigger BoundOk(p, c)} :: c in p.store ==> BoundOk(p, c)
  {
    assert |q.mq| == MAX_MQ;
    hide ListOk, IdsUnique, FlowsOk, RefsOk, KeysUnique, InSync;
    forall c | c in p.store
      ensures BoundOk(p, c) && InSync(p.store[c], p.queues)
    {
      if c in q.store {
        assert BoundOk(q, c) && InSync(q.store[c], q.queues);
        SyncIgnoresRefs(q.store[c], p.store[c], q.queues);
      } else {
        UnboundSyncs(p.store[c], p.queues);
      }
    }
  }

  predicate SameSlot(b: Bearer, c: Bearer) { c.mq == b.mq && c.ackMq == b.ackMq && c.grant == b.grant }

  /** Without a reference to count, no bearer that exists changes. */
  lemma {:induction false} GetBearerFrame(m: Mode, q: Info, id: u8)
    requires m.Ok() && Binding(q)
    ensures var p := GetBearer(m, q, id, 0);
      && p.flows == q.flows && p.queues == q.queues && p.sent == q.sent
      && forall a :: a in q.store ==> a in p.store && p.store[a] == q.store[a]
  {
    NextFresh(q);
    hide Refs, NewBearer, RefsOk, OwnersOk, BoundOk, FlowsOk, IdsUnique, KeysUnique;
  }

  /** Slots and queues stay, and no new bearer has one. */
  lemma GetBearerSlots(m: Mode, q: Info, id: u8, refs: nat)
    requires m.Ok() && q.next !in q.store && forall a :: a in q.order ==> a in q.store
    ensures var p, a := GetBearer(m, q, id, refs), BearerFor(q, id);
      && p.mq == q.mq && p.queues == q.queues && p.removed == q.removed && a in p.store
      && (a !in q.store ==> !Bound(p.store[a]) && p.store[a].ackMq == INVALID_MQ)
      && (a in q.store ==> SameSlot(q.store[a], p.store[a]))
  {
  }

  lemma UnboundSyncs(b: Bearer, queues: seq<bool>)
    requires !Bound(b)
    ensures InSync(b, queues)
  {
  }

  lemma {:induction false} InsertedKeeps(m: Mode, q: Info, i: nat, f: Flow)
    requires m.Ok() && Binding(q) && AllInSync(q) && i <= |q.flows| && f.mq < MAX_MQ && Fresh(q.flows, f)
    ensures var p, a := Inserted(m, q, i, f), BearerFor(q, f.bearerId);
      Binding(p) && AllInSync(p) && a in p.store && p.store[a].flowRef >= 1
  {
    hide Refs, AllInSync;
    var a := BearerFor(q, f.bearerId);
    var g := f.(bearer := a);
    KeysWith(q.flows, i, g);
    GetBearerFacts(m, q, f.bearerId, 1);
    forall c: nat
      ensures Refs(With(q.flows, i, g), c) == Refs(q.flows, c) + if c == a then 1 else 0
    {
      RefsWith(q.flows, i, g, c);
    }
    assert a in q.store ==> q.store[a].flowRef == Refs(q.flows, a);
    hide Binding;
    GetBearerKeeps(m, q, f.bearerId, 1, With(q.flows, i, g));
  }

  lemma {:induction false} InsertFlowKeeps(m: Mode, q: Info, i: nat, f: Flow)
    requires m.Ok() && Binding(q) && AllInSync(q) && i <= |q.flows| && f.mq < MAX_MQ && Fresh(q.flows, f)
    ensures Binding(InsertFlow(m, q, i, f)) && AllInSync(InsertFlow(m, q, i, f))
  {
    InsertedKeeps(m, q, i, f);
    var p := Inserted(m, q, i, f);
    hide AllInSync, Inserted, TakeSlot;
    TakeSlotBinding(p, BearerFor(q, f.bearerId), f.mq);
    TakeSlotSync(p, BearerFor(q, f.bearerId), f.mq);
  }

  // Operations

  /** qmi_rmnet_del_flow; with no flow left every queue is woken. */
  function DelStep(q: Info, flowId: u32, ipType: int): Info
    requires Binding(q)
  {
    var i := FindFlow(q.flows, flowId, ipType);
    var p := if i.Some? then (assert FlowOk(q, q.flows[i.value]); DropFlow(q, i.value, true)) else q;
    if p.flows == [] then p.(queues := seq(|p.queues|, j => true)) else p
  }

  /**
   * qmi_rmnet_add_flow: bind a new flow, rebind one whose bearer changes, or delete and add one whose queue changes.
   */
  function AddStep(m: Mode, q: Info, bearerId: u8, flowId: u32, ipType: int, mq: nat): Info
    requires m.Ok() && Binding(q) && AllInSync(q)
  {
    var f := Flow(flowId, ipType, bearerId, mq, 0);
    var i := FindFlow(q.flows, flowId, ipType);
    if mq >= MAX_MQ then q
    else if i.None? then InsertFlow(m, q, 0, f)
    else if q.flows[i.value].bearerId != bearerId then
      DropFlowKeeps(q, i.value, false);
      InsertFlow(m, DropFlow(q, i.value, false), i.value, f)
    else if q.flows[i.value].mq != mq then
      DelKeeps(q, flowId, ipType);
      InsertFlow(m, DelStep(q, flowId, ipType), 0, f)
    else q
  }

  lemma {:induction false} DelKeeps(q: Info, flowId: u32, ipType: int)
    requires Binding(q) && AllInSync(q)
    ensures Binding(DelStep(q, flowId, ipType)) && AllInSync(DelStep(q, flowId, ipType))
    ensures var flows := DelStep(q, flowId, ipType).flows;
      forall k :: 0 <= k < |flows| ==> !SameKey(flows[k], flowId, ipType)
  {
    hide AllInSync, DropFlow;
    var i := FindFlow(q.flows, flowId, ipType);
    var p := q;
    if i.Some? {
      DropFlowKeeps(q, i.value, true);
      DropFlowFlows(q, i.value, true);
      KeysWithout(q.flows, i.value);
      p := DropFlow(q, i.value, true);
    }
    if p.flows == [] {
      WakeAllQueues(p, seq(|p.queues|, j => true));
    }
  }

  lemma DropFlowFlows(q: Info, i: nat, reset: bool)
    requires i < |q.flows| && q.flows[i].bearer in q.store
    ensures DropFlow(q, i, reset).flows == Without(q.flows, i)
  {
  }

  /** Without flows no bearer owns a queue, so the queues may do as they like. */
  lemma {:induction false} WakeAllQueues(q: Info, queues: seq<bool>)
    requires Binding(q) && AllInSync(q) && q.flows == [] && |queues| == |q.queues|
    ensures Binding(q.(queues := queues)) && AllInSync(q.(queues := queues))
  {
    var p := q.(queues := queues);
    forall c | c in p.store
      ensures BoundOk(p, c) && InSync(p.store[c], p.queues)
    {
      assert BoundOk(q, c) && q.store[c].flowRef == Refs(q.flows, c) == 0;
    }
  }

  /** The same handler for every bearer of the list. */
  function ApplyAll(m: Mode, q: Info, list: seq<nat>, e: Event): Info
    requires m.Ok() && forall a :: a in list ==> a in q.store
    decreases |list|
  {
    if list == [] then q else ApplyAll(m, Apply(m, q, list[0], e), list[1..], e)
  }

  lemma {:induction false} ApplyAllKeeps(m: Mode, q: Info, list: seq<nat>, e: Event)
    requires m.Ok() && Binding(q) && AllInSync(q) && forall a :: a in list ==> a in q.store
    ensures Binding(ApplyAll(m, q, list, e)) && AllInSync(ApplyAll(m, q, list, e))
    decreases |list|
  {
    hide Binding, AllInSync, Step;
    if list != [] {
      ApplyKeeps(m, q, list[0], e);
      ApplyAllKeeps(m, Apply(m, q, list[0], e), list[1..], e);
    }
  }

  /** dfc_update_fc_map: the bearer is created, without a reference, where it does not exist. */
  function StatusStep(m: Mode, q: Info, id: u8, s: Status): Info
    requires m.Ok() && Binding(q)
  {
    GetBearerFacts(m, q, id, 0);
    Apply(m, GetBearer(m, q, id, 0), BearerFor(q, id), Update(s))
  }

  lemma {:induction false} StatusKeeps(m: Mode, q: Info, id: u8, s: Status)
    requires m.Ok() && Binding(q) && AllInSync(q)
    ensures Binding(StatusStep(m, q, id, s)) && AllInSync(StatusStep(m, q, id, s))
  {
    hide AllInSync, Refs, Apply, GetBearer, BearerFor;
    GetBearerFacts(m, q, id, 0);
    assert GetBearer(m, q, id, 0).(flows := q.flows) == GetBearer(m, q, id, 0) by { GetBearerFlows(m, q, id, 0); }
    GetBearerKeeps(m, q, id, 0, q.flows);
    ApplyKeeps(m, GetBearer(m, q, id, 0), BearerFor(q, id), Update(s));
  }

  lemma GetBearerFlows(m: Mode, q: Info, id: u8, refs: nat)
    requires m.Ok() && Binding(q)
    ensures GetBearer(m, q, id, refs).flows == q.flows
  {
  }

  /** The bearer an operation concerns, if there is one, and the step it takes there. */
  function Target(q: Info, op: Op): (r: Option<(nat, Event)>)
    requires Binding(q)
    ensures r.Some? ==> r.value.0 in q.store && !r.value.1.Wildcard?
  {
    match op
    case Burst(flowId, ipType, len) =>
      var i := FindFlow(q.flows, flowId, ipType);
      if i.None? then None
      else
        FlowBearer(q, i.value);
        Some((q.flows[i.value].bearer, Send(len)))
    case TxStatus(id, on) => Aim(FindBearer(q.order, q.store, id), TxLink(on))
    case TimerFires(a) => if a in q.store then Some((a, Fires)) else None
    case WatchdogRuns(a) => if a in q.store then Some((a, Callback)) else None
    case Marker(id, seqNo, txid) => Aim(FindBearer(q.order, q.store, id), EndMarker(seqNo, txid))
    case _ => None
  }

  function Aim(a: Option<nat>, e: Event): Option<(nat, Event)> {
    if a.None? then None else Some((a.value, e))
  }

  function QosStep(m: Mode, q: Info, op: Op): Info
    requires m.Ok() && Binding(q) && AllInSync(q)
  {
    match op
    case FlowStatus(id, s) => StatusStep(m, q, id, s)
    case AllStatus(s) => ApplyAll(m, q, q.order, Wildcard(s))
    case WakeAll => ApplyAll(m, q, q.order, Wake)
    case AddFlow(bearerId, flowId, ipType, mq) => AddStep(m, q, bearerId, flowId, ipType, mq)
    case DelFlow(flowId, ipType) => DelStep(q, flowId, ipType)
    case _ =>
      var t := Target(q, op);
      if t.Some? then Apply(m, q, t.value.0, t.value.1) else q.(sent := q.sent + Answer(op))
  }

  /** What an operation sends that concerns no bearer: an end marker for an unknown one is confirmed at once. */
  function Answer(op: Op): seq<Msg> {
    match op
    case Marker(id, seqNo, txid) => [Confirm(id, seqNo, txid)]
    case _ => []
  }

  lemma {:induction false} AddKeeps(m: Mode, q: Info, bearerId: u8, flowId: u32, ipType: int, mq: nat)
    requires m.Ok() && Binding(q) && AllInSync(q)
    ensures var p := AddStep(m, q, bearerId, flowId, ipType, mq); Binding(p) && AllInSync(p)
  {
    hide AllInSync, DropFlow, InsertFlow, DelStep;
    var f := Flow(flowId, ipType, bearerId, mq, 0);
    var i := FindFlow(q.flows, flowId, ipType);
    if mq >= MAX_MQ {
    } else if i.None? {
      InsertFlowKeeps(m, q, 0, f);
    } else if q.flows[i.value].bearerId != bearerId {
      DropFlowKeeps(q, i.value, false);
      DropFlowFlows(q, i.value, false);
      KeysWithout(q.flows, i.value);
      InsertFlowKeeps(m, DropFlow(q, i.value, false), i.value, f);
    } else if q.flows[i.value].mq != mq {
      DelKeeps(q, flowId, ipType);
      InsertFlowKeeps(m, DelStep(q, flowId, ipType), 0, f);
    }
  }

  lemma {:induction false} SentKeeps(q: Info, sent: seq<Msg>)
    requires Binding(q) && AllInSync(q)
    ensures Binding(q.(sent := sent)) && AllInSync(q.(sent := sent))
  {
    var p := q.(sent := sent);
    forall c | c in p.store
      ensures BoundOk(p, c)
    {
      assert BoundOk(q, c);
    }
    forall i | 0 <= i < |p.flows|
      ensures FlowOk(p, p.flows[i])
    {
      assert FlowOk(q, q.flows[i]);
    }
  }

  /** Every operation keeps the binding invariant and the queues in step with the grants. */
  lemma {:induction false} QosStepKeeps(m: Mode, q: Info, op: Op)
    requires m.Ok() && Binding(q) && AllInSync(q)
    ensures Binding(QosStep(m, q, op)) && AllInSync(QosStep(m, q, op))
  {
    Listed(q);
    hide Binding, AllInSync, Apply, ApplyAll, StatusStep, AddStep, DelStep, Target;
    match op {
      case FlowStatus(id, s) => StatusKeeps(m, q, id, s);
      case AllStatus(s) => ApplyAllKeeps(m, q, q.order, Wildcard(s));
      case WakeAll => ApplyAllKeeps(m, q, q.order, Wake);
      case AddFlow(bearerId, flowId, ipType, mq) => AddKeeps(m, q, bearerId, flowId, ipType, mq);
      case DelFlow(flowId, ipType) => DelKeeps(q, flowId, ipType);
      case _ => TargetKeeps(m, q, op);
    }
  }

  lemma {:induction false} TargetKeeps(m: Mode, q: Info, op: Op)
    requires m.Ok() && Binding(q) && AllInSync(q)
    ensures var t := Target(q, op);
      var p := if t.Some? then Apply(m, q, t.value.0, t.value.1) else q.(sent := q.sent + Answer(op));
      Binding(p) && AllInSync(p)
  {
    hide Binding, AllInSync, Apply, Target;
    var t := Target(q, op);
    if t.Some? {
      ApplyKeeps(m, q, t.value.0, t.value.1);
    } else {
      SentKeeps(q, q.sent + Answer(op));
    }
  }

  /** Stands for every bearer in a flow status. */
  const ALL_BEARERS: u8 := 0xFF

  /** dfc_qmap_handle_ind for the bearer it names. */
  function IndOp(id: u8, c: QmapCmd): Op {
    var e := HandleInd(c);
    if e.TxLink? then TxStatus(id, e.on) else StatusOp(id, e)
  }

  /** dfc_qmap_handle_query_resp; an invalid response is dropped. */
  function RespOp(id: u8, c: QmapCmd): Option<Op> {
    var e := HandleQueryResp(c);
    if e.None? then None else Some(StatusOp(id, e.value))
  }

  /** dfc_do_burst_flow_control for one entry. */
  function StatusOp(id: u8, e: Event): Op
    requires e.Update?
  {
    if id == ALL_BEARERS then AllStatus(e.s) else FlowStatus(id, e.s)
  }

  /** qmi_rmnet_qos_init, on a device whose queues run. */
  function Initial(queues: nat): (q: Info)
    requires queues <= INVALID_MQ
    ensures Binding(q) && AllInSync(q) && q.store == map[]
  {
    Info([], [], map[], seq(MAX_MQ, i => None), seq(queues, i => true), [], None, 0)
  }

  /** The states reached by runs of operations. */
  ghost predicate Reaches(m: Mode, q: Info, ops: seq<Op>, r: Info)
    requires m.Ok() && Binding(q) && AllInSync(q)
    decreases |ops|
  {
    if ops == [] then r == q
    else
      QosStepKeeps(m, q, ops[0]);
      Reaches(m, QosStep(m, q, ops[0]), ops[1..], r)
  }

  /**
   * In every reachable state of SA mode binding holds and each owned data queue runs exactly while its bearer has a
   * grant.
   */
  lemma {:induction false} ReachableKeeps(m: Mode, q: Info, ops: seq<Op>, r: Info)
    requires m.Ok() && Binding(q) && AllInSync(q) && Reaches(m, q, ops, r)
    ensures Binding(r) && AllInSync(r)
    decreases |ops|
  {
    hide Binding, AllInSync, QosStep;
    if ops != [] {
      QosStepKeeps(m, q, ops[0]);
      ReachableKeeps(m, QosStep(m, q, ops[0]), ops[1..], r);
    }
  }
}
