/**
 * Uplink aggregation: a state machine whose steps are the sections that hold agg_lock, the timer and the flush work.
 */
module Aggregator {
  import opened Bytes

  const PAGE_SIZE := 4096
  const BYPASS_NS := 10_000_000
  const LIMIT_NS := 1_000_000
  const SECOND := 1_000_000_000

  /** agg_size, agg_count and agg_size_order; `shinfo` is the aligned size of skb_shared_info. */
  datatype Params = Params(size: u16, count: u8, order: nat, shinfo: nat) {
    /** Real room of a buffer made by build_skb. */
    function Capacity(): int { Pages(order) - shinfo }

    predicate Sound() { 0 < shinfo <= PAGE_SIZE && size <= Capacity() + 1 }
  }

  /** PAGE_SIZE << order */
  function Pages(order: nat): nat { if order == 0 then PAGE_SIZE else 2 * Pages(order - 1) }

  /** get_order: the least order whose pages hold `size` bytes. */
  function GetOrder(size: u16): (order: nat)
    ensures order <= 4 && size <= Pages(order) && (order > 0 ==> Pages(order - 1) < size)
  {
    assert Pages(1) == 2 * Pages(0);
    assert Pages(2) == 2 * Pages(1);
    assert Pages(3) == 2 * Pages(2);
    assert Pages(4) == 2 * Pages(3);
    if size <= 4096 then 0 else if size <= 8192 then 1 else if size <= 16384 then 2 else if size <= 32768 then 3 else 4
  }

  /** rmnet_map_update_ul_agg_config, in 16-bit arithmetic. */
  function Configure(p: Params, size: u16, count: u8): Params {
    if size < PAGE_SIZE then p.(size := size, count := count)
    else
      var order := GetOrder(size);
      p.(order := order, count := count, size := (Pages(order) % 0x1_0000 - p.shinfo) % 0x1_0000)
  }

  /** agg_size ends up as the real capacity, although PAGE_SIZE << 4 wraps to 0 in sixteen bits. */
  lemma {:induction false} ConfigureExact(p: Params, size: u16, count: u8)
    requires 0 < p.shinfo <= PAGE_SIZE && size >= PAGE_SIZE
    ensures var q := Configure(p, size, count);
      q.size == q.Capacity() && q.Sound() && q.count == count && size <= q.size + q.shinfo
  {
    var order := GetOrder(size);
    assert Pages(0) == 4096 && Pages(1) == 8192 && Pages(2) == 16384;
    assert Pages(3) == 2 * Pages(2) && Pages(4) == 2 * Pages(3);
  }

  /** A size below a page is taken as it is; the order of the buffers stays. */
  lemma ConfigureSmall(p: Params, size: u16, count: u8)
    requires size < 4096
    ensures Configure(p, size, count) == Params(size, count, p.order, p.shinfo)
  {
  }

  /** An aggregation buffer; `parts` are the packets copied into it. */
  datatype Buffer = Buffer(bytes: seq<u8>, parts: seq<seq<u8>>, cap: int)

  /** An skb handed to dev_queue_xmit and the packets it was made of. */
  datatype Sent = Sent(bytes: seq<u8>, parts: seq<seq<u8>>)

  function Parts(wire: seq<Sent>): seq<seq<u8>> {
    if wire == [] then [] else Parts(wire[..|wire| - 1]) + wire[|wire| - 1].parts
  }

  function WireBytes(wire: seq<Sent>): seq<u8> {
    if wire == [] then [] else WireBytes(wire[..|wire| - 1]) + wire[|wire| - 1].bytes
  }

  /**
   * State of the aggregator. `cancels` counts hrtimer_cancel calls that are due outside the lock, `wire` is what was
   * handed to dev_queue_xmit in the order of the lock sections, `log` the packets and commands accepted in that order.
   */
  datatype Agg = Agg(params: Params, held: Option<Buffer>, count: nat, inProgress: bool, last: int, time: int,
                     armed: bool, queued: bool, cancels: nat, wire: seq<Sent>, log: seq<seq<u8>>) {
    function HeldBytes(): seq<u8> { if held.Some? then held.value.bytes else [] }

    function HeldParts(): seq<seq<u8>> { if held.Some? then held.value.parts else [] }

    /**
     * Every buffer is a concatenation of whole packets; those detached, then those held, are the accepted ones in
     * order.
     */
    predicate Conserved() {
      && (forall k :: 0 <= k < |wire| ==> wire[k].bytes == Join(wire[k].parts))
      && HeldBytes() == Join(HeldParts())
      && Parts(wire) + HeldParts() == log
    }

    predicate Consistent() { held.Some? <==> inProgress }

    /** A held buffer will be flushed. */
    predicate Attended() { held.Some? ==> armed || queued }

    predicate Bounded() { params.Sound() && (held.Some? ==> |held.value.bytes| <= held.value.cap) }

    /** Take the held buffer off, as every flush does under the lock. */
    function Detach(): Agg {
      if held.Some? then this.(held := None, count := 0, time := 0, inProgress := false,
                                 wire := wire + [Sent(HeldBytes(), HeldParts())])
      else this
    }

    /** Send a packet by itself. */
    function Direct(p: seq<u8>): Agg { this.(wire := wire + [Sent(p, [p])], log := log + [p]) }
  }

  datatype Event =
    | Send(p: seq<u8>, prio: bool, now: int, later: int, pageOk: bool)
    | Cancel
    | Fire
    | Flush
    | Command(cmd: seq<u8>)
    | Reconfigure(size: u16, count: u8)

  /** timespec64_sub and the comparison against a limit in nanoseconds; the clock may have been set back. */
  predicate Elapsed(now: int, since: int, limit: int) {
    var d := now - since;
    d / SECOND > 0 || d % SECOND > limit
  }

  /** Put the packet into the buffer and make sure the timer runs. */
  function Keep(a: Agg, b: Buffer, p: seq<u8>): Agg {
    a.(held := Some(Buffer(b.bytes + p, b.parts + [p], b.cap)), count := a.count + 1, inProgress := true,
       armed := a.armed || !a.inProgress, log := a.log + [p])
  }

  /** One lock section of rmnet_map_tx_aggregate. */
  function SendStep(a: Agg, e: Event): Agg
    requires e.Send?
  {
    var b := a.(last := e.now);
    if e.prio then
      var c := b.Detach().Direct(e.p);
      if b.held.Some? then c.(cancels := c.cancels + 1) else c
    else if b.held.None? then
      if Elapsed(e.now, a.last, BYPASS_NS) || a.params.size - |e.p| <= 0 then b.Direct(e.p)
      else if !e.pageOk then b.(count := 0, time := 0).Direct(e.p)
      else Keep(b.(count := 0, time := e.later), Buffer([], [], a.params.Capacity()), e.p)
    else if MustFlush(a, e.p, e.now) then
      b.Detach().(cancels := b.cancels + 1)
    else Keep(b, b.held.value, e.p)
  }

  /** The held buffer has no room, is full, or is too old. */
  predicate MustFlush(a: Agg, p: seq<u8>, now: int)
    requires a.held.Some?
  {
    || |p| > a.held.value.cap - |a.held.value.bytes|
    || a.count >= a.params.count
    || Elapsed(now, a.time, LIMIT_NS)
  }

  function Step(a: Agg, e: Event): Agg {
    match e
    case Send(_, _, _, _, _) => SendStep(a, e)
    case Cancel => if a.cancels > 0 then a.(cancels := a.cancels - 1, armed := false) else a
    case Fire => if a.armed then a.(armed := false, queued := true) else a
    case Flush =>
      if !a.queued then a
      else if a.inProgress then a.Detach().(inProgress := false, queued := false)
      else a.(queued := false)
    case Command(cmd) =>
      var b := a.Detach().Direct(cmd);
      if a.held.Some? then b.(cancels := b.cancels + 1) else b
    case Reconfigure(size, count) => a.(params := Configure(a.params, size, count))
  }

  function Run(a: Agg, es: seq<Event>): Agg
  {
    if es == [] then a else Step(Run(a, es[..|es| - 1]), es[|es| - 1])
  }

  lemma {:induction false} JoinSnoc(parts: seq<seq<u8>>, x: seq<u8>)
    ensures Join(parts + [x]) == Join(parts) + x
  {
    JoinAppend(parts, [x]);
    JoinCons(x, []);
    assert [x] == [x] + [];
  }

  lemma {:induction false} PartsSnoc(wire: seq<Sent>, x: Sent)
    ensures Parts(wire + [x]) == Parts(wire) + x.parts
  {
    assert (wire + [x])[..|wire|] == wire;
  }

  lemma {:induction false} DetachConserves(a: Agg)
    requires a.Conserved()
    ensures a.Detach().Conserved() && a.Detach().held.None?
  {
    PartsSnoc(a.wire, Sent(a.HeldBytes(), a.HeldParts()));
  }

  lemma {:induction false} DirectConserves(a: Agg, p: seq<u8>)
    requires a.Conserved() && a.held.None?
    ensures a.Direct(p).Conserved()
  {
    PartsSnoc(a.wire, Sent(p, [p]));
    JoinSnoc([], p);
    assert [] + [p] == [p];
  }

  lemma {:induction false} KeepConserves(a: Agg, b: Buffer, p: seq<u8>)
    requires a.Conserved() && a.HeldBytes() == b.bytes && a.HeldParts() == b.parts
    ensures Keep(a, b, p).Conserved()
  {
    JoinSnoc(b.parts, p);
    assert Parts(a.wire) + (b.parts + [p]) == (Parts(a.wire) + b.parts) + [p];
  }

  /** On bytes: what was detached, followed by the held buffer, is the concatenation of the accepted packets. */
  lemma {:induction false} BytesConserved(wire: seq<Sent>)
    requires forall k :: 0 <= k < |wire| ==> wire[k].bytes == Join(wire[k].parts)
    ensures WireBytes(wire) == Join(Parts(wire))
  {
    if wire != [] {
      var front, x := wire[..|wire| - 1], wire[|wire| - 1];
      assert forall k :: 0 <= k < |front| ==> front[k] == wire[k];
      BytesConserved(front);
      JoinAppend(Parts(front), x.parts);
    }
  }

  lemma {:induction false} StepConserves(a: Agg, e: Event)
    requires a.Conserved() && a.Consistent()
    ensures Step(a, e).Conserved() && Step(a, e).Consistent()
  {
    hide Join, Parts, Elapsed, MustFlush, Configure;
    DetachConserves(a);
    match e {
      case Send(p, prio, now, later, pageOk) =>
        var b := a.(last := now);
        DetachConserves(b);
        DirectConserves(b.Detach(), p);
        if b.held.None? {
          DirectConserves(b, p);
          DirectConserves(b.(count := 0, time := 0), p);
          KeepConserves(b.(count := 0, time := later), Buffer([], [], a.params.Capacity()), p);
        } else {
          KeepConserves(b, b.held.value, p);
        }
      case Command(cmd) =>
        DirectConserves(a.Detach(), cmd);
      case _ =>
    }
  }

  /**
   * No interleaving of lock sections, timer, flush work, late cancels, commands and reconfigurations loses, duplicates
   * or reorders a byte, and a buffer is held exactly while agg_state is EINPROGRESS.
   */
  lemma {:induction false} RunConserves(a: Agg, es: seq<Event>)
    requires a.Conserved() && a.Consistent()
    ensures var b := Run(a, es);
      b.Conserved() && b.Consistent() && WireBytes(b.wire) + b.HeldBytes() == Join(b.log)
  {
    if es != [] {
      RunConserves(a, es[..|es| - 1]);
      StepConserves(Run(a, es[..|es| - 1]), es[|es| - 1]);
    }
    var b := Run(a, es);
    BytesConserved(b.wire);
    JoinAppend(Parts(b.wire), b.HeldParts());
  }

  /** The packets of buffer k are a stretch of the accepted ones. */
  lemma {:induction false} PartsAt(wire: seq<Sent>, k: nat)
    requires k < |wire|
    ensures var lo := |Parts(wire[..k])|;
      lo + |wire[k].parts| <= |Parts(wire)| && Parts(wire)[lo..lo + |wire[k].parts|] == wire[k].parts
  {
    var n := |wire| - 1;
    if k == n {
      assert Parts(wire) == Parts(wire[..n]) + wire[n].parts;
    } else {
      PartsAt(wire[..n], k);
      assert wire[..n][..k] == wire[..k];
    }
  }

  lemma {:induction false} StretchOf(a: Agg, k: nat)
    requires a.Conserved() && k < |a.wire|
    ensures var lo := |Parts(a.wire[..k])|;
      var hi := lo + |a.wire[k].parts|;
      hi <= |a.log| && a.wire[k].bytes == Join(a.log[lo..hi])
  {
    hide Parts, Join;
    PartsAt(a.wire, k);
    var lo := |Parts(a.wire[..k])|;
    var hi := lo + |a.wire[k].parts|;
    assert a.log[lo..hi] == Parts(a.wire)[lo..hi];
  }

  /** A command is on the wire behind everything that was held when it took the lock, and nothing stays held. */
  lemma {:induction false} CommandFollowsHeld(a: Agg, cmd: seq<u8>)
    requires a.Conserved()
    ensures var b := Step(a, Command(cmd));
      b.held.None? && Parts(b.wire) == a.log + [cmd] && b.wire[|b.wire| - 1] == Sent(cmd, [cmd])
  {
    DetachConserves(a);
    DirectConserves(a.Detach(), cmd);
  }

  /** A hrtimer_cancel that is due takes the timer away from a buffer nothing else will flush. */
  predicate LateCancel(a: Agg, e: Event) { e.Cancel? && a.cancels > 0 && a.held.Some? && !a.queued }

  /** That is the only step after which a held buffer has neither the timer armed nor the flush work queued. */
  lemma {:induction false} StepAttendsExact(a: Agg, e: Event)
    requires a.Consistent() && a.Attended()
    ensures Step(a, e).Attended() <==> !LateCancel(a, e)
  {
    hide Elapsed, MustFlush, Configure, Params.Capacity;
  }

  /** Every state of the run has its held buffer attended. */
  predicate AlwaysAttended(a: Agg, es: seq<Event>) {
    if es == [] then a.Attended() else AlwaysAttended(a, es[..|es| - 1]) && Run(a, es).Attended()
  }

  predicate NoLateCancel(a: Agg, es: seq<Event>) {
    es == [] || (NoLateCancel(a, es[..|es| - 1]) && !LateCancel(Run(a, es[..|es| - 1]), es[|es| - 1]))
  }

  lemma {:induction false} StepConsistent(a: Agg, e: Event)
    requires a.Consistent()
    ensures Step(a, e).Consistent()
  {
    hide Elapsed, MustFlush, Configure, Params.Capacity;
  }

  lemma {:induction false} RunConsistent(a: Agg, es: seq<Event>)
    requires a.Consistent()
    ensures Run(a, es).Consistent()
  {
    hide Step, Agg.Consistent;
    if es != [] {
      RunConsistent(a, es[..|es| - 1]);
      StepConsistent(Run(a, es[..|es| - 1]), es[|es| - 1]);
    }
  }

  lemma {:induction false} AlwaysEndsAttended(a: Agg, es: seq<Event>)
    requires AlwaysAttended(a, es)
    ensures Run(a, es).Attended()
  {
  }

  /**
   * Over any run a held buffer always has the timer armed or the flush work queued if and only if no cancel comes
   * late.
   */
  lemma {:induction false} RunAttendsExact(a: Agg, es: seq<Event>)
    requires a.Consistent() && a.Attended()
    ensures AlwaysAttended(a, es) <==> NoLateCancel(a, es)
  {
    hide Step, Agg.Consistent, Agg.Attended, LateCancel;
    if es != [] {
      var front := es[..|es| - 1];
      RunAttendsExact(a, front);
      RunConsistent(a, front);
      if AlwaysAttended(a, front) {
        AlwaysEndsAttended(a, front);
        StepAttendsExact(Run(a, front), es[|es| - 1]);
      }
    }
  }

  /** No section of a sender runs between a detach and its hrtimer_cancel. */
  predicate Careful(a: Agg, es: seq<Event>) {
    es == [] ||
    (&& Careful(a, es[..|es| - 1])
     && (es[|es| - 1].Send? ==> Run(a, es[..|es| - 1]).cancels == 0))
  }

  /** A held buffer has the timer armed or the flush work queued, and no cancel is due. */
  predicate Safe(a: Agg) { a.Consistent() && a.Attended() && (a.held.Some? ==> a.cancels == 0) }

  lemma {:induction false} StepSafe(a: Agg, e: Event)
    requires Safe(a) && (e.Send? ==> a.cancels == 0)
    ensures Safe(Step(a, e))
  {
    hide Elapsed, MustFlush, Configure, Params.Capacity;
  }

  /** Whole operations never cancel late. */
  lemma {:induction false} RunAttends(a: Agg, es: seq<Event>)
    requires Careful(a, es) && Safe(a)
    ensures Safe(Run(a, es)) && NoLateCancel(a, es)
  {
    hide Step;
    if es != [] {
      RunAttends(a, es[..|es| - 1]);
      StepSafe(Run(a, es[..|es| - 1]), es[|es| - 1]);
    }
  }

  /** A run of four steps, one by one. */
  lemma {:induction false} RunFour(a: Agg, e: Event, f: Event, g: Event, h: Event)
    ensures Run(a, [e, f, g, h]) == Step(Step(Step(Step(a, e), f), g), h)
  {
    hide Step;
    RunFew(a, e);
    assert [e, f][..1] == [e] && [e, f, g][..2] == [e, f] && [e, f, g, h][..3] == [e, f, g];
    assert Run(a, [e, f]) == Step(Run(a, [e]), f);
    assert Run(a, [e, f, g]) == Step(Run(a, [e, f]), g);
    assert Run(a, [e, f, g, h]) == Step(Run(a, [e, f, g]), h);
  }

  /** An aggregator that holds nothing and owes nothing. */
  function Idle(params: Params): Agg { Agg(params, None, 0, false, 0, 0, false, false, 0, [], []) }

  /** Such a run: a cancel that comes late takes the timer away from the next buffer. */
  lemma {:induction false} GapStalls(params: Params, p: seq<u8>, q: seq<u8>)
    requires params.count > 0 && |p| < params.size && |q| < params.size
    ensures var a := Idle(params);
      var b := Run(a, [Send(p, false, 0, 0, true), Command([]), Send(q, false, 0, 0, true), Cancel]);
      !b.Attended() && b.held == Some(Buffer(q, [q], params.Capacity()))
  {
    var a := Idle(params);
    RunFour(a, Send(p, false, 0, 0, true), Command([]), Send(q, false, 0, 0, true), Cancel);
    var a1 := Step(a, Send(p, false, 0, 0, true));
    assert a1.held == Some(Buffer([] + p, [] + [p], params.Capacity()));
    var a2 := Step(a1, Command([]));
    assert a2.held.None? && a2.cancels == 1 && a2.last == 0;
    var a3 := Step(a2, Send(q, false, 0, 0, true));
    assert a3.held == Some(Buffer([] + q, [] + [q], params.Capacity())) && [] + q == q && [] + [q] == [q];
    assert a3.cancels == 1 && !a3.queued;
  }

  /** Every configuration in the run is at least a page. */
  predicate PageSized(es: seq<Event>) {
    forall k :: 0 <= k < |es| && es[k].Reconfigure? ==> es[k].size >= PAGE_SIZE
  }

  lemma {:induction false} StepBounded(a: Agg, e: Event)
    requires a.Bounded() && (e.Reconfigure? ==> e.size >= PAGE_SIZE)
    ensures Step(a, e).Bounded()
  {
    hide Pages, Configure, Elapsed;
    match e {
      case Reconfigure(size, count) => ConfigureExact(a.params, size, count);
      case _ =>
    }
  }

  /** The held bytes never exceed the real capacity of their buffer. */
  lemma {:induction false} RunBounded(a: Agg, es: seq<Event>)
    requires a.Bounded() && PageSized(es)
    ensures Run(a, es).Bounded()
  {
    if es != [] {
      var front := es[..|es| - 1];
      assert forall k :: 0 <= k < |front| ==> front[k] == es[k];
      RunBounded(a, front);
      StepBounded(Run(a, front), es[|es| - 1]);
    }
  }

  /** Held bytes fit their buffer. */
  predicate Fits(a: Agg) { a.held.Some? ==> |a.held.value.bytes| <= a.held.value.cap }

  /** Whatever packet starts a buffer fits it, if and only if agg_size is at most one above the capacity. */
  lemma {:induction false} StartFitsExact(a: Agg)
    requires a.held.None? && a.params.shinfo <= PAGE_SIZE
    ensures (forall p: seq<u8>, now: int, later: int :: Fits(Step(a, Send(p, false, now, later, true))))
       <==> a.params.size <= a.params.Capacity() + 1
  {
    PagesAtLeast(a.params.order);
    hide Pages;
    if a.params.size > a.params.Capacity() + 1 {
      var p: seq<u8> := seq(a.params.Capacity() + 1, i => 0);
      assert !Fits(Step(a, Send(p, false, a.last, 0, true)));
    }
  }

  lemma {:induction false} PagesAtLeast(order: nat)
    ensures Pages(order) >= PAGE_SIZE
  {
    if order != 0 {
      PagesAtLeast(order - 1);
    }
  }

  /**
   * The default configuration, PAGE_SIZE - 1 at order 0, lets 4094 bytes into a smaller buffer unless skb_shared_info
   * is tiny.
   */
  lemma {:induction false} InitialOverflows(shinfo: nat)
    requires 0 < shinfo <= PAGE_SIZE
    ensures var a := Idle(Configure(Params(0, 0, 0, shinfo), PAGE_SIZE - 1, 20));
      var b := Step(a, Send(seq(PAGE_SIZE - 2, i => 0), false, 0, 0, true));
      b.held.Some? && (Fits(b) <==> shinfo <= 2)
  {
    assert Pages(0) == PAGE_SIZE;
  }

  lemma {:induction false} RunAppend(a: Agg, es: seq<Event>, more: seq<Event>)
    ensures Run(a, es + more) == Run(Run(a, es), more)
    ensures Careful(a, es) && Careful(Run(a, es), more) ==> Careful(a, es + more)
    decreases |more|
  {
    hide Step;
    if more == [] {
      assert es + more == es;
    } else {
      var n := |more| - 1;
      assert (es + more)[..|es| + n] == es + more[..n];
      RunAppend(a, es, more[..n]);
    }
  }

  lemma {:induction false} RunFew(a: Agg, e: Event)
    ensures Run(a, [e]) == Step(a, e) && Run(a, [e, Cancel]) == Step(Step(a, e), Cancel)
    ensures a.cancels == 0 ==> Careful(a, [e]) && Careful(a, [e, Cancel])
  {
    assert [e][..0] == [] && [e, Cancel][..1] == [e];
  }

  /** The events of one attempt to send p: its section, and the cancel where a buffer was detached. */
  predicate Attempt(es: seq<Event>, p: seq<u8>, prio: bool) {
    && 1 <= |es| <= 2 && es[0].Send? && es[0].p == p && es[0].prio == prio && (|es| == 2 ==> es[1].Cancel?)
  }

  /** The aggregation fields of a port, with the egress queue and the timer as seen from them. */
  class AggPort {
    var params: Params
    var aggSkb: Option<Buffer>
    var aggCount: nat
    var inProgress: bool
    var aggLast: int
    var aggTime: int
    var timerArmed: bool
    var workQueued: bool
    var wire: seq<Sent>
    ghost var log: seq<seq<u8>>

    ghost function View(): Agg
      reads this
    {
      Agg(params, aggSkb, aggCount, inProgress, aggLast, aggTime, timerArmed, workQueued, 0, wire, log)
    }

    constructor (shinfo: nat)
      ensures params == Configure(Params(0, 0, 0, shinfo), PAGE_SIZE - 1, 20)
      ensures View().Conserved() && View().Consistent() && View().Attended() && log == []
    {
      params := Configure(Params(0, 0, 0, shinfo), PAGE_SIZE - 1, 20);
      aggSkb, aggCount, inProgress, aggLast, aggTime := None, 0, false, 0, 0;
      timerArmed, workQueued, wire, log := false, false, [], [];
    }

    /** dev_queue_xmit of the detached buffer, if there is one. */
    method Xmit(skb: Option<Buffer>)
      modifies this`wire
      ensures wire == old(wire) + if skb.Some? then [Sent(skb.value.bytes, skb.value.parts)] else []
    {
      if skb.Some? {
        wire := wire + [Sent(skb.value.bytes, skb.value.parts)];
      }
    }

    /** The reset every flush does under the lock. */
    method TakeSkb() returns (skb: Option<Buffer>)
      modifies this`aggSkb, this`aggCount, this`aggTime, this`inProgress
      ensures skb == old(aggSkb) && aggSkb == None
      ensures skb.Some? ==> aggCount == 0 && aggTime == 0 && !inProgress
      ensures skb.None? ==> aggCount == old(aggCount) && aggTime == old(aggTime) && inProgress == old(inProgress)
    {
      skb := aggSkb;
      if skb.Some? {
        aggSkb, aggCount, aggTime, inProgress := None, 0, 0, false;
      }
    }

    /** rmnet_map_send_agg_skb, with its hrtimer_cancel. */
    method SendAggSkb()
      modifies this
      ensures var a, had := old(View()).Detach(), old(aggSkb).Some?;
        View() == if had then a.(armed := false) else a
    {
      var skb := TakeSkb();
      if skb.Some? {
        timerArmed := false;
      }
      Xmit(skb);
    }

    /** dev_queue_xmit of the packet by itself. */
    method SendDirect(p: seq<u8>)
      modifies this`wire, this`log
      ensures wire == old(wire) + [Sent(p, [p])] && log == old(log) + [p]
    {
      wire, log := wire + [Sent(p, [p])], log + [p];
    }

    /** Append to the buffer, then `schedule:`. */
    method CopyIn(p: seq<u8>)
      requires aggSkb.Some?
      modifies this
      ensures View() == Keep(old(View()), old(aggSkb).value, p)
    {
      aggSkb := Some(Buffer(aggSkb.value.bytes + p, aggSkb.value.parts + [p], aggSkb.value.cap));
      aggCount := aggCount + 1;
      if !inProgress {
        inProgress, timerArmed := true, true;
      }
      log := log + [p];
    }

    /** The section of rmnet_map_tx_aggregate that finds no buffer held. */
    method StartBuffer(p: seq<u8>, last: int, now: int) returns (ghost e: Event)
      requires aggSkb.None? && aggLast == now
      modifies this
      ensures e.Send? && e.p == p && !e.prio && e.now == now && View() == SendStep(old(View()).(last := last), e)
    {
      var later: int, pageOk: bool := *, *;
      e := Send(p, false, now, later, pageOk);
      if Elapsed(now, last, BYPASS_NS) || params.size - |p| <= 0 {
        SendDirect(p);
      } else if !pageOk {
        aggCount, aggTime := 0, 0;
        SendDirect(p);
      } else {
        aggSkb := Some(Buffer([], [], params.Capacity()));
        aggCount, aggTime := 0, later;
        CopyIn(p);
      }
    }

    /** One lock section of rmnet_map_tx_aggregate and the hrtimer_cancel it owes; not done means `goto new_packet`. */
    method Section(p: seq<u8>, prio: bool) returns (done: bool, ghost es: seq<Event>)
      modifies this
      ensures View() == Run(old(View()), es) && Careful(old(View()), es) && Attempt(es, p, prio)
      ensures log == if done then old(log) + [p] else old(log)
      ensures !done ==> aggSkb.None? && old(aggSkb).Some? && |es| == 2
    {
      ghost var a := View();
      var now: int := *;
      var last := aggLast;
      aggLast := now;
      ghost var e := Send(p, prio, now, 0, true);
      done := true;
      if prio || (aggSkb.Some? && MustFlushNow(p, now)) {
        done := prio;
        ghost var had := aggSkb.Some?;
        SendAggSkb();
        if prio {
          SendDirect(p);
        }
        es := if had then [e, Cancel] else [e];
      } else if aggSkb.None? {
        e := StartBuffer(p, last, now);
        es := [e];
      } else {
        CopyIn(p);
        es := [e];
      }
      RunFew(a, e);
    }

    predicate MustFlushNow(p: seq<u8>, now: int)
      requires aggSkb.Some?
      reads this
    {
      |p| > aggSkb.value.cap - |aggSkb.value.bytes| || aggCount >= params.count || Elapsed(now, aggTime, LIMIT_NS)
    }

    /**
     * rmnet_map_tx_aggregate as one operation: a run of lock sections in which the packet is accepted once, after at
     * most one jump back to new_packet.
     */
    method TxAggregate(p: seq<u8>, prio: bool) returns (ghost es: seq<Event>, ghost jumps: nat)
      modifies this
      ensures View() == Run(old(View()), es) && log == old(log) + [p]
      ensures Careful(old(View()), es) && |es| <= 2 + 2 * jumps && jumps <= 1
    {
      hide Run, Careful;
      ghost var start := View();
      var done;
      done, es := Section(p, prio);
      jumps := 0;
      while !done
        invariant View() == Run(start, es) && Careful(start, es) && |es| <= 2 + 2 * jumps
        invariant log == if done then old(log) + [p] else old(log)
        invariant !done ==> aggSkb.None? && jumps == 0
        invariant jumps <= 1
        decreases !done
      {
        ghost var more;
        done, more := Section(p, prio);
        RunAppend(start, es, more);
        es := es + more;
        jumps := jumps + 1;
      }
    }

    /** rmnet_map_flush_tx_packet_queue, the timer callback. */
    method TimerFires()
      requires timerArmed
      modifies this`timerArmed, this`workQueued
      ensures View() == Step(old(View()), Fire)
    {
      timerArmed, workQueued := false, true;
    }

    /** rmnet_map_flush_tx_packet_work */
    method FlushWork()
      requires workQueued && View().Consistent()
      modifies this
      ensures View() == Step(old(View()), Flush) && aggSkb.None?
    {
      workQueued := false;
      var skb := None;
      if inProgress {
        skb := TakeSkb();
        inProgress := false;
      }
      Xmit(skb);
    }

    /** rmnet_map_tx_qmap_cmd on a port that aggregates. */
    method TxQmapCmd(cmd: seq<u8>) returns (ghost es: seq<Event>)
      modifies this
      ensures View() == Run(old(View()), es)
      ensures 1 <= |es| <= 2 && es[0] == Command(cmd) && (|es| == 2 ==> es[1] == Cancel)
      ensures aggSkb.None? && wire != [] && wire[|wire| - 1] == Sent(cmd, [cmd])
    {
      RunFew(View(), Command(cmd));
      es := if aggSkb.Some? then [Command(cmd), Cancel] else [Command(cmd)];
      SendAggSkb();
      SendDirect(cmd);
    }

    /** rmnet_map_update_ul_agg_config */
    method UpdateConfig(size: u16, count: u8)
      modifies this`params
      ensures View() == Step(old(View()), Reconfigure(size, count))
    {
      params := params.(count := count, size := size);
      if size < PAGE_SIZE {
        return;
      }
      var order := GetOrder(size);
      var room: u16 := Pages(order) % 0x1_0000;
      params := params.(order := order, size := (room - params.shinfo) % 0x1_0000);
    }
  }
}
