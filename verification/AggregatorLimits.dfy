/** When the aggregator holds a packet back, told by sizes, counts and times, over every interleaving. */
module AggregatorLimits {
  import opened Bytes
  import opened Aggregator

  // How many packets a buffer takes

  /** agg_count is the number of packets held. */
  predicate Counted(a: Agg) { a.held.Some? ==> a.count == |a.held.value.parts| }

  /** The send at hand left its packet in a buffer. */
  predicate Kept(a: Agg, e: Event) { e.Send? && Step(a, e).held.Some? }

  lemma {:induction false} StepCounted(a: Agg, e: Event)
    requires Counted(a)
    ensures Counted(Step(a, e))
  {
    hide Elapsed, MustFlush, Configure, Params.Capacity;
  }

  lemma {:induction false} RunCounted(a: Agg, es: seq<Event>)
    requires Counted(a)
    ensures Counted(Run(a, es))
  {
    hide Step, Counted;
    if es != [] {
      RunCounted(a, es[..|es| - 1]);
      StepCounted(Run(a, es[..|es| - 1]), es[|es| - 1]);
    }
  }

  /** A packet kept makes at most agg_count packets held, and one at least. */
  lemma {:induction false} KeptCount(a: Agg, e: Event)
    requires Counted(a) && Kept(a, e)
    ensures 1 <= |Step(a, e).HeldParts()| <= Max(1, a.params.count)
    ensures Step(a, e).HeldParts() == a.HeldParts() + [e.p] && Step(a, e).log == a.log + [e.p]
  {
    hide Elapsed, Configure, Params.Capacity;
  }

  /** So unless it is reconfigured the aggregator never holds more. */
  lemma {:induction false} RunLimited(a: Agg, es: seq<Event>)
    requires Counted(a) && |a.HeldParts()| <= Max(1, a.params.count)
    requires forall k :: 0 <= k < |es| ==> !es[k].Reconfigure?
    ensures var b := Run(a, es);
      b.params == a.params && |b.HeldParts()| <= Max(1, a.params.count)
  {
    hide Step, Counted, Agg.HeldParts;
    if es != [] {
      var front, e := es[..|es| - 1], es[|es| - 1];
      assert forall k :: 0 <= k < |front| ==> front[k] == es[k];
      RunLimited(a, front);
      RunCounted(a, front);
      StepLimited(Run(a, front), e);
      hide Run;
    }
  }

  lemma {:induction false} StepLimited(a: Agg, e: Event)
    requires Counted(a) && !e.Reconfigure? && |a.HeldParts()| <= Max(1, a.params.count)
    ensures Step(a, e).params == a.params && |Step(a, e).HeldParts()| <= Max(1, a.params.count)
  {
    hide Elapsed, Configure, Params.Capacity;
  }

  // How old a buffer gets

  /** When the buffer held at the end of the run was started. */
  function Started(a: Agg, es: seq<Event>): int {
    if es == [] then a.time
    else
      var front, e := es[..|es| - 1], es[|es| - 1];
      if Run(a, front).held.None? && Kept(Run(a, front), e) then e.later else Started(a, front)
  }

  /** When the last packet came, aggregated or not. */
  function LastSend(a: Agg, es: seq<Event>): int {
    if es == [] then a.last
    else if es[|es| - 1].Send? then es[|es| - 1].now
    else LastSend(a, es[..|es| - 1])
  }

  lemma {:induction false} Clocks(a: Agg, es: seq<Event>)
    ensures Run(a, es).last == LastSend(a, es)
    ensures Run(a, es).held.Some? ==> Run(a, es).time == Started(a, es)
  {
    hide Step;
    if es != [] {
      var front, e := es[..|es| - 1], es[|es| - 1];
      Clocks(a, front);
      StepClocks(Run(a, front), e);
    }
  }

  lemma {:induction false} StepClocks(a: Agg, e: Event)
    ensures Step(a, e).last == if e.Send? then e.now else a.last
    ensures Step(a, e).held.Some? && a.held.None? ==> e.Send? && Step(a, e).time == e.later
    ensures Step(a, e).held.Some? && a.held.Some? ==> Step(a, e).time == a.time
  {
    hide Elapsed, MustFlush, Configure, Params.Capacity;
  }

  /** At most `limit` nanoseconds apart and no whole second, as struct timespec64 tells a difference. */
  predicate Recent(now: int, since: int, limit: int)
    requires 0 <= limit < SECOND
  {
    if now >= since then now - since <= limit else (now - since) % 1_000_000_000 <= limit
  }

  lemma {:induction false} RecentExact(now: int, since: int, limit: int)
    requires 0 <= limit < SECOND
    ensures Elapsed(now, since, limit) <==> !Recent(now, since, limit)
  {
    var d := now - since;
    var q, r := d / SECOND, d % SECOND;
    assert d == SECOND * q + r;
  }

  /**
   * After any run, a packet joins the held buffer if and only if it fits, fewer than agg_count packets are held, and
   * the buffer was started at most a millisecond ago; else the buffer is shipped first.
   */
  lemma {:induction false} JoinsExact(a: Agg, es: seq<Event>, e: Event)
    requires Counted(a) && e.Send? && !e.prio && Run(a, es).held.Some?
    ensures var b := Run(a, es);
      var held := b.held.value;
      var r := Step(b, e);
      var joins := |held.bytes| + |e.p| <= held.cap && |held.parts| < b.params.count
                   && Recent(e.now, Started(a, es), 1_000_000);
      if joins then
        r.held == Some(Buffer(held.bytes + e.p, held.parts + [e.p], held.cap)) && r.wire == b.wire
      else
        r.held.None? && r.wire == b.wire + [Sent(held.bytes, held.parts)] && r.log == b.log
  {
    RunCounted(a, es);
    Clocks(a, es);
    RecentExact(e.now, Started(a, es), 1_000_000);
    hide Run, Elapsed, Recent, Started, Configure;
  }

  /**
   * With nothing held, a packet starts a buffer if and only if it is shorter than agg_size, the last packet came at
   * most ten milliseconds ago and there is a page for it; else it goes out alone.
   */
  lemma {:induction false} StartsExact(a: Agg, es: seq<Event>, e: Event)
    requires e.Send? && !e.prio && Run(a, es).held.None?
    ensures var b := Run(a, es);
      var r := Step(b, e);
      var starts := |e.p| < b.params.size && Recent(e.now, LastSend(a, es), 10_000_000) && e.pageOk;
      if starts then
        r.held == Some(Buffer(e.p, [e.p], b.params.Capacity())) && r.wire == b.wire && r.time == e.later
      else
        r.held.None? && r.wire == b.wire + [Sent(e.p, [e.p])]
  {
    Clocks(a, es);
    RecentExact(e.now, LastSend(a, es), 10_000_000);
    assert [] + e.p == e.p && [] + [e.p] == [e.p];
    hide Run, Elapsed, Recent, LastSend, Configure, Params.Capacity;
  }

  /** A packet with priority goes out alone behind whatever was held, and nothing stays held. */
  lemma {:induction false} PriorityShips(a: Agg, e: Event)
    requires e.Send? && e.prio
    ensures var r := Step(a, e);
      && r.held.None?
      && r.wire == a.wire + (if a.held.Some? then [Sent(a.HeldBytes(), a.HeldParts())] else [])
                   + [Sent(e.p, [e.p])]
  {
  }
}
