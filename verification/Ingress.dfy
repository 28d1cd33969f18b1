/** The ingress path over fragment descriptors: from a received skb to the descriptors handed to the stack. */
module Ingress {
  import opened Bytes
  import opened AddressLists
  import opened Fragments
  import opened Descriptors
  import opened Frames
  import opened Coalesced
  import opened Segmentation
  import opened Deaggregation

  /** Features of the receiving devices: NETIF_F_RXCSUM and NETIF_F_GRO_HW. */
  datatype Features = Features(rxCsum: bool, gro: bool)

  const MAX_LOGICAL_EP := 255

  /** What a MAP frame holds for the stack. */
  datatype Content = Dropped | Data(mux: u8, payload: seq<u8>, csumValid: bool) | Coalesced(mux: u8)

  /** Payload length announced by the MAP header, in the 16-bit arithmetic of the driver. */
  function DataLen(b: seq<u8>): u16 requires |b| >= MAP_HDR { (PktLen(b) - PadLen(b)) % 0x1_0000 }

  /** The first `len` bytes behind `skip` header bytes; nothing when a header or nothing is all there is. */
  function Unwrap(mux: u8, b: seq<u8>, skip: nat, len: nat, csumValid: bool): Content {
    if |b| <= skip || len == 0 then Dropped else Data(mux, b[skip..skip + Min(len, |b| - skip)], csumValid)
  }

  function Strip(fmt: Format, endpoints: set<u8>, rxCsum: bool, b: seq<u8>): Content {
    if |b| < MAP_HDR || CdBit(b) || b[1] >= MAX_LOGICAL_EP || b[1] !in endpoints then Dropped
    else if NextHdrBit(b) && (fmt.coalesce || fmt.cksumV5) then
      if |b| < MAP_HDR + CSUM_HDR then Dropped
      else if HdrType(b) == TYPE_COALESCING then if CheckedMask(b).Some? then Coalesced(b[1]) else Dropped
      else if HdrType(b) == TYPE_CSUM_OFFLOAD then
        Unwrap(b[1], b, MAP_HDR + CSUM_HDR, DataLen(b), rxCsum && b[5] >= 128)
      else Dropped
    else Unwrap(b[1], b, MAP_HDR, DataLen(b), false)
  }

  /** The descriptors ds are what frame b must deliver. */
  ghost predicate Delivers(mem: Memory, content: Content, b: seq<u8>, gro: bool, failed: bool, ds: seq<Desc>) {
    match content
    case Dropped => ds == []
    case Data(mux, payload, csumValid) =>
      |ds| == 1 && Flat(mem, ds[0].frags) == payload && ds[0].mux == mux && ds[0].csumValid == csumValid
    case Coalesced(mux) => CheckedMask(b).Some? && Segmented(mux, b, gro, failed, Segs(mem, ds))
  }

  /** The descriptors of `list` are alive, and without them and h nothing has changed. */
  predicate Handed(before: map<nat, Desc>, now: map<nat, Desc>, h: nat, list: seq<nat>) {
    && Distinct(list) && (forall x :: x in list ==> x in now)
    && now - Elements(list) == before - {h}
  }

  lemma {:induction false} ProducedHanded(before: map<nat, Desc>, now: map<nat, Desc>, c: nat, list: seq<nat>)
    requires Produced(before, now, c, list)
    ensures list == [c] ==> Handed(before, now, c, list)
    ensures list != [c] ==> Handed(before, now - {c}, c, list) && Pick(now - {c}, list) == Pick(now, list)
  {
    assert forall h :: h in list <==> h in Elements(list);
    if list == [c] {
      assert now - Elements(list) == before - {c};
    } else {
      assert (now - {c}) - Elements(list) == before - {c};
      assert Pick(now - {c}, list) == Pick(now, list);
    }
  }

  lemma {:induction false} SingleHanded(before: map<nat, Desc>, h: nat, d: Desc)
    requires h in before
    ensures Handed(before, before[h := d], h, [h]) && Pick(before[h := d], [h]) == [d]
  {
    assert before[h := d] - Elements([h]) == before - {h};
  }

  /** Pull `skip` header bytes off h and trim it to `len`: both drop paths give h back to the pool. */
  method PullAndTrim(port: Port, h: nat, skip: nat, len: u16) returns (list: seq<nat>)
    requires port.Valid() && h in port.live && skip <= MAP_HDR + CSUM_HDR
    modifies port`descs, port`freeList, port`pageRefs, port`live
    ensures port.Valid()
    ensures list == [] ==> h in port.freeList
    ensures Handed(old(port.live), port.live, h, list)
    ensures var d := old(port.live[h]);
      var c := Unwrap(d.mux, Flat(port.mem, d.frags), skip, len, d.csumValid);
      if c.Data? then
        list == [h] && Delivers(port.mem, c, [], false, port.failed, Pick(port.live, list))
      else
        list == []
  {
    hide Port.Valid, Flat;
    ghost var before, d := port.live, port.live[h];
    port.RangeExact(h, 0, 0);
    var ok := port.Pull(h, skip);
    if !ok {
      return [];
    }
    ok := port.Trim(h, len);
    if !ok {
      return [];
    }
    assert port.live == before[h := port.live[h]];
    SingleHanded(before, h, port.live[h]);
    list := [h];
  }

  /** The coalescing branch of rmnet_frag_process_next_hdr_packet. */
  method ProcessCoalesced(port: Port, h: nat, gro: bool) returns (ok: bool, list: seq<nat>)
    requires port.Valid() && h in port.live && Untouched(port.live[h]) && port.live[h].len <= 0xFFFF + FRONT
    modifies port
    ensures port.Valid() && (old(port.failed) ==> port.failed)
    ensures ok == CheckedMask(Flat(port.mem, old(port.live[h]).frags)).Some?
    ensures ok ==>
      && Handed(old(port.live), port.live, h, list)
      && Segmented(old(port.live[h]).mux, Flat(port.mem, old(port.live[h]).frags), gro, port.failed,
                   Segs(port.mem, Pick(port.live, list)))
    ensures !ok ==> port.live == old(port.live) && list == []
  {
    hide Port.Valid, Flat, Segmented, CheckedMask, Untouched, Produced, Handed;
    var mask := CheckCoalHeader(port, h);
    if mask.None? {
      return false, [];
    }
    list := SegmentCoalData(port, h, mask.value, gro);
    ProducedHanded(old(port.live), port.live, h, list);
    if list == [] || list[0] != h {
      port.Recycle(h);
    } else {
      FirstIsC(old(port.live), port.live, h, list);
    }
    ok := true;
  }

  lemma FirstIsC(before: map<nat, Desc>, now: map<nat, Desc>, c: nat, list: seq<nat>)
    requires Produced(before, now, c, list) && list != [] && list[0] == c
    ensures list == [c]
  {
  }

  /** h was given back, whether or not it already was on the free list. */
  method Drop(port: Port, h: nat, ghost before: map<nat, Desc>) returns (list: seq<nat>)
    requires port.Valid() && (h in port.live || h in port.freeList) && port.live - {h} == before - {h}
    modifies port`descs, port`freeList, port`pageRefs, port`live
    ensures port.Valid() && list == [] && Handed(before, port.live, h, [])
  {
    hide Port.Valid;
    port.Recycle(h);
    assert port.live - Elements([]) == port.live;
    list := [];
  }

  /** rmnet_frag_process_next_hdr_packet; on failure the caller gives h back, a second time if it is already gone. */
  method ProcessNextHdr(port: Port, h: nat, len: u16, feat: Features) returns (ok: bool, list: seq<nat>)
    requires port.Valid() && h in port.live && Untouched(port.live[h]) && port.live[h].len <= 0xFFFF + FRONT
    modifies port
    ensures port.Valid() && (old(port.failed) ==> port.failed)
    ensures !ok ==> (h in port.live || h in port.freeList) && port.live - {h} == old(port.live) - {h}
    ensures ok ==> Handed(old(port.live), port.live, h, list)
    ensures var b, mux := Flat(port.mem, old(port.live[h]).frags), old(port.live[h]).mux;
      if |b| < MAP_HDR + CSUM_HDR then !ok
      else if HdrType(b) == TYPE_COALESCING then
        && ok == CheckedMask(b).Some?
        && (ok ==> Segmented(mux, b, feat.gro, port.failed, Segs(port.mem, Pick(port.live, list))))
      else if HdrType(b) == TYPE_CSUM_OFFLOAD then
        var c := Unwrap(mux, b, MAP_HDR + CSUM_HDR, len, feat.rxCsum && b[5] >= 128);
        && ok == c.Data?
        && (ok ==> Delivers(port.mem, c, b, feat.gro, port.failed, Pick(port.live, list)))
      else !ok
  {
    hide Port.Valid, Flat, Segmented, CheckedMask;
    ghost var before, d := port.live, port.live[h];
    ghost var b := Flat(port.mem, d.frags);
    var hp := port.HeaderPtr(h, MAP_HDR, CSUM_HDR);
    if hp.None? {
      return false, [];
    }
    assert hp.value[0] == b[4] && hp.value[1] == b[5];
    if hp.value[0] / 2 == TYPE_COALESCING {
      ok, list := ProcessCoalesced(port, h, feat.gro);
    } else if hp.value[0] / 2 == TYPE_CSUM_OFFLOAD {
      if feat.rxCsum && hp.value[1] >= 128 {
        port.SetMeta(h, port.At(h).(csumValid := true));
      }
      assert port.live == before[h := d.(csumValid := feat.rxCsum && b[5] >= 128)];
      list := PullAndTrim(port, h, MAP_HDR + CSUM_HDR, len);
      ok := list != [];
      assert before[h := d.(csumValid := feat.rxCsum && b[5] >= 128)] - {h} == before - {h};
      assert port.live - Elements([]) == port.live;
    } else {
      return false, [];
    }
  }

  /** The classification half of __rmnet_frag_ingress_handler: afterwards only the listed descriptors are h's. */
  method Classify(port: Port, h: nat, ghost b: seq<u8>, feat: Features) returns (list: seq<nat>)
    requires port.Valid() && h in port.live && Holds(port.mem, port.live[h], b) && |b| <= 0xFFFF + FRONT
    modifies port
    ensures port.Valid() && (old(port.failed) ==> port.failed)
    ensures Handed(old(port.live), port.live, h, list)
    ensures Delivers(port.mem, Strip(port.fmt, port.endpoints, feat.rxCsum, b), b, feat.gro, port.failed,
                     Pick(port.live, list))
  {
    hide Port.Valid, Flat, Segmented, CheckedMask, Handed;
    ghost var before := port.live;
    var hp := port.HeaderPtr(h, 0, MAP_HDR);
    if hp.None? {
      list := Drop(port, h, before);
      return;
    }
    var qmap := hp.value;
    assert qmap == b[..MAP_HDR] && CdBit(qmap) == CdBit(b) && NextHdrBit(qmap) == NextHdrBit(b);
    assert PktLen(qmap) == PktLen(b) && PadLen(qmap) == PadLen(b);
    if CdBit(qmap) || qmap[1] >= MAX_LOGICAL_EP || qmap[1] !in port.endpoints {
      list := Drop(port, h, before);
      return;
    }
    port.SetMeta(h, port.At(h).(mux := qmap[1]));
    var nextHdr := NextHdrBit(qmap) && (port.fmt.coalesce || port.fmt.cksumV5);
    list := Unpack(port, h, b, before, nextHdr, DataLen(qmap), feat);
  }

  method Unpack(port: Port, h: nat, ghost b: seq<u8>, ghost before: map<nat, Desc>, nextHdr: bool, len: u16,
                feat: Features)
    returns (list: seq<nat>)
    requires port.Valid() && h in port.live && Untouched(port.live[h]) && h in before
    requires Flat(port.mem, port.live[h].frags) == b && MAP_HDR <= |b| <= 0xFFFF + FRONT && port.live[h].mux == b[1]
    requires port.live == before[h := port.live[h]] && port.live[h].len == |b|
    requires !CdBit(b) && b[1] < MAX_LOGICAL_EP && b[1] in port.endpoints && len == DataLen(b)
    requires nextHdr == (NextHdrBit(b) && (port.fmt.coalesce || port.fmt.cksumV5))
    modifies port
    ensures port.Valid() && (old(port.failed) ==> port.failed)
    ensures Handed(before, port.live, h, list)
    ensures Delivers(port.mem, Strip(port.fmt, port.endpoints, feat.rxCsum, b), b, feat.gro, port.failed,
                     Pick(port.live, list))
  {
    hide Port.Valid, Flat, Segmented, CheckedMask;
    assert port.live - {h} == before - {h};
    if nextHdr {
      var ok;
      ok, list := ProcessNextHdr(port, h, len, feat);
      if !ok {
        list := Drop(port, h, before);
      }
    } else {
      list := PullAndTrim(port, h, MAP_HDR, len);
    }
  }

  /** rmnet_frag_deliver for every descriptor of the list: ds are the descriptors as the stack saw them. */
  method Deliver(port: Port, list: seq<nat>) returns (ds: seq<Desc>)
    requires port.Valid() && Distinct(list) && forall h :: h in list ==> h in port.live
    modifies port`descs, port`freeList, port`pageRefs, port`live
    ensures port.Valid() && port.live == old(port.live) - Elements(list)
    ensures ds == Pick(old(port.live), list)
  {
    hide Port.Valid;
    ds := [];
    var k := 0;
    while k < |list|
      invariant k <= |list| && port.Valid()
      invariant port.live == old(port.live) - Elements(list[..k])
      invariant ds == Pick(old(port.live), list[..k])
    {
      assert Elements(list[..k + 1]) == Elements(list[..k]) + {list[k]};
      assert list[k] in list && list[k] !in Elements(list[..k]);
      ds := ds + [port.At(list[k])];
      assert ds == Pick(old(port.live), list[..k + 1]);
      port.Recycle(list[k]);
      k := k + 1;
    }
    assert list[..k] == list;
  }

  /** __rmnet_frag_ingress_handler: the frame delivers what it must and every descriptor goes back to the pool. */
  method IngressFrame(port: Port, h: nat, ghost b: seq<u8>, feat: Features) returns (ds: seq<Desc>)
    requires port.Valid() && h in port.live && Holds(port.mem, port.live[h], b) && |b| <= 0xFFFF + FRONT
    modifies port
    ensures port.Valid() && (old(port.failed) ==> port.failed)
    ensures port.live == old(port.live) - {h}
    ensures Delivers(port.mem, Strip(port.fmt, port.endpoints, feat.rxCsum, b), b, feat.gro, port.failed, ds)
  {
    hide Port.Valid, Delivers, Strip, Holds;
    var list := Classify(port, h, b, feat);
    ds := Deliver(port, list);
  }

  lemma {:induction false} FailedLater(mem: Memory, content: Content, b: seq<u8>, gro: bool, failed: bool, now: bool,
                                       ds: seq<Desc>)
    requires Delivers(mem, content, b, gro, failed, ds) && (failed ==> now)
    ensures Delivers(mem, content, b, gro, now, ds)
  {
    hide Flat, SegOf, Chain, Packets, ExpandAll, ParseHeaders, CountsOk, ErrMask, LowBitsClear;
  }

  /** out[k] is what frame k must deliver. */
  ghost predicate DeliversAll(mem: Memory, fmt: Format, endpoints: set<u8>, feat: Features, failed: bool,
                              frames: seq<seq<u8>>, out: seq<seq<Desc>>)
  {
    && |out| <= |frames|
    && forall k :: 0 <= k < |out| ==>
         Delivers(mem, Strip(fmt, endpoints, feat.rxCsum, frames[k]), frames[k], feat.gro, failed, out[k])
  }

  lemma {:induction false} DeliversMore(mem: Memory, fmt: Format, endpoints: set<u8>, feat: Features, failed: bool,
                                        now: bool,
                     frames: seq<seq<u8>>, out: seq<seq<Desc>>, ds: seq<Desc>)
    requires DeliversAll(mem, fmt, endpoints, feat, failed, frames, out) && (failed ==> now) && |out| < |frames|
    requires var b := frames[|out|];
      Delivers(mem, Strip(fmt, endpoints, feat.rxCsum, b), b, feat.gro, now, ds)
    ensures DeliversAll(mem, fmt, endpoints, feat, now, frames, out + [ds])
  {
    hide Delivers, Strip;
    forall k | 0 <= k < |out|
      ensures Delivers(mem, Strip(fmt, endpoints, feat.rxCsum, frames[k]), frames[k], feat.gro, now, out[k])
    {
      FailedLater(mem, Strip(fmt, endpoints, feat.rxCsum, frames[k]), frames[k], feat.gro, failed, now, out[k]);
    }
  }

  lemma {:induction false} FramesShort(fmt: Format, b: seq<u8>, k: nat)
    requires k < |PagedFrames(fmt, b)|
    ensures |PagedFrames(fmt, b)[k]| <= 0xFFFF + FRONT
    decreases k
  {
    if k > 0 {
      FramesShort(fmt, b[PagedLen(fmt, b).value..], k - 1);
    }
  }

  /**
   * The descriptors before deaggregation, the frames still to be handled, and at most one leaked descriptor are
   * alive.
   */
  ghost predicate Pending(mem: Memory, before: map<nat, Desc>, now: map<nat, Desc>, list: seq<nat>,
                          frames: seq<seq<u8>>,
                          k: nat, leaked: Option<nat>)
  {
    && k <= |list| <= |frames| && HoldsAll(mem, now, list[k..], frames[k..|list|])
    && (leaked.Some? ==> leaked.value !in list[k..] && leaked.value in now && now[leaked.value] == BLANK)
    && Extends(before, now, Elements(list[k..]) + LeakSet(leaked))
  }

  lemma {:induction false} PendingStep(mem: Memory, before: map<nat, Desc>, now: map<nat, Desc>, list: seq<nat>,
                                       frames: seq<seq<u8>>,
                    k: nat, leaked: Option<nat>)
    requires Pending(mem, before, now, list, frames, k, leaked) && k < |list|
    ensures list[k] in now && Holds(mem, now[list[k]], frames[k])
    ensures Pending(mem, before, now - {list[k]}, list, frames, k + 1, leaked)
  {
    hide Holds;
    assert list[k..] == [list[k]] + list[k + 1..] && frames[k..|list|] == [frames[k]] + frames[k + 1..|list|];
    HoldsAllTail(mem, now, list[k], list[k + 1..], frames[k], frames[k + 1..|list|]);
    ExtendsTail(before, now, list[k], list[k + 1..], LeakSet(leaked));
  }

  lemma {:induction false} HoldsAllTail(mem: Memory, now: map<nat, Desc>, h: nat, rest: seq<nat>, f: seq<u8>,
                                        frames: seq<seq<u8>>)
    requires HoldsAll(mem, now, [h] + rest, [f] + frames)
    ensures h in now && h !in rest && Holds(mem, now[h], f) && HoldsAll(mem, now - {h}, rest, frames)
  {
    hide Holds;
    var all, fs := [h] + rest, [f] + frames;
    assert all[0] == h && fs[0] == f;
    forall i | 0 <= i < |rest|
      ensures rest[i] == all[i + 1] && frames[i] == fs[i + 1] && rest[i] != h
    {
      assert all[0] != all[i + 1];
    }
  }

  lemma {:induction false} ExtendsTail(before: map<nat, Desc>, now: map<nat, Desc>, h: nat, rest: seq<nat>,
                                       leak: set<nat>)
    requires Extends(before, now, Elements([h] + rest) + leak) && h !in rest && h !in leak
    ensures Extends(before, now - {h}, Elements(rest) + leak)
  {
    assert h in [h] + rest;
    assert Elements([h] + rest) == Elements(rest) + {h};
  }

  /** skb->len counts at least the fragments of the skb itself. */
  ghost predicate LenOk(mem: Memory, skb: RxSkb)
    reads skb.frags
  {
    |Rest(mem, skb.frags, 0)| <= skb.len
  }

  /**
   * One round of rmnet_frag_ingress_handler on an skb with the bytes `behind` on its frag_list: every frame of its flat
   * stream delivers what it must, and afterwards the pool has back every descriptor taken, except the one leaked
   * exactly where the type byte of a last header is missing; page references are what they were in either case.
   */
  method IngressSkb(port: Port, skb: RxSkb, behind: seq<u8>, feat: Features)
    returns (out: seq<seq<Desc>>, ghost leaked: Option<nat>)
    requires port.Valid() && LenOk(port.mem, skb)
    modifies port, skb.frags
    ensures port.Valid() && (old(port.failed) ==> port.failed)
    ensures Extends(old(port.live), port.live, LeakSet(leaked))
    ensures forall p :: port.pageRefs[p] == old(port.pageRefs)[p]
    ensures Handled(port.mem, port.fmt, port.endpoints, feat, port.failed,
                    old(Carried(port.mem, skb)), behind, out, leaked)
  {
    hide Port.Valid, Delivers, Strip, Holds, Carrier.Leaks, Rest, HoldsAll, PagedFrames, PagedRest, Pending, Extends;
    ghost var c := Carried(port.mem, skb);
    ghost var frames := PagedFrames(port.fmt, c.stream);
    ghost var n := |port.descs|;
    forall p { port.PageCount(p); }
    var list;
    list, leaked := Deaggregate(port, skb, behind);
    assert list[0..] == list && frames[0..|list|] == frames[..|list|];
    StartPending(port.mem, port.fmt, port.failed, c, behind, old(port.live), port.live, list, leaked);
    out := [];
    var k := 0;
    while k < |list|
      invariant k <= |list| <= |frames| && |out| == k && port.Valid() && (old(port.failed) ==> port.failed)
      invariant Pending(port.mem, old(port.live), port.live, list, frames, k, leaked)
      invariant DeliversAll(port.mem, port.fmt, port.endpoints, feat, port.failed, frames, out)
      invariant !port.failed ==> |list| == |frames| && (leaked.Some? <==> c.Leaks(port.fmt, behind))
    {
      ghost var failed := port.failed;
      PendingStep(port.mem, old(port.live), port.live, list, frames, k, leaked);
      FramesShort(port.fmt, c.stream, k);
      var ds := IngressFrame(port, list[k], frames[k], feat);
      DeliversMore(port.mem, port.fmt, port.endpoints, feat, failed, port.failed, frames, out, ds);
      out := out + [ds];
      k := k + 1;
    }
    EndPending(port.mem, old(port.live), port.live, list, frames, leaked);
    forall p
      ensures port.pageRefs[p] == old(port.pageRefs)[p]
    {
      port.PageCount(p);
      PagesBack(old(port.live), n, port.live, |port.descs|, leaked, p);
    }
  }

  /** What one skb must come to: groups of descriptors, one per frame, and the leak. */
  ghost predicate Handled(mem: Memory, fmt: Format, endpoints: set<u8>, feat: Features, failed: bool,
                          c: Carrier, behind: seq<u8>, out: seq<seq<Desc>>, leaked: Option<nat>)
  {
    var frames := PagedFrames(fmt, c.stream);
    && DeliversAll(mem, fmt, endpoints, feat, failed, frames, out)
    && (!failed ==> |out| == |frames| && (leaked.Some? <==> c.Leaks(fmt, behind)))
  }

  lemma {:induction false} HandledLater(mem: Memory, fmt: Format, endpoints: set<u8>, feat: Features, failed: bool,
                                        now: bool, c: Carrier, behind: seq<u8>, out: seq<seq<Desc>>,
                                        leaked: Option<nat>)
    requires Handled(mem, fmt, endpoints, feat, failed, c, behind, out, leaked) && (failed ==> now)
    ensures Handled(mem, fmt, endpoints, feat, now, c, behind, out, leaked)
  {
    hide Delivers, Strip, PagedFrames, PagedRest, Carrier.Leaks;
    var frames := PagedFrames(fmt, c.stream);
    forall k | 0 <= k < |out|
      ensures Delivers(mem, Strip(fmt, endpoints, feat.rxCsum, frames[k]), frames[k], feat.gro, now, out[k])
    {
      FailedLater(mem, Strip(fmt, endpoints, feat.rxCsum, frames[k]), frames[k], feat.gro, failed, now, out[k]);
    }
  }

  /** The descriptors leaked while handling several skbs. */
  function Leaks(leaked: seq<Option<nat>>): set<nat> {
    if leaked == [] then {} else Leaks(leaked[..|leaked| - 1]) + LeakSet(leaked[|leaked| - 1])
  }

  lemma {:induction false} ExtendsChain(a: map<nat, Desc>, b: map<nat, Desc>, c: map<nat, Desc>,
                                        leaked: seq<Option<nat>>, more: Option<nat>)
    requires Extends(a, b, Leaks(leaked)) && Extends(b, c, LeakSet(more))
    ensures Extends(a, c, Leaks(leaked + [more]))
  {
    assert (leaked + [more])[..|leaked|] == leaked;
  }

  /** Each skb of the chain so far was handled, with the rest of the chain on its frag_list. */
  ghost predicate ChainHandled(mem: Memory, fmt: Format, endpoints: set<u8>, feat: Features, failed: bool,
                               cs: seq<Carrier>, out: seq<seq<seq<Desc>>>, leaked: seq<Option<nat>>)
  {
    && |out| == |leaked| <= |cs|
    && forall k :: 0 <= k < |out| ==>
         Handled(mem, fmt, endpoints, feat, failed, cs[k], Behind(cs[k + 1..]), out[k], leaked[k])
  }

  lemma {:induction false} ChainMore(mem: Memory, fmt: Format, endpoints: set<u8>, feat: Features, failed: bool,
                                     now: bool, cs: seq<Carrier>, out: seq<seq<seq<Desc>>>,
                                     leaked: seq<Option<nat>>, ds: seq<seq<Desc>>, more: Option<nat>)
    requires ChainHandled(mem, fmt, endpoints, feat, failed, cs, out, leaked) && (failed ==> now)
    requires |out| < |cs|
    requires Handled(mem, fmt, endpoints, feat, now, cs[|out|], Behind(cs[|out| + 1..]), ds, more)
    ensures ChainHandled(mem, fmt, endpoints, feat, now, cs, out + [ds], leaked + [more])
  {
    hide Handled, Behind;
    forall k | 0 <= k < |out|
      ensures Handled(mem, fmt, endpoints, feat, now, cs[k], Behind(cs[k + 1..]), out[k], leaked[k])
    {
      HandledLater(mem, fmt, endpoints, feat, failed, now, cs[k], Behind(cs[k + 1..]), out[k], leaked[k]);
    }
  }

  /** The fragment arrays of a chain. */
  function Arrays(chain: seq<RxSkb>): set<array<Frag>> { set k | 0 <= k < |chain| :: chain[k].frags }

  /** No two skbs of the chain share their fragments. */
  predicate Separate(chain: seq<RxSkb>) {
    forall i, j :: 0 <= i < j < |chain| ==> chain[i].frags != chain[j].frags
  }

  lemma OneSkb(skb: RxSkb)
    ensures Separate([skb])
  {
  }

  /** The skbs of a chain as they are, from index k on. */
  function Carriers(mem: Memory, chain: seq<RxSkb>, k: nat): (cs: seq<Carrier>)
    requires k <= |chain|
    reads Arrays(chain)
    ensures |cs| == |chain| - k
    ensures forall i :: 0 <= i < |cs| ==> cs[i] == Carried(mem, chain[k + i])
    decreases |chain| - k
  {
    if k == |chain| then []
    else
      assert chain[k].frags in Arrays(chain);
      [Carried(mem, chain[k])] + Carriers(mem, chain, k + 1)
  }

  /** From index k on the chain is as it came. */
  ghost predicate Arrived(mem: Memory, chain: seq<RxSkb>, cs: seq<Carrier>, k: nat)
    requires |cs| == |chain|
    reads Arrays(chain)
  {
    forall i :: k <= i < |chain| ==>
      chain[i].frags in Arrays(chain) && Carried(mem, chain[i]) == cs[i] && LenOk(mem, chain[i])
  }

  lemma {:induction false} TailCarried(mem: Memory, chain: seq<RxSkb>, cs: seq<Carrier>, k: nat)
    requires |cs| == |chain| && k < |chain| && Arrived(mem, chain, cs, k)
    ensures Carriers(mem, chain, k + 1) == cs[k + 1..]
    ensures chain[k].frags in Arrays(chain) && Carried(mem, chain[k]) == cs[k] && LenOk(mem, chain[k])
  {
    hide Carried, LenOk;
  }

  /** One round on skb k of the chain, which leaves the skbs behind it as they are. */
  method IngressNext(port: Port, chain: seq<RxSkb>, k: nat, feat: Features, ghost cs: seq<Carrier>)
    returns (out: seq<seq<Desc>>, ghost leaked: Option<nat>)
    requires port.Valid() && Separate(chain) && |cs| == |chain| && k < |chain| && Arrived(port.mem, chain, cs, k)
    modifies port, Arrays(chain)
    ensures port.Valid() && (old(port.failed) ==> port.failed)
    ensures Extends(old(port.live), port.live, LeakSet(leaked))
    ensures forall p :: port.pageRefs[p] == old(port.pageRefs)[p]
    ensures Handled(port.mem, port.fmt, port.endpoints, feat, port.failed, cs[k], Behind(cs[k + 1..]), out, leaked)
    ensures Arrived(port.mem, chain, cs, k + 1)
  {
    hide Port.Valid, Handled, Extends, LeakSet, Rest, Behind, Carried;
    TailCarried(port.mem, chain, cs, k);
    out, leaked := IngressSkb(port, chain[k], Behind(Carriers(port.mem, chain, k + 1)), feat);
  }

  /**
   * rmnet_frag_ingress_handler on a chain of skbs, each the frag_list of the one before, which is detached only after
   * its skb was deaggregated: all are handled in turn, and what the call took from the pool is back, but for the leaked
   * descriptors. `failed` speaks of this call alone.
   */
  method FragIngress(port: Port, chain: seq<RxSkb>, feat: Features)
    returns (out: seq<seq<seq<Desc>>>, ghost leaked: seq<Option<nat>>)
    requires port.Valid() && Separate(chain) && forall k :: 0 <= k < |chain| ==> LenOk(port.mem, chain[k])
    modifies port, Arrays(chain)
    ensures port.Valid()
    ensures Extends(old(port.live), port.live, Leaks(leaked))
    ensures forall p :: port.pageRefs[p] == old(port.pageRefs)[p]
    ensures |out| == |chain|
    ensures ChainHandled(port.mem, port.fmt, port.endpoints, feat, port.failed,
                         old(Carriers(port.mem, chain, 0)), out, leaked)
  {
    hide Port.Valid, Handled, Extends, Leaks, LeakSet, Rest, Behind, Carried, Arrived, ChainHandled;
    ghost var cs := Carriers(port.mem, chain, 0);
    StartChain(port.mem, port.fmt, port.endpoints, feat, chain, cs);
    port.StartCall();
    out, leaked := [], [];
    NoLeaks(port.live);
    while |out| < |chain|
      invariant port.Valid() && |out| == |leaked| <= |chain|
      invariant Extends(old(port.live), port.live, Leaks(leaked))
      invariant forall p :: port.pageRefs[p] == old(port.pageRefs)[p]
      invariant Arrived(port.mem, chain, cs, |out|)
      invariant ChainHandled(port.mem, port.fmt, port.endpoints, feat, port.failed, cs, out, leaked)
    {
      ghost var before, failed := port.live, port.failed;
      var ds;
      ghost var more;
      ds, more := IngressNext(port, chain, |out|, feat, cs);
      ExtendsChain(old(port.live), before, port.live, leaked, more);
      ChainMore(port.mem, port.fmt, port.endpoints, feat, failed, port.failed, cs, out, leaked, ds, more);
      out, leaked := out + [ds], leaked + [more];
    }
  }

  lemma {:induction false} StartChain(mem: Memory, fmt: Format, endpoints: set<u8>, feat: Features,
                                      chain: seq<RxSkb>, cs: seq<Carrier>)
    requires cs == Carriers(mem, chain, 0) && forall k :: 0 <= k < |chain| ==> LenOk(mem, chain[k])
    ensures Arrived(mem, chain, cs, 0)
    ensures ChainHandled(mem, fmt, endpoints, feat, false, cs, [], [])
  {
    hide Carried, LenOk, Handled;
  }

  lemma NoLeaks(live: map<nat, Desc>)
    ensures Extends(live, live, Leaks([]))
  {
  }

  lemma {:induction false} PagesBack(before: map<nat, Desc>, n: nat, now: map<nat, Desc>, k: nat,
                                     leaked: Option<nat>, p: Page)
    requires Extends(before, now, LeakSet(leaked))
    requires leaked.Some? ==> leaked.value in now && now[leaked.value] == BLANK
    requires (forall h :: h in before ==> h < n) && (forall h :: h in now ==> h < k)
    ensures LiveUse(before, n, p) == LiveUse(now, k, p)
  {
    LiveUseSame(before, n, now, k, p);
  }

  lemma {:induction false} StartPending(mem: Memory, fmt: Format, failed: bool, c: Carrier, behind: seq<u8>,
                                        before: map<nat, Desc>, now: map<nat, Desc>, list: seq<nat>,
                                        leaked: Option<nat>)
    requires Deaggregated(mem, fmt, failed, c, behind, before, now, list, leaked)
    ensures var frames := PagedFrames(fmt, c.stream);
      && |list| <= |frames| && Pending(mem, before, now, list, frames, 0, leaked)
      && (!failed ==> |list| == |frames| && (leaked.Some? <==> c.Leaks(fmt, behind)))
  {
    hide Holds, PagedFrames, PagedRest, Carrier.Leaks;
    var frames := PagedFrames(fmt, c.stream);
    assert list[0..] == list && frames[0..|list|] == frames[..|list|];
  }

  lemma {:induction false} EndPending(mem: Memory, before: map<nat, Desc>, now: map<nat, Desc>, list: seq<nat>,
                                      frames: seq<seq<u8>>,
                   leaked: Option<nat>)
    requires Pending(mem, before, now, list, frames, |list|, leaked)
    ensures Extends(before, now, LeakSet(leaked))
    ensures leaked.Some? ==> leaked.value in now && now[leaked.value] == BLANK
  {
    assert Elements(list[|list|..]) + LeakSet(leaked) == LeakSet(leaked);
  }
}
