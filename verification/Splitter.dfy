/** The coalesced-frame splitter over fragment descriptors. */
module Splitter {
  import opened Bytes
  import opened AddressLists
  import opened Fragments
  import opened Descriptors
  import opened Coalesced

  function FrameOf(mem: Memory, d: Desc): Frame {
    Frame(d.mux, Flat(mem, d.frags), d.ipLen, d.transLen, d.ipProto, d.transProto)
  }

  /** The coalesced descriptor after a segment has been cut off its front. */
  function Advanced(d: Desc, pktId: u8): Desc {
    d.(dataOffset := (d.dataOffset + Times(d.gsoSize, d.gsoSegs)) % 0x1_0000,
       pktId := (pktId + 1) % 0x100, gsoSegs := 0)
  }

  /** The bytes of the segment of the coalesced descriptor d that starts at its data offset. */
  function SegmentBytes(f: Frame, d: Desc): seq<u8>
    requires f.Ok() && d.dataOffset + Times(d.gsoSize, d.gsoSegs) <= |f.Payload()|
  {
    f.bytes[..f.HdrLen()] + f.Payload()[d.dataOffset..d.dataOffset + Times(d.gsoSize, d.gsoSegs)]
  }

  /** Payload length of the next segment: gso_size times gso_segs. */
  method DataLen(d: Desc) returns (n: u32)
    ensures n == Times(d.gsoSize, d.gsoSegs)
  {
    TimesIsProduct(d.gsoSize, d.gsoSegs);
    TimesBound(d.gsoSize, d.gsoSegs);
    n := d.gsoSize * d.gsoSegs;
  }

  lemma {:induction false} TimesBound(size: u16, n: nat)
    ensures Times(size, n) <= 0xFFFF * n
  {
    if n != 0 {
      TimesBound(size, n - 1);
    }
  }

  lemma SegmentBytesAre(f: Frame, d: Desc)
    requires f.Ok() && d.dataOffset + Times(d.gsoSize, d.gsoSegs) <= |f.Payload()|
    ensures var at := f.HdrLen() + d.dataOffset;
      SegmentBytes(f, d) == f.bytes[0..0 + f.HdrLen()] + f.bytes[at..at + Times(d.gsoSize, d.gsoSegs)]
  {
  }

  /** Only the fragments of descriptor n have changed. */
  predicate Refilled(a: map<nat, Desc>, b: map<nat, Desc>, n: nat) {
    && n in a && n in b && b == a[n := b[n]]
    && b[n] == a[n].(frags := b[n].frags, len := b[n].len)
  }

  lemma RefilledTwice(a: map<nat, Desc>, b: map<nat, Desc>, c: map<nat, Desc>, n: nat, other: nat)
    requires Refilled(a, b, n) && Refilled(b, c, n) && other != n && other in a
    ensures Refilled(a, c, n) && other in b && b[other] == a[other]
  {
  }

  /** Append to n the header fragments of c. */
  method AddHeader(port: Port, n: nat, c: nat) returns (ok: bool)
    requires port.Valid() && n in port.live && c in port.live && n != c
    requires FrameOf(port.mem, port.live[c]).Ok() && port.live[n].frags == [] && port.live[n].len == 0
    modifies port`descs, port`pageRefs, port`failed, port`live
    ensures port.Valid() && n in port.live && c in port.live && (old(port.failed) ==> port.failed)
    ensures Refilled(old(port.live), port.live, n) && port.live[c] == old(port.live[c])
    ensures var f := FrameOf(port.mem, port.live[c]);
      && (ok ==>
          && port.failed == old(port.failed) && port.live[n].len <= 0xFFFF
          && Flat(port.mem, port.live[n].frags) == f.bytes[0..0 + f.HdrLen()])
      && (!ok ==> port.failed)
  {
    EmptyFlat(port.mem);
    hide Port.Valid, Flat;
    var d := port.At(c);
    port.RangeExact(c, 0, 0);
    ok := port.AddFragsFrom(n, c, 0, d.ipLen + d.transLen);
  }

  /** Append to n the data fragments of the next segment of c. */
  method AddData(port: Port, n: nat, c: nat) returns (ok: bool)
    requires port.Valid() && n in port.live && c in port.live && n != c
    requires FrameOf(port.mem, port.live[c]).Ok() && port.live[n].len <= 0xFFFF
    modifies port`descs, port`pageRefs, port`failed, port`live
    ensures port.Valid() && n in port.live && (old(port.failed) ==> port.failed)
    ensures Refilled(old(port.live), port.live, n)
    ensures var d := old(port.live[c]);
      var f := FrameOf(port.mem, d);
      var at, dlen := f.HdrLen() + d.dataOffset, Times(d.gsoSize, d.gsoSegs);
      && (ok ==>
          && port.failed == old(port.failed)
          && d.dataOffset + dlen <= |f.Payload()|
          && Flat(port.mem, port.live[n].frags) == Flat(port.mem, old(port.live[n]).frags) + f.bytes[at..at + dlen])
      && (!ok ==> port.failed || d.dataOffset + dlen > |f.Payload()|)
  {
    hide Port.Valid, Flat, Times;
    var d := port.At(c);
    var dlen := DataLen(d);
    port.RangeExact(c, 0, 0);
    ok := port.AddFragsFrom(n, c, d.ipLen + d.transLen + d.dataOffset, dlen);
  }

  /** Header and data fragments of the next segment. */
  method AddSegment(port: Port, n: nat, c: nat) returns (ok: bool)
    requires port.Valid() && n in port.live && c in port.live && n != c
    requires FrameOf(port.mem, port.live[c]).Ok() && port.live[n].frags == [] && port.live[n].len == 0
    modifies port`descs, port`pageRefs, port`failed, port`live
    ensures port.Valid() && n in port.live && (old(port.failed) ==> port.failed)
    ensures Refilled(old(port.live), port.live, n)
    ensures var d := old(port.live[c]);
      var f := FrameOf(port.mem, d);
      && (ok ==>
          && port.failed == old(port.failed)
          && d.dataOffset + Times(d.gsoSize, d.gsoSegs) <= |f.Payload()|
          && Flat(port.mem, port.live[n].frags) == SegmentBytes(f, d))
      && (!ok ==> port.failed || d.dataOffset + Times(d.gsoSize, d.gsoSegs) > |f.Payload()|)
  {
    hide Port.Valid, Flat, Times, SegmentBytes, Refilled;
    ok := AddHeader(port, n, c);
    if ok {
      ghost var mid := port.live;
      ok := AddData(port, n, c);
      RefilledTwice(old(port.live), mid, port.live, n, c);
      if ok {
        SegmentBytesAre(FrameOf(port.mem, mid[c]), mid[c]);
      }
    }
  }

  /** A new descriptor that copies the metadata of c and holds its next segment. */
  method CopySegment(port: Port, c: nat) returns (r: Option<nat>)
    requires port.Valid() && c in port.live && FrameOf(port.mem, port.live[c]).Ok()
    modifies port
    ensures port.Valid() && (old(port.failed) ==> port.failed)
    ensures var d := old(port.live[c]);
      var f := FrameOf(port.mem, d);
      if r.Some? then
        && port.failed == old(port.failed)
        && r.value !in old(port.live) && r.value in port.live
        && port.live == old(port.live)[r.value := port.live[r.value]]
        && d.dataOffset + Times(d.gsoSize, d.gsoSegs) <= |f.Payload()|
        && port.live[r.value] == d.(frags := port.live[r.value].frags, len := port.live[r.value].len)
        && Flat(port.mem, port.live[r.value].frags) == SegmentBytes(f, d)
      else
        port.live == old(port.live) && (port.failed || d.dataOffset + Times(d.gsoSize, d.gsoSegs) > |f.Payload()|)
  {
    hide Port.Valid, Flat, Times, SegmentBytes;
    r := port.Get();
    if r.None? {
      return;
    }
    var n := r.value;
    port.SetMeta(n, port.At(c).(frags := [], len := 0));
    var ok := AddSegment(port, n, c);
    if !ok {
      port.Recycle(n);
      assert port.live == old(port.live);
      r := None;
    }
  }

  /** The coalesced descriptor carries no per-segment metadata of its own. */
  predicate Plain(d: Desc) {
    d.tcpSeq.None? && d.ipId.None? && !d.tcpFlagsCleared
  }

  /** Metadata of the segment the coalesced descriptor d is about to give, on top of its fragments s. */
  function SegmentMeta(f: Frame, d: Desc, s: Desc, csumValid: bool): Desc
    requires f.Ok()
  {
    s.(tcpSeq := if f.transProto == PROTO_TCP then Some(SeqAt(f, d.dataOffset)) else s.tcpSeq,
       tcpFlagsCleared := s.tcpFlagsCleared
         || (f.FinOrPsh() && d.dataOffset + Times(d.gsoSize, d.gsoSegs) < |f.Payload()|),
       ipId := if f.ipProto == 4 then Some((f.Id() + d.pktId) % 0x1_0000) else s.ipId,
       csumValid := csumValid || f.ZeroCsum())
  }

  /** Sequence number and FIN-or-PSH of the TCP header; its recycle branch is dead, the frame was parsed before. */
  method ReadTcp(port: Port, c: nat) returns (seqNo: u32, finOrPsh: bool)
    requires port.Valid() && c in port.live && FrameOf(port.mem, port.live[c]).Ok()
    requires port.live[c].transProto == PROTO_TCP
    ensures seqNo == FrameOf(port.mem, port.live[c]).Seq()
    ensures finOrPsh == FrameOf(port.mem, port.live[c]).FinOrPsh()
  {
    hide Port.Valid, Flat;
    var th := port.HeaderPtr(c, port.At(c).ipLen, 20);
    if th.None? {
      assert false;
    }
    ghost var f := FrameOf(port.mem, port.live[c]);
    assert Be32(th.value, 4) == Be32(f.bytes, f.ipLen + 4) && th.value[13] == f.bytes[f.ipLen + 13];
    seqNo := Be32(th.value, 4);
    finOrPsh := th.value[13] % 2 == 1 || th.value[13] / 8 % 2 == 1;
  }

  /** Whether the UDP header of an IPv4 packet has checksum 0. */
  method ReadZeroCsum(port: Port, c: nat) returns (zero: bool)
    requires port.Valid() && c in port.live && FrameOf(port.mem, port.live[c]).Ok()
    requires port.live[c].transProto == PROTO_UDP
    ensures zero == FrameOf(port.mem, port.live[c]).ZeroCsum()
  {
    hide Port.Valid, Flat;
    var uh := port.HeaderPtr(c, port.At(c).ipLen, 8);
    if uh.None? {
      assert false;
    }
    ghost var f := FrameOf(port.mem, port.live[c]);
    assert Be16(uh.value, 6) == Be16(f.bytes, f.ipLen + 6);
    zero := port.At(c).ipProto == 4 && Be16(uh.value, 6) == 0;
  }

  method ReadIpId(port: Port, c: nat) returns (id: u16)
    requires port.Valid() && c in port.live && FrameOf(port.mem, port.live[c]).Ok()
    requires port.live[c].ipProto == 4
    ensures id == FrameOf(port.mem, port.live[c]).Id()
  {
    hide Port.Valid, Flat;
    var iph := port.HeaderPtr(c, 0, 20);
    if iph.None? {
      assert false;
    }
    assert Be16(iph.value, 4) == Be16(FrameOf(port.mem, port.live[c]).bytes, 4);
    id := Be16(iph.value, 4);
  }

  /** The protocol-specific part of __rmnet_frag_segment_data. */
  method ReadMeta(port: Port, c: nat, s: Desc, csumValid: bool) returns (m: Desc)
    requires port.Valid() && c in port.live && FrameOf(port.mem, port.live[c]).Ok()
    ensures m == SegmentMeta(FrameOf(port.mem, port.live[c]), port.live[c], s, csumValid)
  {
    hide Port.Valid, Flat, Times;
    var d := port.At(c);
    port.RangeExact(c, 0, 0);
    m := s.(csumValid := csumValid);
    if d.transProto == PROTO_TCP {
      var seqNo, finOrPsh := ReadTcp(port, c);
      m := m.(tcpSeq := Some((seqNo + d.dataOffset) % 0x1_0000_0000));
      if finOrPsh {
        var dlen := DataLen(d);
        if d.ipLen + d.transLen + d.dataOffset + dlen < d.len {
          m := m.(tcpFlagsCleared := true);
        }
      }
    } else if d.transProto == PROTO_UDP {
      var zero := ReadZeroCsum(port, c);
      if zero {
        m := m.(csumValid := true);
      }
    }
    if d.ipProto == 4 {
      var id := ReadIpId(port, c);
      m := m.(ipId := Some((id + d.pktId) % 0x1_0000));
    }
  }

  lemma {:induction false} SegmentMetaIsSegAt(mem: Memory, f: Frame, d: Desc, s: Desc, csumValid: bool)
    requires f == FrameOf(mem, d) && f.Ok() && Plain(d)
    requires d.dataOffset + Times(d.gsoSize, d.gsoSegs) <= |f.Payload()|
    requires s == d.(frags := s.frags, len := s.len) && Flat(mem, s.frags) == SegmentBytes(f, d)
    ensures SegOf(mem, SegmentMeta(f, d, s, csumValid))
         == SegAt(f, d.dataOffset, d.gsoSize, d.gsoSegs, d.pktId, csumValid)
  {
    hide Flat, Times;
    var h := f.bytes[..f.HdrLen()];
    var p := f.Payload()[d.dataOffset..d.dataOffset + Times(d.gsoSize, d.gsoSegs)];
    assert (h + p)[|h|..] == p && (h + p)[..|h|] == h;
  }

  /** __rmnet_frag_segment_data: `n` is the descriptor appended to the list, if any. */
  method SegmentData(port: Port, c: nat, list: seq<nat>, pktId: u8, csumValid: bool)
    returns (out: seq<nat>, ghost n: Option<nat>)
    requires port.Valid() && c in port.live && FrameOf(port.mem, port.live[c]).Ok() && Plain(port.live[c])
    modifies port
    ensures port.Valid() && (old(port.failed) ==> port.failed)
    ensures var d := old(port.live[c]);
      var f := FrameOf(port.mem, d);
      if n.Some? then
        && port.failed == old(port.failed)
        && n.value !in old(port.live) && n.value in port.live && out == list + [n.value]
        && d.dataOffset + Times(d.gsoSize, d.gsoSegs) <= |f.Payload()|
        && port.live == old(port.live)[n.value := port.live[n.value]][c := Advanced(d, pktId)]
        && SegOf(port.mem, port.live[n.value]) == SegAt(f, d.dataOffset, d.gsoSize, d.gsoSegs, d.pktId, csumValid)
      else
        && out == list && port.live == old(port.live)
        && (port.failed || d.dataOffset + Times(d.gsoSize, d.gsoSegs) > |f.Payload()|)
  {
    hide Port.Valid, Flat, Times, SegmentBytes, SegAt, SegOf;
    var d := port.At(c);
    var r := CopySegment(port, c);
    if r.None? {
      return list, None;
    }
    var s := port.At(r.value);
    var m := ReadMeta(port, c, s, csumValid);
    SegmentMetaIsSegAt(port.mem, FrameOf(port.mem, d), d, s, csumValid);
    port.SetMeta(r.value, m);
    port.SetMeta(c, Advanced(d, pktId));
    out, n := list + [r.value], r;
  }

  /** The descriptors of `list` are distinct and describe the segments ss, in order. */
  predicate Lists(mem: Memory, ds: map<nat, Desc>, list: seq<nat>, ss: seq<Seg>) {
    && |list| == |ss| && Distinct(list)
    && forall k :: 0 <= k < |list| ==> list[k] in ds && SegOf(mem, ds[list[k]]) == ss[k]
  }

  /** Splitting changes only its cursor fields of the coalesced descriptor. */
  predicate SameButCursor(d: Desc, e: Desc) {
    e == d.(dataOffset := e.dataOffset, gsoSize := e.gsoSize, gsoSegs := e.gsoSegs, pktId := e.pktId)
  }

  /** `now` adds the descriptors at `more` and may have changed only c. */
  predicate ExtendsBut(before: map<nat, Desc>, now: map<nat, Desc>, c: nat, more: set<nat>) {
    && before.Keys !! more
    && now.Keys == before.Keys + more
    && (forall h :: h in before && h != c ==> now[h] == before[h])
  }

  /** What a split starts from: the descriptors alive, the coalesced one among them, its frame, NLOs and error mask. */
  datatype Job = Job(mem: Memory, before: map<nat, Desc>, c: nat, f: Frame, nlos: seq<Nlo>, mask: nat) {
    ghost predicate Ok() {
      f.Ok() && c in before && Plain(before[c]) && FrameOf(mem, before[c]) == f
    }

    /** Position (i, j): packet j of NLO i comes next. */
    predicate At(i: nat, j: nat) { i <= |nlos| && (i < |nlos| ==> j <= nlos[i].count) }

    /** At every point of splitting: `now` adds the emitted list, whose segments tile the payload up to data_offset. */
    ghost predicate Inv(now: map<nat, Desc>, list: seq<nat>, ss: seq<Seg>) {
      && Ok()
      && ExtendsBut(before, now, c, Elements(list))
      && c in now && SameButCursor(before[c], now[c])
      && Lists(mem, now, list, ss)
      && Chain(f, ss, now[c].dataOffset)
    }

    /**
     * Nothing lost so far: packets emitted, merged into the cursor d and still to come are the packets of the frame.
     */
    ghost predicate OnTrack(ss: seq<Seg>, d: Desc, i: nat, j: nat, m: nat)
    {
      && f.Ok() && At(i, j)
      && Balanced(f, nlos, Packets(f, nlos, 0, 0, 0, mask), ExpandAll(f, ss),
                  d.dataOffset, d.gsoSize, d.gsoSegs, i, j, m)
    }

    lemma InvFacts(now: map<nat, Desc>, list: seq<nat>, ss: seq<Seg>)
      requires Inv(now, list, ss)
      ensures f.Ok() && c in now && FrameOf(mem, now[c]) == f && Plain(now[c])
    {
    }

    lemma InvParts(now: map<nat, Desc>, list: seq<nat>, ss: seq<Seg>)
      requires Inv(now, list, ss)
      ensures Ok() && c in before && c in now && ExtendsBut(before, now, c, Elements(list))
      ensures SameButCursor(before[c], now[c]) && Lists(mem, now, list, ss) && Chain(f, ss, now[c].dataOffset)
    {
    }

    lemma InvFrom(now: map<nat, Desc>, list: seq<nat>, ss: seq<Seg>, e: Desc)
      requires Ok() && c in before && c in now && now[c] == e && ExtendsBut(before, now, c, Elements(list))
      requires SameButCursor(before[c], e) && Lists(mem, now, list, ss) && Chain(f, ss, e.dataOffset)
      ensures Inv(now, list, ss)
    {
    }

    /** One more segment moves the end of the tiling on to the advanced cursor. */
    lemma {:induction false} EmitChain(d: Desc, ss: seq<Seg>, pktId: u8, csumValid: bool)
      requires Ok() && SameButCursor(before[c], d) && Chain(f, ss, d.dataOffset)
      requires d.dataOffset + Times(d.gsoSize, d.gsoSegs) <= |f.Payload()|
      ensures var e := Advanced(d, pktId);
        && SameButCursor(before[c], e)
        && Chain(f, ss + [SegAt(f, d.dataOffset, d.gsoSize, d.gsoSegs, d.pktId, csumValid)], e.dataOffset)
    {
      hide Chain, SegAt, Times, Advanced;
      ChainSnoc(f, ss, d.dataOffset, d.gsoSize, d.gsoSegs, d.pktId, csumValid);
      AdvancedCursor(before[c], d, pktId, |f.Payload()|);
    }

    lemma {:induction false} InvEmit(now: map<nat, Desc>, list: seq<nat>, ss: seq<Seg>, n: nat, x: Desc, pktId: u8,
                                     csumValid: bool)
      requires Inv(now, list, ss) && n !in now
      requires now[c].dataOffset + Times(now[c].gsoSize, now[c].gsoSegs) <= |f.Payload()|
      requires SegOf(mem, x) == SegAt(f, now[c].dataOffset, now[c].gsoSize, now[c].gsoSegs, now[c].pktId, csumValid)
      ensures Inv(now[n := x][c := Advanced(now[c], pktId)], list + [n], ss + [SegOf(mem, x)])
    {
      hide *;
      InvParts(now, list, ss);
      EmitChain(now[c], ss, pktId, csumValid);
      EmitMaps(now, list, ss, n, x, Advanced(now[c], pktId));
    }

    lemma {:induction false} EmitMaps(now: map<nat, Desc>, list: seq<nat>, ss: seq<Seg>, n: nat, x: Desc, e: Desc)
      requires Ok() && c in before && c in now && n !in now && ExtendsBut(before, now, c, Elements(list))
      requires Lists(mem, now, list, ss)
      requires SameButCursor(before[c], e) && Chain(f, ss + [SegOf(mem, x)], e.dataOffset)
      ensures Inv(now[n := x][c := e], list + [n], ss + [SegOf(mem, x)])
    {
      hide *;
      ExtendsButEmit(before, now, c, list, n, x, e);
      ListsEmit(mem, before, now, c, list, ss, n, x, e);
      InvFrom(now[n := x][c := e], list + [n], ss + [SegOf(mem, x)], e);
    }

    lemma {:induction false} InvCursor(now: map<nat, Desc>, list: seq<nat>, ss: seq<Seg>, size: u16, segs: u16)
      requires Inv(now, list, ss)
      ensures Inv(now[c := now[c].(gsoSize := size, gsoSegs := segs)], list, ss)
    {
      forall k | 0 <= k < |list|
        ensures list[k] != c
      {
        Apart(before, now, c, list, k);
      }
    }

    lemma {:induction false} FlushOnTrack(ss: seq<Seg>, d: Desc, i: nat, j: nat, m: nat, pktId: u8)
      requires OnTrack(ss, d, i, j, m)
      ensures d.dataOffset + Times(d.gsoSize, d.gsoSegs) <= |f.Payload()|
      ensures OnTrack(ss + [SegAt(f, d.dataOffset, d.gsoSize, d.gsoSegs, d.pktId, true)], Advanced(d, pktId), i, j, m)
    {
      hide Packets, GoodRun, ExpandAll, Remaining, Cutup, Times, Expand, SegAt;
      BalancedFlush(f, nlos, Packets(f, nlos, 0, 0, 0, mask), ExpandAll(f, ss),
                    d.dataOffset, d.gsoSize, d.gsoSegs, i, j, m);
      ExpandRun(f, d.dataOffset, d.gsoSize, d.gsoSegs, d.pktId);
      ExpandAllSnoc(f, ss, SegAt(f, d.dataOffset, d.gsoSize, d.gsoSegs, d.pktId, true));
    }

    lemma {:induction false} SingleOnTrack(ss: seq<Seg>, d: Desc, i: nat, j: nat, m: nat, pktId: u8)
      requires OnTrack(ss, d, i, j, m) && d.gsoSegs == 0
      requires i < |nlos| && j < nlos[i].count && d.gsoSize == SegSize(f, nlos[i])
      ensures d.dataOffset + Times(d.gsoSize, 1) <= |f.Payload()|
      ensures OnTrack(ss + [SegAt(f, d.dataOffset, d.gsoSize, 1, d.pktId, m % 2 == 0)],
                      Advanced(d.(gsoSegs := 1), pktId), i, j + 1, m / 2)
    {
      AdvancedOne(d, pktId);
      hide Packets, GoodRun, ExpandAll, Remaining, Cutup, Expand, SegAt, PacketAt, Times, Advanced, SegSize;
      BalancedSingle(f, nlos, Packets(f, nlos, 0, 0, 0, mask), ExpandAll(f, ss), d.dataOffset, d.gsoSize, i, j, m);
      ExpandOne(f, d.dataOffset, d.gsoSize, d.pktId, m % 2 == 1);
      ExpandAllSnoc(f, ss, SegAt(f, d.dataOffset, d.gsoSize, 1, d.pktId, m % 2 == 0));
    }

    lemma {:induction false} MergeOnTrack(ss: seq<Seg>, d: Desc, i: nat, j: nat, m: nat)
      requires OnTrack(ss, d, i, j, m) && m % 2 == 0 && d.gsoSegs < 0xFFFF
      requires i < |nlos| && j < nlos[i].count && d.gsoSize == SegSize(f, nlos[i])
      ensures OnTrack(ss, d.(gsoSegs := d.gsoSegs + 1), i, j + 1, m / 2)
    {
      hide Packets, GoodRun, ExpandAll, Remaining, Times;
      BalancedMerge(f, nlos, Packets(f, nlos, 0, 0, 0, mask), ExpandAll(f, ss),
                    d.dataOffset, d.gsoSize, d.gsoSegs, i, j, m);
    }

    lemma {:induction false} NextOnTrack(ss: seq<Seg>, d: Desc, i: nat, m: nat)
      requires i < |nlos| && OnTrack(ss, d, i, nlos[i].count, m) && d.gsoSegs == 0
      ensures OnTrack(ss, d, i + 1, 0, m)
    {
      hide GoodRun, ExpandAll;
      BalancedNext(f, nlos, Packets(f, nlos, 0, 0, 0, mask), ExpandAll(f, ss),
                   d.dataOffset, d.gsoSize, d.gsoSize, i, m);
    }

    lemma {:induction false} ResizeOnTrack(ss: seq<Seg>, d: Desc, i: nat, j: nat, m: nat, size: u16)
      requires OnTrack(ss, d, i, j, m) && d.gsoSegs == 0
      ensures OnTrack(ss, d.(gsoSize := size), i, j, m)
    {
      hide ExpandAll, Packets;
    }

    lemma {:induction false} StartOnTrack()
      requires Ok() && before[c].dataOffset == 0 && before[c].gsoSegs == 0 && Covered(f, nlos)
      ensures OnTrack([], before[c], 0, 0, mask)
    {
      assert [] + [] + Packets(f, nlos, 0, 0, 0, mask) == Packets(f, nlos, 0, 0, 0, mask);
    }

    /** Once every NLO is done, the emitted segments expand to exactly the packets of the frame. */
    lemma DoneOnTrack(ss: seq<Seg>, d: Desc, m: nat)
      requires OnTrack(ss, d, |nlos|, 0, m) && d.gsoSegs == 0
      ensures ExpandAll(f, ss) == Packets(f, nlos, 0, 0, 0, mask)
    {
    }

    lemma StartInv()
      requires Ok() && before[c].dataOffset == 0
      ensures Inv(before, [], [])
    {
    }
  }

  lemma {:induction false} Apart(before: map<nat, Desc>, now: map<nat, Desc>, c: nat, list: seq<nat>, k: nat)
    requires c in before && ExtendsBut(before, now, c, Elements(list)) && k < |list|
    ensures list[k] != c && list[k] in now
  {
    assert list[k] in Elements(list);
  }

  lemma AdvancedCursor(b: Desc, d: Desc, pktId: u8, len: nat)
    requires SameButCursor(b, d) && d.dataOffset + Times(d.gsoSize, d.gsoSegs) <= len <= 0xFFFF
    ensures SameButCursor(b, Advanced(d, pktId))
    ensures Advanced(d, pktId).dataOffset == d.dataOffset + Times(d.gsoSize, d.gsoSegs)
  {
  }

  lemma {:induction false} AdvancedOne(d: Desc, pktId: u8)
    ensures Times(d.gsoSize, 1) == d.gsoSize && Times(d.gsoSize, 0) == 0
    ensures var e := Advanced(d.(gsoSegs := 1), pktId);
      e.gsoSize == d.gsoSize && e.gsoSegs == 0 && e.dataOffset == (d.dataOffset + d.gsoSize) % 0x1_0000
  {
    assert Times(d.gsoSize, 1) == Times(d.gsoSize, 0) + d.gsoSize;
  }

  lemma {:induction false} ExtendsButEmit(before: map<nat, Desc>, now: map<nat, Desc>, c: nat, list: seq<nat>,
                                          n: nat, x: Desc, d: Desc)
    requires c in before && ExtendsBut(before, now, c, Elements(list)) && n !in now
    ensures ExtendsBut(before, now[n := x][c := d], c, Elements(list + [n]))
  {
    assert Elements(list + [n]) == Elements(list) + {n};
  }

  lemma {:induction false} ListsEmit(mem: Memory, before: map<nat, Desc>, now: map<nat, Desc>, c: nat,
                  list: seq<nat>, ss: seq<Seg>, n: nat, x: Desc, d: Desc)
    requires c in before && ExtendsBut(before, now, c, Elements(list)) && n !in now && c in now
    requires Lists(mem, now, list, ss)
    ensures Lists(mem, now[n := x][c := d], list + [n], ss + [SegOf(mem, x)])
  {
    hide SegOf;
    forall k | 0 <= k < |list|
      ensures list[k] != c && list[k] != n
    {
      Apart(before, now, c, list, k);
    }
  }

  lemma {:induction false} ExpandAllSnoc(f: Frame, ss: seq<Seg>, s: Seg)
    requires f.Ok()
    ensures ExpandAll(f, ss + [s]) == ExpandAll(f, ss) + Expand(f, s)
  {
    assert (ss + [s])[..|ss|] == ss;
  }

  /** Packet k carries the IPv4 id base + k, and the cursor is ready for the next one. */
  predicate IdsOk(f: Frame, ss: seq<Seg>, d: Desc, total: nat)
    requires f.Ok()
  {
    && |ss| == total && d.gsoSegs == 0 && d.pktId == total % 0x100
    && Ids(f, ss)
  }

  /** Segment k is one packet and carries the IPv4 id base + k. */
  predicate Ids(f: Frame, ss: seq<Seg>)
    requires f.Ok()
  {
    forall k :: 0 <= k < |ss| ==>
      ss[k].segs == 1 && ss[k].id == if f.ipProto == 4 then Some((f.Id() + k % 0x100) % 0x1_0000) else None
  }

  lemma IdsStep(f: Frame, ss: seq<Seg>, d: Desc, csumValid: bool, total: nat)
    requires f.Ok() && IdsOk(f, ss, d, total) && d.dataOffset + Times(d.gsoSize, 1) <= |f.Payload()|
    ensures IdsOk(f, ss + [SegAt(f, d.dataOffset, d.gsoSize, 1, d.pktId, csumValid)],
                  Advanced(d.(gsoSegs := 1), total % 0x100), total + 1)
  {
  }

  /** SegmentData within a split. */
  method Emit(port: Port, ghost job: Job, c: nat, list: seq<nat>, ghost ss: seq<Seg>, pktId: u8, csumValid: bool)
    returns (out: seq<nat>, ghost tt: seq<Seg>)
    requires port.Valid() && c == job.c && port.mem == job.mem && job.Inv(port.live, list, ss)
    modifies port
    ensures port.Valid() && (old(port.failed) ==> port.failed)
    ensures job.Inv(port.live, out, tt) && c in port.live
    ensures var d := old(port.live[c]);
      if d.dataOffset + Times(d.gsoSize, d.gsoSegs) <= |job.f.Payload()| && tt != ss then
        && tt == ss + [SegAt(job.f, d.dataOffset, d.gsoSize, d.gsoSegs, d.pktId, csumValid)]
        && port.live[c] == Advanced(d, pktId)
      else
        && tt == ss && port.live[c] == d
        && (port.failed || d.dataOffset + Times(d.gsoSize, d.gsoSegs) > |job.f.Payload()|)
  {
    job.InvFacts(port.live, list, ss);
    hide Port.Valid, Job.Inv, SegAt, SegOf, Times;
    ghost var now := port.live;
    ghost var n;
    out, n := SegmentData(port, c, list, pktId, csumValid);
    tt := ss;
    if n.Some? {
      job.InvEmit(now, list, ss, n.value, port.live[n.value], pktId, csumValid);
      tt := ss + [SegOf(port.mem, port.live[n.value])];
    }
  }

  /** Segment out the good data merged so far. */
  method Flush(port: Port, ghost job: Job, c: nat, list: seq<nat>, ghost ss: seq<Seg>, totalPkt: u8,
               ghost i: nat, ghost j: nat, ghost m: nat)
    returns (out: seq<nat>, ghost tt: seq<Seg>)
    requires port.Valid() && c == job.c && port.mem == job.mem && job.Inv(port.live, list, ss) && c in port.live
    modifies port
    ensures port.Valid() && (old(port.failed) ==> port.failed)
    ensures job.Inv(port.live, out, tt) && c in port.live
    ensures port.live[c].gsoSize == old(port.live[c]).gsoSize && port.live[c].gsoSegs <= old(port.live[c]).gsoSegs
    ensures old(port.live[c]).gsoSegs == 0 ==> tt == ss && port.live[c] == old(port.live[c])
    ensures ss <= tt
    ensures !port.failed && job.OnTrack(ss, old(port.live[c]), i, j, m) ==>
      job.OnTrack(tt, port.live[c], i, j, m) && port.live[c].gsoSegs == 0
  {
    hide Port.Valid, Job.Inv, Job.OnTrack, SegAt, Times;
    ghost var d := port.live[c];
    out, tt := list, ss;
    if port.At(c).gsoSegs != 0 {
      out, tt := Emit(port, job, c, list, ss, totalPkt, true);
      if !port.failed && job.OnTrack(ss, d, i, j, m) {
        job.FlushOnTrack(ss, d, i, j, m, totalPkt);
      }
    }
  }

  /** Segment out one packet at the cursor by itself. */
  method EmitOne(port: Port, ghost job: Job, c: nat, list: seq<nat>, ghost ss: seq<Seg>, totalPkt: u8, csumErr: bool)
    returns (out: seq<nat>, ghost tt: seq<Seg>)
    requires port.Valid() && c == job.c && port.mem == job.mem && job.Inv(port.live, list, ss) && c in port.live
    modifies port
    ensures port.Valid() && (old(port.failed) ==> port.failed)
    ensures job.Inv(port.live, out, tt) && c in port.live && job.f.Ok()
    ensures var d := old(port.live[c]);
      if tt == ss then
        && port.live[c] == d.(gsoSegs := 1)
        && (port.failed || d.dataOffset + Times(d.gsoSize, 1) > |job.f.Payload()|)
      else
        && d.dataOffset + Times(d.gsoSize, 1) <= |job.f.Payload()|
        && tt == ss + [SegAt(job.f, d.dataOffset, d.gsoSize, 1, d.pktId, !csumErr)]
        && port.live[c] == Advanced(d.(gsoSegs := 1), totalPkt)
  {
    hide *;
    job.InvFacts(port.live, list, ss);
    ghost var d := port.live[c];
    job.InvCursor(port.live, list, ss, d.gsoSize, 1);
    port.SetMeta(c, port.At(c).(gsoSegs := 1));
    assert port.live[c] == d.(gsoSegs := 1);
    assert port.live[c].gsoSize == d.gsoSize && port.live[c].dataOffset == d.dataOffset;
    out, tt := Emit(port, job, c, list, ss, totalPkt, !csumErr);
  }

  /** Segment out packet j of NLO i by itself. */
  method Single(port: Port, ghost job: Job, c: nat, list: seq<nat>, ghost ss: seq<Seg>, totalPkt: u8, csumErr: bool,
                ghost i: nat, ghost j: nat, ghost m: nat)
    returns (out: seq<nat>, ghost tt: seq<Seg>)
    requires port.Valid() && c == job.c && port.mem == job.mem && job.Inv(port.live, list, ss) && c in port.live
    requires i < |job.nlos| && j < job.nlos[i].count && csumErr == (m % 2 == 1)
    requires port.live[c].gsoSize == SegSize(job.f, job.nlos[i])
    modifies port
    ensures port.Valid() && (old(port.failed) ==> port.failed)
    ensures job.Inv(port.live, out, tt) && c in port.live && job.f.Ok()
    ensures port.live[c].gsoSize == old(port.live[c]).gsoSize && port.live[c].gsoSegs <= 1
    ensures !port.failed && job.OnTrack(ss, old(port.live[c]), i, j, m) && old(port.live[c]).gsoSegs == 0 ==>
      job.OnTrack(tt, port.live[c], i, j + 1, m / 2) && port.live[c].gsoSegs == 0 && tt != ss
    ensures var d := old(port.live[c]);
      || tt == ss
      || (&& d.dataOffset + Times(d.gsoSize, 1) <= |job.f.Payload()|
          && tt == ss + [SegAt(job.f, d.dataOffset, d.gsoSize, 1, d.pktId, !csumErr)]
          && port.live[c] == Advanced(d.(gsoSegs := 1), totalPkt))
  {
    hide Port.Valid, Job.Inv, Job.OnTrack, SegAt, Times, FrameOf, Frame.Ok, Frame.Payload, SegSize;
    ghost var d := port.live[c];
    out, tt := EmitOne(port, job, c, list, ss, totalPkt, csumErr);
    if !port.failed && job.OnTrack(ss, d, i, j, m) && d.gsoSegs == 0 {
      job.SingleOnTrack(ss, d, i, j, m, totalPkt);
    }
  }

  /** Merge packet j of NLO i into the run not yet segmented. */
  method Merge(port: Port, ghost job: Job, c: nat, list: seq<nat>, ghost ss: seq<Seg>,
               ghost i: nat, ghost j: nat, ghost m: nat)
    requires port.Valid() && c == job.c && port.mem == job.mem && job.Inv(port.live, list, ss) && c in port.live
    requires i < |job.nlos| && j < job.nlos[i].count && m % 2 == 0 && port.live[c].gsoSegs < 0xFFFF
    requires port.live[c].gsoSize == SegSize(job.f, job.nlos[i])
    modifies port`descs, port`live
    ensures port.Valid() && c in port.live && job.Inv(port.live, list, ss)
    ensures port.live[c] == old(port.live[c]).(gsoSegs := old(port.live[c]).gsoSegs + 1)
    ensures job.OnTrack(ss, old(port.live[c]), i, j, m) ==> job.OnTrack(ss, port.live[c], i, j + 1, m / 2)
  {
    hide Port.Valid, Job.Inv, Job.OnTrack, SegSize;
    ghost var d := port.live[c];
    job.InvCursor(port.live, list, ss, d.gsoSize, d.gsoSegs + 1);
    if job.OnTrack(ss, d, i, j, m) {
      job.MergeOnTrack(ss, d, i, j, m);
    }
    port.SetMeta(c, port.At(c).(gsoSegs := port.At(c).gsoSegs + 1));
  }

  /** One round of the inner loop of rmnet_frag_segment_coal_data in GRO mode. */
  method GroPacket(port: Port, ghost job: Job, c: nat, list: seq<nat>, ghost ss: seq<Seg>, totalPkt: u8, csumErr: bool,
                   ghost i: nat, ghost j: nat, ghost m: nat)
    returns (out: seq<nat>, ghost tt: seq<Seg>)
    requires port.Valid() && c == job.c && port.mem == job.mem && job.Inv(port.live, list, ss) && c in port.live
    requires i < |job.nlos| && j < job.nlos[i].count && csumErr == (m % 2 == 1) && port.live[c].gsoSegs < 0xFFFF
    requires port.live[c].gsoSize == SegSize(job.f, job.nlos[i])
    modifies port
    ensures port.Valid() && (old(port.failed) ==> port.failed)
    ensures job.Inv(port.live, out, tt) && c in port.live
    ensures port.live[c].gsoSize == old(port.live[c]).gsoSize && port.live[c].gsoSegs <= old(port.live[c]).gsoSegs + 1
    ensures !port.failed && job.OnTrack(ss, old(port.live[c]), i, j, m) ==>
      job.OnTrack(tt, port.live[c], i, j + 1, m / 2)
  {
    hide Port.Valid, Job.Inv, Job.OnTrack, SegSize, SegAt, Times, Frame.Payload;
    if csumErr {
      out, tt := Flush(port, job, c, list, ss, totalPkt, i, j, m);
      out, tt := Single(port, job, c, out, tt, totalPkt, true, i, j, m);
    } else {
      out, tt := list, ss;
      Merge(port, job, c, list, ss, i, j, m);
    }
  }

  /** One round of the inner loop in per-packet mode; `lost` records that some segment could not be made. */
  method PlainPacket(port: Port, ghost job: Job, c: nat, list: seq<nat>, ghost ss: seq<Seg>, totalPkt: u8,
                     csumErr: bool,
                     ghost i: nat, ghost j: nat, ghost m: nat, ghost total: nat, ghost lost: bool)
    returns (out: seq<nat>, ghost tt: seq<Seg>, ghost lostNow: bool)
    requires port.Valid() && c == job.c && port.mem == job.mem && job.Inv(port.live, list, ss) && c in port.live
    requires i < |job.nlos| && j < job.nlos[i].count && csumErr == (m % 2 == 1) && totalPkt == total % 0x100
    requires port.live[c].gsoSize == SegSize(job.f, job.nlos[i])
    requires job.f.Ok() && (!lost ==> IdsOk(job.f, ss, port.live[c], total))
    modifies port
    ensures port.Valid() && (old(port.failed) ==> port.failed)
    ensures job.Inv(port.live, out, tt) && c in port.live
    ensures port.live[c].gsoSize == old(port.live[c]).gsoSize && port.live[c].gsoSegs <= 1
    ensures !port.failed && job.OnTrack(ss, old(port.live[c]), i, j, m) && !lost ==>
      job.OnTrack(tt, port.live[c], i, j + 1, m / 2) && !lostNow
    ensures !lostNow ==> IdsOk(job.f, tt, port.live[c], total + 1)
    ensures ss <= tt && (lost ==> lostNow)
  {
    hide Port.Valid, Job.Inv, Job.OnTrack, SegSize, SegAt, Times, Frame.Payload;
    ghost var d := port.live[c];
    hide IdsOk;
    out, tt := Single(port, job, c, list, ss, totalPkt, csumErr, i, j, m);
    lostNow := lost || tt == ss;
    if !lostNow {
      IdsStep(job.f, ss, d, !csumErr, total);
    }
  }

  /** The local variables of the loops: the output list, the unused part of the error mask and total_pkt. */
  datatype Cursor = Cursor(list: seq<nat>, mask: nat, totalPkt: u8)

  /**
   * What the loops have done so far: position, segments emitted, packets met, whether a segment could not be made, and
   * how many packets were met before the first that could not.
   */
  datatype Trace = Trace(i: nat, j: nat, ss: seq<Seg>, total: nat, lost: bool, kept: nat)

  /** State of the loops at packet j of NLO i. */
  ghost predicate LoopInv(port: Port, job: Job, gro: bool, cur: Cursor, t: Trace)
    reads port
  {
    && port.Valid() && port.mem == job.mem && job.Inv(port.live, cur.list, t.ss) && job.c in port.live && job.f.Ok()
    && port.live[job.c].gsoSegs <= t.total <= 256 * t.i + t.j && cur.totalPkt == t.total % 0x100
    && (!port.failed && Covered(job.f, job.nlos) ==> job.OnTrack(t.ss, port.live[job.c], t.i, t.j, cur.mask) && !t.lost)
    && (!gro ==> IdsKept(job.f, t, port.live[job.c]))
  }

  /**
   * In per-packet mode the packets before the first lost one are segments of their own with the ids base, base + 1,
   * ...
   */
  predicate IdsKept(f: Frame, t: Trace, d: Desc)
    requires f.Ok()
  {
    && t.kept <= t.total && t.kept <= |t.ss| && Ids(f, t.ss[..t.kept])
    && (!t.lost ==> t.kept == t.total && IdsOk(f, t.ss, d, t.total))
  }

  lemma {:induction false} IdsKeptNext(f: Frame, t: Trace, u: Trace, d: Desc, e: Desc)
    requires f.Ok() && IdsKept(f, t, d) && t.ss <= u.ss && u.total == t.total + 1 && (t.lost ==> u.lost)
    requires u.kept == if u.lost then t.kept else u.total
    requires !u.lost ==> IdsOk(f, u.ss, e, u.total)
    ensures IdsKept(f, u, e)
  {
    if u.lost {
      assert u.ss[..t.kept] == t.ss[..t.kept];
    } else {
      assert u.ss[..u.kept] == u.ss;
    }
  }

  /** Flushing what a lost segment left behind adds at the end. */
  lemma {:induction false} IdsKeptLonger(f: Frame, t: Trace, u: Trace, d: Desc, e: Desc)
    requires f.Ok() && IdsKept(f, t, d) && t.ss <= u.ss && u == t.(i := u.i, j := u.j, ss := u.ss)
    requires !t.lost ==> u.ss == t.ss && e == d
    ensures IdsKept(f, u, e)
  {
    assert u.ss[..t.kept] == t.ss[..t.kept];
  }

  lemma IdsKeptSegs(f: Frame, t: Trace, d: Desc)
    requires f.Ok() && IdsKept(f, t, d)
    ensures !t.lost ==> d.gsoSegs == 0 && IdsOk(f, t.ss, d, t.total)
  {
  }

  lemma IdsKeptResized(f: Frame, t: Trace, d: Desc, size: u16)
    requires f.Ok() && IdsKept(f, t, d)
    ensures IdsKept(f, t, d.(gsoSize := size))
  {
  }

  /** gso_size has been set for the NLO at hand. */
  ghost predicate Sized(port: Port, job: Job, i: nat)
    reads port
  {
    i < |job.nlos| <= MAX_NLOS && job.c in port.live && port.live[job.c].gsoSize == SegSize(job.f, job.nlos[i])
  }

  /** total_pkt is the number of packets met, in eight bits. */
  lemma {:induction false} CountWraps(total: nat)
    ensures (total % 0x100 + 1) % 0x100 == (total + 1) % 0x100
  {
    var q, r := total / 0x100, total % 0x100;
    assert total == 0x100 * q + r;
    assert r == 0xFF ==> total + 1 == 0x100 * (q + 1);
  }

  /** One round of the inner loop in GRO mode. */
  method SplitGro(port: Port, ghost job: Job, c: nat, cur: Cursor, ghost t: Trace)
    returns (next: Cursor, ghost u: Trace)
    requires LoopInv(port, job, true, cur, t) && c == job.c && Sized(port, job, t.i) && t.j < job.nlos[t.i].count
    modifies port
    ensures old(port.failed) ==> port.failed
    ensures LoopInv(port, job, true, next, u) && Sized(port, job, t.i)
    ensures u.i == t.i && u.j == t.j + 1
  {
    hide Port.Valid, Job.Inv, Job.OnTrack, SegSize, IdsOk, Covered, Frame.Ok, IdsKept;
    CountWraps(t.total);
    var out;
    ghost var ss;
    out, ss := GroPacket(port, job, c, cur.list, t.ss, cur.totalPkt, cur.mask % 2 == 1, t.i, t.j, cur.mask);
    next := Cursor(out, cur.mask / 2, (cur.totalPkt + 1) % 0x100);
    u := t.(j := t.j + 1, ss := ss, total := t.total + 1);
  }

  lemma {:induction false} PlainFacts(port: Port, job: Job, cur: Cursor, t: Trace)
    requires LoopInv(port, job, false, cur, t)
    ensures port.Valid() && port.mem == job.mem && job.Inv(port.live, cur.list, t.ss)
    ensures job.c in port.live && job.f.Ok()
    ensures t.total <= 256 * t.i + t.j && cur.totalPkt == t.total % 0x100
    ensures !port.failed && Covered(job.f, job.nlos) ==>
      job.OnTrack(t.ss, port.live[job.c], t.i, t.j, cur.mask) && !t.lost
    ensures IdsKept(job.f, t, port.live[job.c]) && (!t.lost ==> IdsOk(job.f, t.ss, port.live[job.c], t.total))
  {
    hide Port.Valid, Job.Inv, Job.OnTrack, Covered, Frame.Ok;
    IdsKeptSegs(job.f, t, port.live[job.c]);
  }

  /** The invariant at the packet after t, in per-packet mode. */
  lemma {:induction false} PlainNext(port: Port, job: Job, next: Cursor, t: Trace, u: Trace, d: Desc)
    requires port.Valid() && port.mem == job.mem && job.Inv(port.live, next.list, u.ss)
    requires job.c in port.live && job.f.Ok()
    requires t.total <= 256 * t.i + t.j && u == Trace(t.i, t.j + 1, u.ss, t.total + 1, u.lost, u.kept)
    requires port.live[job.c].gsoSegs <= 1 && next.totalPkt == u.total % 0x100
    requires !port.failed && Covered(job.f, job.nlos) ==>
      job.OnTrack(u.ss, port.live[job.c], u.i, u.j, next.mask) && !u.lost
    requires IdsKept(job.f, t, d) && t.ss <= u.ss && (t.lost ==> u.lost)
    requires u.kept == if u.lost then t.kept else u.total
    requires !u.lost ==> IdsOk(job.f, u.ss, port.live[job.c], u.total)
    ensures LoopInv(port, job, false, next, u)
  {
    hide Port.Valid, Job.Inv, Job.OnTrack, Covered, Frame.Ok, IdsKept, IdsOk;
    IdsKeptNext(job.f, t, u, d, port.live[job.c]);
  }

  /** One round of the inner loop in per-packet mode. */
  method SplitPlain(port: Port, ghost job: Job, c: nat, cur: Cursor, ghost t: Trace)
    returns (next: Cursor, ghost u: Trace)
    requires LoopInv(port, job, false, cur, t) && c == job.c && Sized(port, job, t.i) && t.j < job.nlos[t.i].count
    modifies port
    ensures old(port.failed) ==> port.failed
    ensures LoopInv(port, job, false, next, u) && Sized(port, job, t.i)
    ensures u.i == t.i && u.j == t.j + 1
  {
    hide LoopInv, Port.Valid, Job.Inv, Job.OnTrack, SegSize, IdsOk, Covered, Frame.Ok, IdsKept;
    PlainFacts(port, job, cur, t);
    CountWraps(t.total);
    ghost var d := port.live[c];
    var out;
    ghost var ss, lost;
    out, ss, lost := PlainPacket(port, job, c, cur.list, t.ss, cur.totalPkt, cur.mask % 2 == 1, t.i, t.j, cur.mask,
                                 t.total, t.lost);
    next := Cursor(out, cur.mask / 2, (cur.totalPkt + 1) % 0x100);
    u := Trace(t.i, t.j + 1, ss, t.total + 1, lost, if lost then t.kept else t.total + 1);
    PlainNext(port, job, next, t, u, d);
  }

  /** One round of the inner loop. */
  method SplitPacket(port: Port, ghost job: Job, c: nat, gro: bool, cur: Cursor, ghost t: Trace)
    returns (next: Cursor, ghost u: Trace)
    requires LoopInv(port, job, gro, cur, t) && c == job.c && Sized(port, job, t.i) && t.j < job.nlos[t.i].count
    modifies port
    ensures old(port.failed) ==> port.failed
    ensures LoopInv(port, job, gro, next, u) && Sized(port, job, t.i)
    ensures u.i == t.i && u.j == t.j + 1
  {
    hide LoopInv, Sized;
    if gro {
      next, u := SplitGro(port, job, c, cur, t);
    } else {
      next, u := SplitPlain(port, job, c, cur, t);
    }
  }

  /** The inner loop of rmnet_frag_segment_coal_data over the packets of one NLO. */
  method SplitNlo(port: Port, ghost job: Job, c: nat, nlo: Nlo, gro: bool, cur: Cursor, ghost t: Trace)
    returns (next: Cursor, ghost u: Trace)
    requires LoopInv(port, job, gro, cur, t) && c == job.c && Sized(port, job, t.i) && t.j == 0 && nlo == job.nlos[t.i]
    modifies port
    ensures old(port.failed) ==> port.failed
    ensures LoopInv(port, job, gro, next, u)
    ensures u.i == t.i && u.j == nlo.count
  {
    assert t.i < |job.nlos|;
    hide *;
    var pkt: u8 := 0;
    next, u := cur, t;
    while pkt < nlo.count
      invariant pkt <= nlo.count && u.i == t.i && u.j == pkt
      invariant LoopInv(port, job, gro, next, u) && Sized(port, job, t.i)
      invariant old(port.failed) ==> port.failed
    {
      next, u := SplitPacket(port, job, c, gro, next, u);
      pkt := pkt + 1;
    }
  }

  /** Between NLOs, unless something failed, no merged packets are waiting. */
  ghost predicate Settled(port: Port, job: Job)
    reads port
  {
    job.c in port.live && job.f.Ok() && (!port.failed && Covered(job.f, job.nlos) ==> port.live[job.c].gsoSegs == 0)
  }

  /** Set gso_size for the packets of the NLO at hand. */
  method SetSize(port: Port, c: nat, nlo: Nlo)
    requires port.Valid() && c in port.live
    modifies port`descs, port`live
    ensures port.Valid()
    ensures var d := old(port.live[c]);
      port.live == old(port.live)[c := d.(gsoSize := SegSize(FrameOf(port.mem, d), nlo))]
  {
    hide Port.Valid, Flat;
    var d := port.At(c);
    port.SetMeta(c, d.(gsoSize := (nlo.pktLen - (d.ipLen + d.transLen)) % 0x1_0000));
  }

  /** SetSize within a split. */
  method StartNlo(port: Port, ghost job: Job, c: nat, nlo: Nlo, gro: bool, cur: Cursor, ghost t: Trace)
    requires LoopInv(port, job, gro, cur, t) && Settled(port, job) && c == job.c
    requires t.i < |job.nlos| <= MAX_NLOS && nlo == job.nlos[t.i]
    modifies port`descs, port`live
    ensures LoopInv(port, job, gro, cur, t) && Sized(port, job, t.i)
  {
    hide Port.Valid, Job.Inv, Job.OnTrack, SegSize, Covered, Frame.Ok, FrameOf, IdsKept;
    job.InvFacts(port.live, cur.list, t.ss);
    ghost var d, size := port.live[c], SegSize(job.f, nlo);
    if !gro {
      IdsKeptResized(job.f, t, d, size);
    }
    job.InvCursor(port.live, cur.list, t.ss, size, d.gsoSegs);
    if !port.failed && Covered(job.f, job.nlos) {
      job.ResizeOnTrack(t.ss, d, t.i, t.j, cur.mask, size);
    }
    SetSize(port, c, nlo);
  }

  /** Segment out what is left of an NLO before going on to the next. */
  method EndNlo(port: Port, ghost job: Job, c: nat, gro: bool, cur: Cursor, ghost t: Trace)
    returns (next: Cursor, ghost u: Trace)
    requires LoopInv(port, job, gro, cur, t) && c == job.c && t.i < |job.nlos| && t.j == job.nlos[t.i].count
    modifies port
    ensures old(port.failed) ==> port.failed
    ensures LoopInv(port, job, gro, next, u) && Settled(port, job)
    ensures u.i == t.i + 1 && u.j == 0
  {
    hide Port.Valid, Job.Inv, Job.OnTrack, Covered, Frame.Ok, IdsKept;
    var out;
    ghost var ss;
    ghost var d := port.live[c];
    if !gro {
      IdsKeptSegs(job.f, t, d);
    }
    out, ss := Flush(port, job, c, cur.list, t.ss, cur.totalPkt, t.i, t.j, cur.mask);
    next, u := cur.(list := out), t.(i := t.i + 1, j := 0, ss := ss);
    if !gro {
      IdsKeptLonger(job.f, t, u, d, port.live[c]);
    }
    if !port.failed && Covered(job.f, job.nlos) {
      job.NextOnTrack(ss, port.live[c], t.i, cur.mask);
    }
  }

  method SplitNlos(port: Port, ghost job: Job, c: nat, nlos: seq<Nlo>, gro: bool, start: Cursor, ghost t0: Trace)
    returns (cur: Cursor, ghost t: Trace)
    requires LoopInv(port, job, gro, start, t0) && Settled(port, job) && c == job.c
    requires nlos == job.nlos && |nlos| <= MAX_NLOS && t0.i == t0.j == 0
    modifies port
    ensures old(port.failed) ==> port.failed
    ensures LoopInv(port, job, gro, cur, t) && Settled(port, job) && t.i == |nlos| && t.j == 0
  {
    hide *;
    var nlo := 0;
    cur, t := start, t0;
    while nlo < |nlos|
      invariant nlo <= |nlos| && t.i == nlo && t.j == 0
      invariant LoopInv(port, job, gro, cur, t) && Settled(port, job)
      invariant old(port.failed) ==> port.failed
    {
      StartNlo(port, job, c, nlos[nlo], gro, cur, t);
      cur, t := SplitNlo(port, job, c, nlos[nlo], gro, cur, t);
      cur, t := EndNlo(port, job, c, gro, cur, t);
      nlo := nlo + 1;
    }
  }

  /**
   * The loops of rmnet_frag_segment_coal_data: whatever fails on the way, the list keeps tiling the payload up to
   * data_offset; with nothing failed it describes, in either mode, exactly the packets of the frame.
   */
  method SplitAll(port: Port, ghost job: Job, c: nat, nlos: seq<Nlo>, mask: nat, gro: bool)
    returns (list: seq<nat>, ghost t: Trace)
    requires port.Valid() && port.mem == job.mem && job.Ok() && port.live == job.before && c == job.c
    requires port.live[c].dataOffset == port.live[c].gsoSegs == port.live[c].pktId == 0
    requires nlos == job.nlos && |nlos| <= MAX_NLOS && mask == job.mask
    modifies port
    ensures port.Valid() && (old(port.failed) ==> port.failed)
    ensures job.Inv(port.live, list, t.ss) && job.f.Ok() && c in port.live
    ensures !port.failed && Covered(job.f, nlos) ==> ExpandAll(job.f, t.ss) == Packets(job.f, nlos, 0, 0, 0, mask)
    ensures !port.failed && Covered(job.f, nlos) ==> !t.lost
    ensures !gro ==> IdsKept(job.f, t, port.live[c])
  {
    var cur := Cursor([], mask, 0);
    t := Trace(0, 0, [], 0, false, 0);
    job.StartInv();
    if Covered(job.f, job.nlos) {
      job.StartOnTrack();
    }
    cur, t := SplitNlos(port, job, c, nlos, gro, cur, t);
    if !port.failed && Covered(job.f, nlos) {
      job.DoneOnTrack(t.ss, port.live[c], cur.mask);
    }
    list := cur.list;
  }
}
