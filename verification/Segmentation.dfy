/** Parsing, checking and dispatching of coalesced frames. */
module Segmentation {
  import opened Bytes
  import opened AddressLists
  import opened Fragments
  import opened Descriptors
  import opened Coalesced
  import opened Splitter
  import ExtensionHeaders
  import Frames

  const FRONT := Frames.MAP_HDR + Frames.COAL_HDR

  /** The error bitmaps of all NLOs, packed eight bits each. */
  function ErrMask(nlos: seq<Nlo>): nat {
    if nlos == [] then 0 else nlos[0].errBits + 0x100 * ErrMask(nlos[1..])
  }

  function Pow2(n: nat): nat { if n == 0 then 1 else 2 * Pow2(n - 1) }

  /** Bit k of a mask, counted from the lowest. */
  predicate Bit(mask: nat, k: nat) { if k == 0 then mask % 2 == 1 else Bit(mask / 2, k - 1) }

  lemma {:induction false} BitSkip(low: nat, high: nat, w: nat, k: nat)
    requires low < Pow2(w)
    ensures Bit(low + Pow2(w) * high, k) == if k < w then Bit(low, k) else Bit(high, k - w)
  {
    var p := Pow2(w);
    if w == 0 {
      assert low + 1 * high == high;
    } else {
      var q := Pow2(w - 1);
      assert p * high == 2 * (q * high);
      assert (low + p * high) / 2 == low / 2 + q * high;
      assert (low + p * high) % 2 == low % 2;
      if k != 0 {
        BitSkip(low / 2, high, w - 1, k - 1);
      }
    }
  }

  /**
   * The checksum of packet k of the frame is looked up in bit k % 8 of bitmap k / 8, whatever the packet counts are.
   */
  lemma {:induction false} MaskBit(nlos: seq<Nlo>, k: nat)
    requires k < 8 * |nlos|
    ensures Bit(ErrMask(nlos), k) == Bit(nlos[k / 8].errBits, k % 8)
  {
    assert Pow2(8) == 0x100 by { assert Pow2(4) == 16; }
    BitSkip(nlos[0].errBits, ErrMask(nlos[1..]), 8, k);
    if k >= 8 {
      MaskBit(nlos[1..], k - 8);
      assert (k - 8) / 8 == k / 8 - 1 && (k - 8) % 8 == k % 8;
    }
  }

  /** Packets promised by the NLOs. */
  function PacketCount(nlos: seq<Nlo>): nat {
    if nlos == [] then 0 else PacketCount(nlos[..|nlos| - 1]) + nlos[|nlos| - 1].count
  }

  /** The running 8-bit total never exceeds the packet limit. */
  predicate CountsOk(nlos: seq<Nlo>) {
    nlos == [] || (CountsOk(nlos[..|nlos| - 1]) && PacketCount(nlos) % 0x100 <= MAX_PACKETS)
  }

  /** The limit check is sound exactly when no single count can wrap the 8-bit total past it. */
  lemma {:induction false} CountsExact(nlos: seq<Nlo>)
    requires CountsOk(nlos)
    ensures PacketCount(nlos) <= MAX_PACKETS <==> forall k :: 0 <= k < |nlos| ==> nlos[k].count <= 207
  {
    if nlos != [] {
      var n := |nlos| - 1;
      var front := nlos[..n];
      CountsExact(front);
      assert nlos == front + [nlos[n]];
      if forall k :: 0 <= k < |nlos| ==> nlos[k].count <= 207 {
        assert forall k :: 0 <= k < |front| ==> front[k].count <= 207 by {
          forall k | 0 <= k < |front| ensures front[k].count <= 207 { assert front[k] == nlos[k]; }
        }
      }
      if PacketCount(nlos) <= MAX_PACKETS {
        forall k | 0 <= k < |nlos| ensures nlos[k].count <= 207 {
          if k < n { assert nlos[k] == front[k]; }
        }
      }
    }
  }

  /** Two counts that pass the check and promise 256 packets. */
  lemma {:induction false} CountsWrap()
    ensures var nlos := [Nlo(100, 0, 48), Nlo(100, 0, 208)];
      CountsOk(nlos) && PacketCount(nlos) == 256
  {
    var nlos := [Nlo(100, 0, 48), Nlo(100, 0, 208)];
    assert nlos[..1] == [Nlo(100, 0, 48)] && nlos[..1][..0] == [];
    assert PacketCount(nlos[..1]) == 48;
  }

  /** The error mask of a coalescing header that passes its checks. */
  function CheckedMask(b: seq<u8>): Option<nat> {
    if |b| < FRONT then None
    else
      var h := ParseCoalHdr(b[Frames.MAP_HDR..FRONT]);
      if 1 <= h.numNlos <= MAX_NLOS && CountsOk(h.nlos) then Some(ErrMask(h.nlos)) else None
  }

  /** err << (8 * i) */
  function Shifted(err: u8, i: nat): nat { Pow2(8 * i) * err }

  lemma {:induction false} ErrMaskSnoc(nlos: seq<Nlo>, n: Nlo)
    ensures ErrMask(nlos + [n]) == ErrMask(nlos) + Shifted(n.errBits, |nlos|)
  {
    if nlos == [] {
      assert ([] + [n])[1..] == [];
    } else {
      assert (nlos + [n])[1..] == nlos[1..] + [n];
      ErrMaskSnoc(nlos[1..], n);
      PowStep(8 * (|nlos| - 1));
      var e, p: int := n.errBits, Pow2(8 * (|nlos| - 1));
      assert 0x100 * (p * e) == (0x100 * p) * e;
    }
  }

  lemma {:induction false} PowStep(n: nat)
    ensures Pow2(n + 8) == 0x100 * Pow2(n)
  {
    assert Pow2(n + 2) == 4 * Pow2(n);
    assert Pow2(n + 4) == 16 * Pow2(n);
    assert Pow2(n + 6) == 64 * Pow2(n);
  }

  lemma {:induction false} CountsPrefix(nlos: seq<Nlo>, k: nat)
    requires k <= |nlos| && CountsOk(nlos)
    ensures CountsOk(nlos[..k])
  {
    if k == |nlos| {
      assert nlos[..k] == nlos;
    } else {
      CountsPrefix(nlos[..|nlos| - 1], k);
      assert nlos[..|nlos| - 1][..k] == nlos[..k];
    }
  }

  lemma {:induction false} CountsSnoc(nlos: seq<Nlo>, n: Nlo)
    ensures PacketCount(nlos + [n]) == PacketCount(nlos) + n.count
    ensures CountsOk(nlos + [n]) <==> CountsOk(nlos) && PacketCount(nlos + [n]) % 0x100 <= MAX_PACKETS
  {
    assert (nlos + [n])[..|nlos|] == nlos;
  }

  /** rmnet_frag_data_check_coal_header */
  method CheckCoalHeader(port: Port, h: nat) returns (r: Option<nat>)
    requires port.Valid() && h in port.live
    ensures r == CheckedMask(Flat(port.mem, port.live[h].frags))
  {
    hide Port.Valid, Flat, Pow2, ErrMask;
    var hp := port.HeaderPtr(h, Frames.MAP_HDR, Frames.COAL_HDR);
    if hp.None? {
      return None;
    }
    var hdr := ParseCoalHdr(hp.value);
    if hdr.numNlos == 0 || hdr.numNlos > MAX_NLOS {
      return None;
    }
    r := CheckNlos(hdr.nlos);
  }

  /** Mask and 8-bit packet total of the NLOs seen so far. */
  predicate Counted(nlos: seq<Nlo>, mask: nat, pkts: u8) {
    mask == ErrMask(nlos) && pkts == PacketCount(nlos) % 0x100
  }

  lemma {:induction false} CountNext(nlos: seq<Nlo>, i: nat, mask: nat, pkts: u8)
    requires i < |nlos| && Counted(nlos[..i], mask, pkts) && CountsOk(nlos[..i])
    ensures var more := (pkts + nlos[i].count) % 0x100;
      && Counted(nlos[..i + 1], mask + Shifted(nlos[i].errBits, i), more)
      && (CountsOk(nlos[..i + 1]) <==> more <= MAX_PACKETS)
  {
    assert nlos[..i + 1] == nlos[..i] + [nlos[i]];
    ErrMaskSnoc(nlos[..i], nlos[i]);
    CountsSnoc(nlos[..i], nlos[i]);
    ModNext(PacketCount(nlos[..i]), nlos[i].count);
    hide ErrMask, Shifted, PacketCount, CountsOk;
  }

  lemma ModNext(a: nat, c: nat)
    ensures (a % 0x100 + c) % 0x100 == (a + c) % 0x100
  {
  }

  /** The loop over all six NLOs: rebuild the error field and count the packets in eight bits. */
  method CheckNlos(nlos: seq<Nlo>) returns (r: Option<nat>)
    ensures r == if CountsOk(nlos) then Some(ErrMask(nlos)) else None
  {
    var i: nat, mask: nat, pkts: u8 := 0, 0, 0;
    Zeroes();
    hide ErrMask, Shifted, PacketCount, CountsOk;
    assert nlos[..0] == [];
    while i < |nlos|
      invariant i <= |nlos| && Counted(nlos[..i], mask, pkts) && CountsOk(nlos[..i])
    {
      CountNext(nlos, i, mask, pkts);
      mask := mask + Shifted(nlos[i].errBits, i);
      pkts := (pkts + nlos[i].count) % 0x100;
      if pkts > MAX_PACKETS {
        if CountsOk(nlos) {
          CountsPrefix(nlos, i + 1);
        }
        return None;
      }
      i := i + 1;
    }
    assert nlos[..i] == nlos;
    r := Some(mask);
  }

  lemma Zeroes()
    ensures Counted([], 0, 0) && CountsOk([])
  {
  }

  /** Header lengths and protocols of an IP packet; `plain` tells that it has no IP options or extension headers. */
  datatype Headers = Headers(ipProto: u8, ipLen: u16, transProto: u8, transLen: u16, plain: bool)

  /** The network header: its version, length and the protocol behind it. */
  function ParseIp(b: seq<u8>): Option<Headers> {
    if |b| >= 20 && b[0] / 16 == 4 then
      var ihl: int := b[0] % 16;
      Some(Headers(4, ihl * 4, b[9], 0, ihl == 5))
    else if |b| >= 40 && b[0] / 16 == 6 then
      var w := ExtensionHeaders.WalkFrom(b, 40, b[6], 0);
      if w.Invalid? || w.frag != 0 then None
      else
        var len := w.start % 0x1_0000;
        Some(Headers(6, len, w.nextHdr, 0, len <= 40))
    else None
  }

  function ParseHeaders(b: seq<u8>): Option<Headers> {
    var ip := ParseIp(b);
    if ip.None? then None
    else
      var h := ip.value;
      if h.transProto == PROTO_TCP && h.ipLen + 20 <= |b| then Some(h.(transLen := b[h.ipLen + 12] / 16 * 4))
      else if h.transProto == PROTO_UDP && h.ipLen + 8 <= |b| then Some(h.(transLen := 8))
      else None
  }

  method ReadIp(port: Port, c: nat) returns (r: Option<Headers>)
    requires port.Valid() && c in port.live && port.live[c].len > 0
    ensures r == ParseIp(Flat(port.mem, port.live[c].frags))
  {
    hide Port.Valid, Flat, ExtensionHeaders.WalkFrom;
    var v := port.HeaderPtr(c, 0, 1);
    if v.None? {
      assert false;
    }
    if v.value[0] / 16 == 4 {
      var iph := port.HeaderPtr(c, 0, 20);
      if iph.None? {
        return None;
      }
      var ihl: int := iph.value[0] % 16;
      return Some(Headers(4, ihl * 4, iph.value[9], 0, ihl == 5));
    } else if v.value[0] / 16 == 6 {
      var ip6h := port.HeaderPtr(c, 0, 40);
      if ip6h.None? {
        return None;
      }
      var w := ExtensionHeaders.SkipExtHdr(port, c, 40, ip6h.value[6]);
      if w.Invalid? || w.frag != 0 {
        return None;
      }
      var len := w.start % 0x1_0000;
      return Some(Headers(6, len, w.nextHdr, 0, len <= 40));
    }
    return None;
  }

  /** The parsing half of rmnet_frag_segment_coal_data. */
  method ReadHeaders(port: Port, c: nat) returns (r: Option<Headers>)
    requires port.Valid() && c in port.live && port.live[c].len > 0
    ensures r == ParseHeaders(Flat(port.mem, port.live[c].frags))
  {
    hide Port.Valid, Flat, ParseIp;
    var ip := ReadIp(port, c);
    if ip.None? {
      return None;
    }
    var h := ip.value;
    if h.transProto == PROTO_TCP {
      var th := port.HeaderPtr(c, h.ipLen, 20);
      if th.Some? {
        return Some(h.(transLen := th.value[12] / 16 * 4));
      }
    } else if h.transProto == PROTO_UDP {
      var uh := port.HeaderPtr(c, h.ipLen, 8);
      if uh.Some? {
        return Some(h.(transLen := 8));
      }
    }
    return None;
  }

  function ParsedFrame(mux: u8, b: seq<u8>, h: Headers): Frame {
    Frame(mux, b, h.ipLen, h.transLen, h.ipProto, h.transProto)
  }

  /** Only a TCP data offset that points behind the packet keeps a parsed frame from being splittable. */
  lemma {:induction false} ParsedOk(mux: u8, b: seq<u8>, h: Headers)
    requires ParseHeaders(b) == Some(h) && |b| <= 0xFFFF
    ensures var f := ParsedFrame(mux, b, h); f.Ok() <==> f.HdrLen() <= |b|
    ensures h.transProto == PROTO_UDP ==> ParsedFrame(mux, b, h).Ok()
  {
    hide ExtensionHeaders.WalkFrom;
  }

  /** rmnet_map_v5_csum_buggy: a lone packet whose hardware checksum verdict cannot be trusted. */
  predicate CsumBuggy(h: CoalHdr) {
    && h.numNlos == 1 && h.nlos != [] && h.nlos[0].count == 1
    && (h.closeType == 4 || (h.closeType == 3 && 1 <= h.closeValue <= 3))
  }

  function Segs(mem: Memory, ds: seq<Desc>): seq<Seg> {
    seq(|ds|, k requires 0 <= k < |ds| => SegOf(mem, ds[k]))
  }

  function Pick(ds: map<nat, Desc>, list: seq<nat>): seq<Desc>
    requires forall h :: h in list ==> h in ds
  {
    seq(|list|, k requires 0 <= k < |list| => ds[list[k]])
  }

  /** None of the first n packets has its error bit set. */
  predicate LowBitsClear(mask: nat, n: nat) {
    n == 0 || (mask % 2 == 0 && LowBitsClear(mask / 2, n - 1))
  }

  /** One whole run of good packets describes the frame exactly when no packet was marked bad. */
  lemma {:induction false} RunIsPackets(f: Frame, nlo: Nlo, j: nat, off: nat, mask: nat)
    requires f.Ok() && j <= nlo.count
    ensures Packets(f, [nlo], 0, j, off, mask) == GoodRun(f, off, SegSize(f, nlo), nlo.count - j)
       <==> f.ZeroCsum() || LowBitsClear(mask, nlo.count - j)
    decreases nlo.count - j
  {
    var size := SegSize(f, nlo);
    PacketsEqual(f, off, size, mask % 2 == 1);
    hide PacketAt, SegSize, Frame.Ok, Frame.ZeroCsum;
    if j == nlo.count {
      assert Packets(f, [nlo], 1, 0, off, mask) == [];
    } else {
      RunIsPackets(f, nlo, j + 1, off + size, mask / 2);
      var p, q := PacketAt(f, off, size, mask % 2 == 1), PacketAt(f, off, size, false);
      var a := Packets(f, [nlo], 0, j + 1, off + size, mask / 2);
      var b := GoodRun(f, off + size, size, nlo.count - j - 1);
      SameHead(p, a, q, b);
    }
  }

  lemma PacketsEqual(f: Frame, off: nat, size: nat, csumErr: bool)
    requires f.Ok()
    ensures PacketAt(f, off, size, csumErr) == PacketAt(f, off, size, false) <==> !csumErr || f.ZeroCsum()
  {
  }

  lemma {:induction false} SameHead(p: Packet, a: seq<Packet>, q: Packet, b: seq<Packet>)
    ensures [p] + a == [q] + b <==> p == q && a == b
  {
    if [p] + a == [q] + b {
      assert p == ([p] + a)[0] == ([q] + b)[0] == q && a == ([p] + a)[1..] == ([q] + b)[1..] == b;
    }
  }

  /** The frame goes up as one descriptor, unsegmented. */
  predicate Whole(f: Frame, ss: seq<Seg>)
    requires f.Ok()
  {
    |ss| == 1 && ss[0].mux == f.mux && ss[0].header == f.Header() && ss[0].payload == f.Payload()
  }

  /** The conditions of the fast-forward path. */
  predicate FastForward(hdr: CoalHdr, gro: bool) { gro && hdr.numNlos == 1 && hdr.csumValid }

  /** The hardware verdict on this lone packet is not trusted; its checksum is computed in software instead. */
  predicate Distrusted(f: Frame, hdr: CoalHdr)
    requires f.Ok()
  {
    CsumBuggy(hdr) && !f.ZeroCsum()
  }

  /**
   * What the descriptors ds made from a coalesced frame describe. Segments tile the payload from its start whatever
   * failed; with nothing failed and NLOs that cover the payload, every mode yields the packets of the frame. The
   * fast-forward path does so exactly when no packet was marked bad.
   */
  ghost predicate Describes(f: Frame, hdr: CoalHdr, mask: nat, gro: bool, failed: bool, ss: seq<Seg>)
    requires f.Ok() && hdr.numNlos <= |hdr.nlos|
  {
    var nlos := hdr.nlos[..hdr.numNlos];
    var all := Packets(f, nlos, 0, 0, 0, mask);
    if Distrusted(f, hdr) then
      Whole(f, ss) && (Covered(f, nlos) ==> ExpandAll(f, ss) == [Packet(f.Payload(), f.Seq(), ss[0].good)])
    else if FastForward(hdr, gro) then
      && Whole(f, ss)
      && (Covered(f, nlos) ==> (ExpandAll(f, ss) == all <==> f.ZeroCsum() || LowBitsClear(mask, nlos[0].count)))
    else
      && Chain(f, ss, |Payloads(ss)|)
      && (!failed && Covered(f, nlos) ==> ExpandAll(f, ss) == all && (!gro ==> Ids(f, ss)))
  }

  /** A header that claims valid checksums only when no packet was marked bad, and whose NLOs cover the payload. */
  predicate WellFormed(f: Frame, hdr: CoalHdr, mask: nat)
    requires f.Ok() && hdr.numNlos <= |hdr.nlos|
  {
    Covered(f, hdr.nlos[..hdr.numNlos]) && (hdr.csumValid ==> mask == 0)
  }

  /** The checksum flag of the first segment. */
  predicate FirstGood(ss: seq<Seg>) { ss != [] && ss[0].good }

  lemma {:induction false} NoBits(n: nat)
    ensures LowBitsClear(0, n)
  {
    if n != 0 {
      NoBits(n - 1);
    }
  }

  /**
   * With nothing failed, splitting with GRO, without GRO and by fast-forward all describe the same list of packets; a
   * lone distrusted packet goes up whole in every mode, and the modes agree on it as far as their software verdicts
   * do.
   */
  lemma {:induction false} ModesAgree(f: Frame, hdr: CoalHdr, mask: nat, ss: seq<Seg>, tt: seq<Seg>)
    requires f.Ok() && hdr.numNlos <= |hdr.nlos| && WellFormed(f, hdr, mask)
    requires Describes(f, hdr, mask, true, false, ss) && Describes(f, hdr, mask, false, false, tt)
    ensures Distrusted(f, hdr) ==>
      && ExpandAll(f, ss) == [Packet(f.Payload(), f.Seq(), FirstGood(ss))]
      && (ExpandAll(f, ss) == ExpandAll(f, tt) <==> FirstGood(ss) == FirstGood(tt))
    ensures !Distrusted(f, hdr) ==>
      ExpandAll(f, ss) == ExpandAll(f, tt) == Packets(f, hdr.nlos[..hdr.numNlos], 0, 0, 0, mask)
  {
    hide ExpandAll, Packets, Chain, Covered;
    if FastForward(hdr, true) {
      NoBits(hdr.nlos[0].count);
    }
    if Distrusted(f, hdr) {
      var p, q := Packet(f.Payload(), f.Seq(), FirstGood(ss)), Packet(f.Payload(), f.Seq(), FirstGood(tt));
      assert ExpandAll(f, ss) == [p] && ExpandAll(f, tt) == [q];
      assert [p][0] == p && [q][0] == q;
    }
  }

  /** A segment that is the whole frame expands to its packets. */
  lemma {:induction false} WholeExpands(f: Frame, nlo: Nlo, s: Seg)
    requires f.Ok() && Whole(f, [s]) && s.size == SegSize(f, nlo) && s.segs == nlo.count && s.seqNo.None?
    requires Covered(f, [nlo]) && s.good
    ensures ExpandAll(f, [s]) == GoodRun(f, 0, SegSize(f, nlo), nlo.count)
  {
    assert [s][..0] == [];
    assert Remaining(f, [nlo], 1, 0) == 0;
    assert f.Seq() == SeqAt(f, 0);
    assert |f.Payload()| == Times(SegSize(f, nlo), nlo.count);
    hide Frame.Seq, Frame.Ok, Frame.Payload, SeqAt, Times, SegSize, Covered, Cutup, GoodRun;
    assert f.Payload() == f.Payload()[0..0 + |f.Payload()|];
    CutupIsRun(f, f.Payload(), 0, SegSize(f, nlo), nlo.count);
  }

  lemma {:induction false} LoneExpands(f: Frame, nlo: Nlo, s: Seg)
    requires f.Ok() && Whole(f, [s]) && s.size == SegSize(f, nlo) && s.segs == nlo.count == 1 && s.seqNo.None?
    requires Covered(f, [nlo])
    ensures ExpandAll(f, [s]) == [Packet(f.Payload(), f.Seq(), s.good)]
  {
    assert [s][..0] == [];
    assert Remaining(f, [nlo], 1, 0) == 0 && Times(s.size, 1) == Times(s.size, 0) + s.size;
    assert s.payload[..s.size] == f.Payload();
    assert Cutup(f, s.payload[s.size..], s.size, 0, SeqPlus(f, f.Seq(), s.size), s.good) == [];
  }

  /** The descriptors alive after c was split into list: c itself was reused, or stands beside the new ones. */
  predicate Produced(before: map<nat, Desc>, now: map<nat, Desc>, c: nat, list: seq<nat>) {
    && Distinct(list) && (forall h :: h in list ==> h in now)
    && (forall h :: h in before && h != c ==> h in now && now[h] == before[h])
    && if list == [c] then now.Keys == before.Keys
       else
         && c !in list && before.Keys !! Elements(list)
         && now.Keys - {c} == before.Keys - {c} + Elements(list)
  }

  /** Reuse the coalesced descriptor for the whole frame. */
  method ReuseWhole(port: Port, c: nat, nlo: Nlo, csumValid: bool) returns (list: seq<nat>)
    requires port.Valid() && c in port.live
    modifies port`descs, port`live
    ensures port.Valid() && list == [c] && c in port.live
    ensures port.live == old(port.live)[c := old(port.live[c]).(csumValid := csumValid, gsoSegs := nlo.count,
              gsoSize := SegSize(FrameOf(port.mem, old(port.live[c])), nlo))]
  {
    hide Port.Valid, Flat;
    var d := port.At(c);
    port.SetMeta(c, d.(csumValid := csumValid, gsoSegs := nlo.count,
                       gsoSize := (nlo.pktLen - (d.ipLen + d.transLen)) % 0x1_0000));
    list := [c];
  }

  /** A parsed coalesced descriptor ready for dispatch. */
  ghost predicate Ready(mem: Memory, d: Desc) {
    && Plain(d) && d.dataOffset == d.gsoSegs == d.pktId == 0 && !d.csumValid
    && var f := FrameOf(mem, d);
       (f.Ok() <==> f.HdrLen() <= |f.bytes|) && (f.Ok() || d.transProto == PROTO_TCP)
  }

  lemma {:induction false} ReuseDescribes(mem: Memory, d: Desc, e: Desc, hdr: CoalHdr, mask: nat, gro: bool,
                                          failed: bool)
    requires Ready(mem, d) && FrameOf(mem, d).Ok() && hdr.numNlos == 1 <= |hdr.nlos|
    requires e == d.(csumValid := e.csumValid, gsoSegs := hdr.nlos[0].count,
                     gsoSize := SegSize(FrameOf(mem, d), hdr.nlos[0]))
    requires (CsumBuggy(hdr) && !FrameOf(mem, d).ZeroCsum()) || (FastForward(hdr, gro) && e.csumValid)
    ensures Describes(FrameOf(mem, d), hdr, mask, gro, failed, Segs(mem, [e]))
  {
    hide Flat, ExpandAll, Packets, Covered, SegSize, Times, LowBitsClear, GoodRun;
    var f, s, nlo := FrameOf(mem, d), SegOf(mem, e), hdr.nlos[0];
    assert Segs(mem, [e]) == [s] && hdr.nlos[..1] == [nlo];
    if Covered(f, [nlo]) {
      if CsumBuggy(hdr) && !f.ZeroCsum() {
        LoneExpands(f, nlo, s);
      } else {
        WholeExpands(f, nlo, s);
        RunIsPackets(f, nlo, 0, 0, mask);
      }
    }
  }

  lemma {:induction false} SplitDescribes(job: Job, now: map<nat, Desc>, list: seq<nat>, ss: seq<Seg>)
    requires job.Inv(now, list, ss)
    ensures (forall h :: h in list ==> h in now) && ss == Segs(job.mem, Pick(now, list))
    ensures job.f.Ok() && Chain(job.f, ss, |Payloads(ss)|)
    ensures Produced(job.before, now, job.c, list)
  {
    hide Flat, SegOf, Chain;
    ChainPayloads(job.f, ss, now[job.c].dataOffset);
    forall h | h in list
      ensures h in now && h != job.c
    {
      var k :| 0 <= k < |list| && list[k] == h;
      Apart(job.before, now, job.c, list, k);
    }
    assert forall h :: h in list <==> h in Elements(list);
    assert ss == Segs(job.mem, Pick(now, list));
  }

  /** The three ways of rmnet_frag_segment_coal_data to turn a parsed frame into descriptors. */
  method Dispatch(port: Port, c: nat, hdr: CoalHdr, mask: nat, gro: bool) returns (list: seq<nat>)
    requires port.Valid() && c in port.live && Ready(port.mem, port.live[c])
    requires 1 <= hdr.numNlos <= MAX_NLOS == |hdr.nlos|
    modifies port
    ensures port.Valid() && (old(port.failed) ==> port.failed)
    ensures Produced(old(port.live), port.live, c, list) && c in port.live
    ensures var f := FrameOf(port.mem, old(port.live[c]));
      if f.Ok() then Describes(f, hdr, mask, gro, port.failed, Segs(port.mem, Pick(port.live, list)))
      else Unsplit(f, Segs(port.mem, Pick(port.live, list)))
  {
    hide Port.Valid, Flat, Describes, Times, Frame.Ok, Covered;
    ghost var d := port.live[c];
    ghost var f := FrameOf(port.mem, d);
    var zeroCsum := false;
    if port.At(c).transProto == PROTO_UDP {
      zeroCsum := ReadZeroCsum(port, c);
    }
    if (CsumBuggy(hdr) && !zeroCsum) || FastForward(hdr, gro) {
      var good := true;
      if CsumBuggy(hdr) && !zeroCsum {
        good := *; // rmnet_frag_validate_csum
      }
      list := ReuseWhole(port, c, hdr.nlos[0], good);
      assert Pick(port.live, list) == [port.live[c]];
      if f.Ok() {
        ReuseDescribes(port.mem, d, port.live[c], hdr, mask, gro, port.failed);
      } else {
        ReuseUnsplit(port.mem, port.live[c]);
      }
      return;
    }
    port.RangeExact(c, 0, 0);
    if port.At(c).ipLen + port.At(c).transLen > port.At(c).len {
      // Copying the headers fails for every segment.
      ReuseUnsplit(port.mem, d);
      assert Pick(port.live, []) == [];
      return [];
    }
    list := DispatchSplit(port, c, hdr, mask, gro);
  }

  /** The segmenting way. */
  method DispatchSplit(port: Port, c: nat, hdr: CoalHdr, mask: nat, gro: bool) returns (list: seq<nat>)
    requires port.Valid() && c in port.live && Ready(port.mem, port.live[c]) && FrameOf(port.mem, port.live[c]).Ok()
    requires 1 <= hdr.numNlos <= MAX_NLOS == |hdr.nlos|
    requires !(CsumBuggy(hdr) && !FrameOf(port.mem, port.live[c]).ZeroCsum()) && !FastForward(hdr, gro)
    modifies port
    ensures port.Valid() && (old(port.failed) ==> port.failed)
    ensures Produced(old(port.live), port.live, c, list) && c in port.live
    ensures Describes(FrameOf(port.mem, old(port.live[c])), hdr, mask, gro, port.failed,
                      Segs(port.mem, Pick(port.live, list)))
  {
    hide Port.Valid, Flat, Times, Frame.Ok, Covered, Job.Inv, Packets, ExpandAll, Chain, Produced, Segs, Frame.ZeroCsum;
    ghost var f := FrameOf(port.mem, port.live[c]);
    ghost var t;
    var nlos := hdr.nlos[..hdr.numNlos];
    ghost var job := Job(port.mem, port.live, c, f, nlos, mask);
    list, t := SplitAll(port, job, c, nlos, mask, gro);
    SplitDescribes(job, port.live, list, t.ss);
  }

  /** The lengths and protocols stored in a descriptor whose headers were parsed. */
  function WithHeaders(d: Desc, h: Headers): Desc {
    d.(ipProto := h.ipProto, ipLen := h.ipLen, transProto := h.transProto, transLen := h.transLen, hdrsValid := true)
  }

  /** Metadata of a frame descriptor before anything but its device was set. */
  predicate Untouched(d: Desc) {
    d == BLANK.(frags := d.frags, len := d.len, mux := d.mux)
  }

  /** What a coalesced frame b for device mux becomes. */
  ghost predicate Segmented(mux: u8, b: seq<u8>, gro: bool, failed: bool, ss: seq<Seg>)
    requires CheckedMask(b).Some?
  {
    var packet, hdr, mask := b[FRONT..], ParseCoalHdr(b[Frames.MAP_HDR..FRONT]), CheckedMask(b).value;
    var h := ParseHeaders(packet);
    if h.None? then ss == []
    else
      var f := ParsedFrame(mux, packet, h.value);
      if f.Ok() then Describes(f, hdr, mask, gro && h.value.plain, failed, ss)
      else Unsplit(f, ss)
  }

  /** At most one segment, which is the whole frame. */
  predicate Unsplit(f: Frame, ss: seq<Seg>) {
    |ss| <= 1 && forall k :: 0 <= k < |ss| ==> ss[k].mux == f.mux && ss[k].header + ss[k].payload == f.bytes
  }

  lemma {:induction false} ReuseUnsplit(mem: Memory, d: Desc)
    ensures Unsplit(FrameOf(mem, d), Segs(mem, [d])) && Unsplit(FrameOf(mem, d), Segs(mem, []))
  {
    hide Flat;
    assert Segs(mem, [d]) == [SegOf(mem, d)];
  }

  lemma {:induction false} WithHeadersReady(mem: Memory, d: Desc, h: Headers)
    requires Untouched(d) && |Flat(mem, d.frags)| <= 0xFFFF && ParseHeaders(Flat(mem, d.frags)) == Some(h)
    ensures Ready(mem, WithHeaders(d, h))
    ensures FrameOf(mem, WithHeaders(d, h)) == ParsedFrame(d.mux, Flat(mem, d.frags), h)
    ensures h.transProto == PROTO_TCP || h.transProto == PROTO_UDP
  {
    hide Flat, ParseIp;
    ParsedOk(d.mux, Flat(mem, d.frags), h);
  }

  /** Parse the headers of c and dispatch on them. */
  method ParseAndDispatch(port: Port, c: nat, hdr: CoalHdr, mask: nat, gro: bool) returns (list: seq<nat>)
    requires port.Valid() && c in port.live && Untouched(port.live[c]) && 0 < port.live[c].len <= 0xFFFF
    requires 1 <= hdr.numNlos <= MAX_NLOS == |hdr.nlos|
    modifies port
    ensures port.Valid() && (old(port.failed) ==> port.failed)
    ensures Produced(old(port.live), port.live, c, list) && c in port.live
    ensures var packet := Flat(port.mem, old(port.live[c]).frags);
      var mux := old(port.live[c]).mux;
      var h, ss := ParseHeaders(packet), Segs(port.mem, Pick(port.live, list));
      if h.None? then list == []
      else
        var f := ParsedFrame(mux, packet, h.value);
        if f.Ok() then Describes(f, hdr, mask, gro && h.value.plain, port.failed, ss)
        else Unsplit(f, ss)
  {
    hide Port.Valid, Flat, ParseHeaders, Describes, Produced, Ready, Untouched, FrameOf, Unsplit;
    port.RangeExact(c, 0, 0);
    var h := ReadHeaders(port, c);
    if h.None? {
      NothingProduced(port.live, c);
      list := [];
      return;
    }
    ghost var now := port.live;
    WithHeadersReady(port.mem, port.live[c], h.value);
    port.SetMeta(c, WithHeaders(port.At(c), h.value));
    list := Dispatch(port, c, hdr, mask, gro && h.value.plain);
    ProducedAfterMeta(now, WithHeaders(now[c], h.value), port.live, c, list);
  }

  lemma NothingProduced(now: map<nat, Desc>, c: nat)
    ensures Produced(now, now, c, [])
  {
  }

  lemma {:induction false} ProducedAfterMeta(a: map<nat, Desc>, d: Desc, now: map<nat, Desc>, c: nat, list: seq<nat>)
    requires c in a && Produced(a[c := d], now, c, list)
    ensures Produced(a, now, c, list)
  {
    assert a[c := d].Keys == a.Keys;
  }

  /** rmnet_frag_segment_coal_data; c may be gone afterwards. */
  method SegmentCoalData(port: Port, c: nat, mask: nat, gro: bool) returns (list: seq<nat>)
    requires port.Valid() && c in port.live && Untouched(port.live[c]) && port.live[c].len <= 0xFFFF + FRONT
    requires CheckedMask(Flat(port.mem, port.live[c].frags)) == Some(mask)
    modifies port
    ensures port.Valid() && (old(port.failed) ==> port.failed)
    ensures c in port.live || c in port.freeList
    ensures Produced(old(port.live), port.live, c, list)
    ensures Segmented(old(port.live[c]).mux, Flat(port.mem, old(port.live[c]).frags), gro, port.failed,
                      Segs(port.mem, Pick(port.live, list)))
  {
    hide Port.Valid, Flat, ParseHeaders, Describes, ErrMask, CountsOk, FrameOf, Unsplit, SegOf;
    var copy := port.CopyData(c, Frames.MAP_HDR, Frames.COAL_HDR);
    if copy.None? {
      assert false;
    }
    var hdr := ParseCoalHdr(copy.value);
    ghost var now := port.live;
    var ok := port.Pull(c, FRONT);
    if !ok {
      EmptyHeaders();
      assert Flat(port.mem, now[c].frags)[FRONT..] == [];
      assert Segs(port.mem, Pick(port.live, [])) == [];
      return [];
    }
    list := ParseAndDispatch(port, c, hdr, mask, gro);
  }

  lemma EmptyHeaders()
    ensures ParseHeaders([]).None?
  {
  }
}
