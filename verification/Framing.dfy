/** MAP framing on the way out, and the linear receive path that undoes it. */
module Framing {
  import opened Bytes
  import opened Fragments
  import opened Descriptors
  import opened Frames
  import opened Deaggregation
  import opened Ingress
  import opened Segmentation
  import Aggregator

  /** Egress data format flags. */
  datatype EgressFormat = EgressFormat(cksumV5: bool, priority: bool) {
    predicate HasV5Header() { cksumV5 || priority }
  }

  /** A packet handed to egress: `csum` asks for checksum offload, `prio` is a nonzero skb priority. */
  datatype Uplink = Uplink(mux: u8, payload: seq<u8>, csum: bool, prio: bool)

  /** The csum-offload header; type 2 sits above the next-header bit. */
  function V5Header(csum: bool, prio: bool): seq<u8> {
    [2 * TYPE_CSUM_OFFLOAD, (if csum then 128 else 0) + (if prio then 32 else 0), 0, 0]
  }

  function MapHeader(nextHdr: bool, pad: nat, mux: u8, len: u16): (h: seq<u8>)
    requires pad < 64
    ensures |h| == MAP_HDR && PktLen(h) == len && PadLen(h) == pad && NextHdrBit(h) == nextHdr && !CdBit(h)
  {
    [(if nextHdr then 64 else 0) + pad, mux, len / 0x100, len % 0x100]
  }

  /** Bytes that align n to a multiple of four. */
  function Padding(n: nat): (p: nat)
    ensures p < 4 && (n + p) % 4 == 0
  {
    (4 - n % 4) % 4
  }

  function PadBytes(padded: bool, n: nat): (p: nat)
    ensures p < 4
  {
    if padded then Padding(n) else 0
  }

  function Zeros(n: nat): seq<u8> { seq(n, i => 0) }

  /** The header between the MAP header and the packet. */
  function Offload(e: EgressFormat, csum: bool, prio: bool): seq<u8> {
    if e.HasV5Header() then V5Header(e.cksumV5 && csum, e.priority && prio) else []
  }

  /** The wire form of one packet, padded or not. */
  function Wire(e: EgressFormat, p: Uplink, padded: bool): seq<u8> {
    var pad := PadBytes(padded, |p.payload|);
    MapHeader(e.cksumV5, pad, p.mux, (|p.payload| + pad) % 0x1_0000)
    + Offload(e, p.csum, p.prio) + p.payload + Zeros(pad)
  }

  /** The wire form the driver gives a packet: egress never asks for padding. */
  function Framed(e: EgressFormat, p: Uplink): seq<u8> { Wire(e, p, false) }

  function FramedAll(e: EgressFormat, ps: seq<Uplink>): seq<seq<u8>> {
    if ps == [] then [] else [Framed(e, ps[0])] + FramedAll(e, ps[1..])
  }

  lemma NoPad(n: nat)
    ensures PadBytes(false, n) == 0
  {
  }

  lemma Regroup(a: seq<u8>, b: seq<u8>, c: seq<u8>, d: seq<u8>)
    ensures a + (b + c) + d == a + b + c + d
  {
  }

  /** What the linear deaggregator returns: a new skb with one frame, the source skb itself, or nothing. */
  datatype Piece = NoPiece | NewSkb(frame: seq<u8>) | SameSkb

  class Skb {
    var data: seq<u8>
    var tailroom: nat

    constructor (data: seq<u8>, tailroom: nat)
      ensures this.data == data && this.tailroom == tailroom
    {
      this.data, this.tailroom := data, tailroom;
    }

    /** skb_push and a write of the pushed bytes. */
    method Push(b: seq<u8>)
      modifies this`data
      ensures data == b + old(data)
    {
      data := b + data;
    }

    /** rmnet_map_add_map_header followed by the store of mux_id: fails only for want of tail room. */
    method AddMapHeader(hdrLen: nat, e: EgressFormat, mux: u8, padded: bool) returns (ok: bool)
      requires hdrLen <= |data|
      modifies this
      ensures ok == (PadBytes(padded, |old(data)| - hdrLen) <= old(tailroom))
      ensures ok ==>
        var n := |old(data)| - hdrLen;
        var pad := PadBytes(padded, n);
        data == MapHeader(e.cksumV5, pad, mux, (n + pad) % 0x1_0000) + old(data) + Zeros(pad)
    {
      var n := |data| - hdrLen;
      if !padded {
        Push(MapHeader(e.cksumV5, 0, mux, n % 0x1_0000));
        assert data + Zeros(0) == data;
        return true;
      }
      var pad := Padding(n);
      Push(MapHeader(e.cksumV5, pad, mux, (n + pad) % 0x1_0000));
      if tailroom < pad {
        return false;
      }
      data, tailroom := data + Zeros(pad), tailroom - pad;
      return true;
    }

    /** rmnet_map_v5_checksum_uplink_packet, where the format has that header. */
    method PushOffload(e: EgressFormat, csum: bool, prio: bool) returns (hdrLen: nat)
      modifies this`data
      ensures data == Offload(e, csum, prio) + old(data) && |data| == hdrLen + |old(data)|
    {
      if !e.HasV5Header() {
        assert data == [] + data;
        return 0;
      }
      Push(V5Header(e.cksumV5 && csum, e.priority && prio));
      return CSUM_HDR;
    }

    /**
     * The framing half of rmnet_map_egress_handler: without head room for the headers the packet is refused as it is.
     */
    method Egress(e: EgressFormat, mux: u8, csum: bool, prio: bool) returns (ok: bool)
      modifies this
      ensures ok ==> data == Framed(e, Uplink(mux, old(data), csum, prio))
      ensures !ok ==> data == old(data)
    {
      ok := *; // enough head room, or pskb_expand_head made it
      if !ok {
        return;
      }
      NoPad(|data|);
      hide MapHeader, Zeros, Offload, PadBytes;
      ghost var payload := data;
      var hdrLen := PushOffload(e, csum, prio);
      ok := AddMapHeader(hdrLen, e, mux, false);
      Regroup(MapHeader(e.cksumV5, 0, mux, |payload| % 0x1_0000), Offload(e, csum, prio), payload, Zeros(0));
    }

    /**
     * rmnet_map_deaggregate on a linear skb. Headers are read without a length check, so the reads may run into
     * the bytes behind the data; the result does not depend on them.
     */
    method Deaggregate(fmt: Format, behind: seq<u8>) returns (r: Piece, failed: bool)
      requires |behind| >= MAP_HDR + CSUM_HDR
      modifies this`data
      ensures failed ==> r.NoPiece? && data == old(data)
      ensures !failed ==>
        match LinearStep(fmt, old(data))
        case Nothing => r == NoPiece && data == old(data)
        case WholeBuffer => r == SameSkb && data == old(data)
        case OneFrame(len) => r == NewSkb(old(data)[..len]) && data == old(data)[len..]
    {
      failed := false;
      if data == [] {
        return NoPiece, false;
      }
      var seen := data + behind;
      assert |data| >= MAP_HDR ==> seen[..MAP_HDR] == data[..MAP_HDR] && PktLen(seen) == PktLen(data);
      var len := PktLen(seen) + MAP_HDR;
      var nextHdr := false;
      if fmt.cksumV4 {
        len := len + CSUM_TRAILER;
      } else if fmt.cksumV5 && !CdBit(seen) {
        len, nextHdr := len + CSUM_HDR, true;
      }
      if |data| < len || PktLen(seen) == 0 {
        return NoPiece, false;
      }
      if nextHdr && seen[4] / 2 == TYPE_COALESCING {
        return SameSkb, false;
      }
      failed := *; // alloc_skb
      if failed {
        return NoPiece, true;
      }
      r, data := NewSkb(data[..len]), data[len..];
    }
  }

  /** Whether a frame is handled as a QMAPv5 packet. */
  predicate IsNextHdr(fmt: Format, b: seq<u8>)
    requires |b| >= MAP_HDR
  {
    NextHdrBit(b) && (fmt.coalesce || fmt.cksumV5)
  }

  /** pskb_pull: does nothing when the skb is too short. */
  function SkbPull(b: seq<u8>, n: nat): seq<u8> { if n <= |b| then b[n..] else b }

  function SkbTrim(b: seq<u8>, n: nat): seq<u8> { if n < |b| then b[..n] else b }

  /** The frame reaches past the headers that are read from it: commands and plain frames always do. */
  predicate LongEnough(fmt: Format, b: seq<u8>)
    requires |b| >= MAP_HDR
  {
    !CdBit(b) && IsNextHdr(fmt, b) ==>
      |b| > MAP_HDR + CSUM_HDR && (HdrType(b) == TYPE_COALESCING ==> |b| >= FRONT)
  }

  /**
   * __rmnet_map_ingress_handler on a linear frame; `trailerOk` is the verdict of rmnet_map_checksum_downlink_packet.
   * The driver checks no length, so what it reads of a header may lie in the bytes behind the frame, and a frame too
   * short to pull its headers off goes up with them. Unlike the paged path this one also passes on packets left empty
   * by their padding.
   */
  method ReceiveLinear(b: seq<u8>, behind: seq<u8>, fmt: Format, endpoints: set<u8>, rxCsum: bool, trailerOk: bool)
    returns (c: Content)
    requires |b| > MAP_HDR && |behind| >= FRONT
    ensures LongEnough(fmt, b) && DataLen(b) != 0 && (fmt.cksumV4 ==> IsNextHdr(fmt, b) || !trailerOk) ==>
      c == Strip(fmt, endpoints, rxCsum, b)
    ensures !IsNextHdr(fmt, b) && c.Data? ==> c.csumValid == (fmt.cksumV4 && trailerOk)
    ensures DataLen(b) == 0 ==> !c.Data? || c.payload == []
    ensures IsNextHdr(fmt, b) && |b| < MAP_HDR + CSUM_HDR && c.Data? ==> c.payload == b[..Min(|b|, DataLen(b))]
  {
    if CdBit(b) || b[1] >= MAX_LOGICAL_EP || b[1] !in endpoints {
      return Dropped;
    }
    var pad: int := PadLen(b);
    var len := (PktLen(b) - pad) % 0x1_0000;
    if IsNextHdr(fmt, b) {
      var seen := b + behind;
      assert HdrType(seen) == HdrType(b);
      if HdrType(seen) == TYPE_COALESCING {
        assert |b| >= FRONT ==> seen[MAP_HDR..FRONT] == b[MAP_HDR..FRONT];
        return if CheckedMask(seen).Some? then Coalesced(b[1]) else Dropped;
      }
      if HdrType(seen) != TYPE_CSUM_OFFLOAD {
        return Dropped;
      }
      return Data(b[1], SkbTrim(SkbPull(b, MAP_HDR + CSUM_HDR), len), rxCsum && seen[5] >= 128);
    }
    return Data(b[1], SkbTrim(SkbPull(b, MAP_HDR), len), fmt.cksumV4 && trailerOk);
  }

  /** The deaggregation loop of rmnet_map_ingress_handler: the frames handed on, in order. */
  method LinearLoop(skb: Skb, fmt: Format, behind: seq<u8>) returns (frames: seq<seq<u8>>, failed: bool)
    requires |behind| >= MAP_HDR + CSUM_HDR
    modifies skb`data
    ensures !failed ==> frames == LinearFrames(fmt, old(skb.data))
    ensures frames <= LinearFrames(fmt, old(skb.data))
  {
    frames, failed := [], false;
    ghost var all := LinearFrames(fmt, skb.data);
    while true
      invariant all == frames + LinearFrames(fmt, skb.data)
      decreases |skb.data|
    {
      ghost var before := skb.data;
      var r;
      r, failed := skb.Deaggregate(fmt, behind);
      if r.NoPiece? {
        return;
      }
      if r.SameSkb? {
        frames := frames + [skb.data];
        return;
      }
      assert frames + ([r.frame] + LinearFrames(fmt, skb.data)) == (frames + [r.frame]) + LinearFrames(fmt, skb.data);
      frames := frames + [r.frame];
    }
  }

  /** The receiving format that matches an egress format: QMAPv5, or no checksum header at all. */
  function Matching(e: EgressFormat): Format { Format(false, e.cksumV5, false) }

  /** A format the receiving side can tell apart: the V5 header is announced in the MAP header. */
  predicate Announced(e: EgressFormat) { e.HasV5Header() ==> e.cksumV5 }

  predicate Sendable(endpoints: set<u8>, p: Uplink) {
    p.mux < MAX_LOGICAL_EP && p.mux in endpoints && 1 <= |p.payload| <= 0xFFFF
  }

  /** The 16-bit length field can hold payload and padding. */
  predicate Fits(p: Uplink, padded: bool) { |p.payload| + PadBytes(padded, |p.payload|) <= 0xFFFF }

  /** Payloads of 1 to 65535 bytes. */
  predicate AllFit(ps: seq<Uplink>) {
    forall k :: 0 <= k < |ps| ==> 1 <= |ps[k].payload| <= 0xFFFF
  }

  lemma AllFitSlice(ps: seq<Uplink>, lo: nat, hi: nat)
    requires AllFit(ps) && lo <= hi <= |ps|
    ensures AllFit(ps[lo..hi])
  {
  }

  lemma {:induction false} WireFields(e: EgressFormat, p: Uplink, padded: bool, rest: seq<u8>)
    requires Announced(e)
    ensures var b := Wire(e, p, padded) + rest;
      && |b| >= MAP_HDR && !CdBit(b) && NextHdrBit(b) == e.cksumV5 && b[1] == p.mux
      && PadLen(b) == PadBytes(padded, |p.payload|)
      && PktLen(b) == (|p.payload| + PadBytes(padded, |p.payload|)) % 0x1_0000
      && (e.cksumV5 ==> |b| >= MAP_HDR + CSUM_HDR && HdrType(b) == TYPE_CSUM_OFFLOAD
                        && (b[5] >= 128 <==> p.csum))
  {
    var pad := PadBytes(padded, |p.payload|);
    var h := MapHeader(e.cksumV5, pad, p.mux, (|p.payload| + pad) % 0x1_0000);
    var b := Wire(e, p, padded) + rest;
    assert b[..MAP_HDR] == h;
    assert b[0] == h[0] && b[1] == h[1] && b[2] == h[2] && b[3] == h[3];
    if e.cksumV5 {
      var o := Offload(e, p.csum, p.prio);
      assert b[4] == o[0] && b[5] == o[1];
    }
  }

  /** Padding, where asked for, is zeros up to a multiple of four. */
  lemma {:induction false} WirePadded(e: EgressFormat, p: Uplink, padded: bool)
    ensures var b, front := Wire(e, p, padded), MAP_HDR + OffloadLen(e) + |p.payload|;
      && front <= |b| < front + 4 && (padded ==> |b| % 4 == 0) && (!padded ==> |b| == front)
      && forall k :: front <= k < |b| ==> b[k] == 0
  {
    WireLength(e, p, padded);
    var pad := PadBytes(padded, |p.payload|);
    var front := MapHeader(e.cksumV5, pad, p.mux, (|p.payload| + pad) % 0x1_0000) + Offload(e, p.csum, p.prio);
    assert Wire(e, p, padded) == (front + p.payload) + Zeros(pad);
    hide Wire, MapHeader, Offload, Zeros;
    FourMore(|p.payload| + pad);
    ZerosEnd(front + p.payload, pad);
    hide Padding;
  }

  lemma FourMore(n: nat)
    ensures (4 + n) % 4 == n % 4 && (8 + n) % 4 == n % 4
  {
  }

  lemma {:induction false} ZerosEnd(a: seq<u8>, n: nat)
    ensures |a + Zeros(n)| == |a| + n && forall k :: |a| <= k < |a| + n ==> (a + Zeros(n))[k] == 0
  {
  }

  /** The bits of a csum-offload header: type 2 in seven bits, checksum offload highest, priority in bit 5. */
  lemma {:induction false} OffloadBits(e: EgressFormat, p: Uplink)
    requires e.HasV5Header()
    ensures var b := Framed(e, p);
      && |b| >= 8 && b[4] / 2 == 2 && b[4] % 2 == 0
      && (b[5] / 128 == 1 <==> e.cksumV5 && p.csum) && (b[5] / 32 % 2 == 1 <==> e.priority && p.prio)
  {
    NoPad(|p.payload|);
    var o := Offload(e, p.csum, p.prio);
    var head := MapHeader(e.cksumV5, 0, p.mux, |p.payload| % 0x1_0000);
    assert Framed(e, p) == head + o + p.payload + Zeros(0);
    assert Framed(e, p)[4] == o[0] && Framed(e, p)[5] == o[1];
  }

  function OffloadLen(e: EgressFormat): nat { if e.HasV5Header() then CSUM_HDR else 0 }

  lemma {:induction false} WireLength(e: EgressFormat, p: Uplink, padded: bool)
    ensures |Wire(e, p, padded)| == MAP_HDR + OffloadLen(e) + |p.payload| + PadBytes(padded, |p.payload|)
    ensures var at := MAP_HDR + OffloadLen(e); Wire(e, p, padded)[at..at + |p.payload|] == p.payload
  {
    var at := MAP_HDR + OffloadLen(e);
    var pad := PadBytes(padded, |p.payload|);
    var front := MapHeader(e.cksumV5, pad, p.mux, (|p.payload| + pad) % 0x1_0000) + Offload(e, p.csum, p.prio);
    assert |front| == at;
    assert Wire(e, p, padded) == front + p.payload + Zeros(pad);
  }

  /** Both deaggregators cut exactly one frame off the front of a framed stream. */
  lemma {:induction false} CutsOne(e: EgressFormat, p: Uplink, padded: bool, rest: seq<u8>)
    requires Announced(e) && Fits(p, padded) && p.payload != []
    ensures var f := Wire(e, p, padded);
      PagedLen(Matching(e), f + rest) == Some(|f|) && LinearStep(Matching(e), f + rest) == OneFrame(|f|)
  {
    WireFields(e, p, padded, rest);
    WireLength(e, p, padded);
    hide Wire;
  }

  /** Framing then aggregating by concatenation is undone by either deaggregator. */
  lemma {:induction false} FramesRoundTrip(e: EgressFormat, ps: seq<Uplink>)
    requires Announced(e) && AllFit(ps)
    ensures PagedFrames(Matching(e), Join(FramedAll(e, ps))) == FramedAll(e, ps)
    ensures PagedRest(Matching(e), Join(FramedAll(e, ps))) == []
    ensures LinearFrames(Matching(e), Join(FramedAll(e, ps))) == FramedAll(e, ps)
  {
    hide Wire, LinearStep;
    if ps == [] {
      assert LinearStep(Matching(e), []) == Nothing by { EmptyStream(Matching(e)); }
    } else {
      var f, more := Framed(e, ps[0]), FramedAll(e, ps[1..]);
      NoPad(|ps[0].payload|);
      JoinCons(f, more);
      CutsOne(e, ps[0], false, Join(more));
      assert (f + Join(more))[|f|..] == Join(more) && (f + Join(more))[..|f|] == f;
      AllFitSlice(ps, 1, |ps|);
      assert ps[1..|ps|] == ps[1..];
      FramesRoundTrip(e, ps[1..]);
    }
  }

  lemma EmptyStream(fmt: Format)
    ensures LinearStep(fmt, []) == Nothing
  {
  }

  /** What a packet is to the receiver. */
  function ContentOf(e: EgressFormat, p: Uplink, rxCsum: bool): Content {
    Data(p.mux, p.payload, rxCsum && e.cksumV5 && p.csum)
  }

  /** Stripping a framed packet returns its mux id and its payload, without the padding. */
  lemma {:induction false} StripWire(e: EgressFormat, p: Uplink, padded: bool, endpoints: set<u8>, rxCsum: bool)
    requires Announced(e) && Sendable(endpoints, p) && Fits(p, padded)
    ensures Strip(Matching(e), endpoints, rxCsum, Wire(e, p, padded)) == ContentOf(e, p, rxCsum)
  {
    WireFields(e, p, padded, []);
    assert Wire(e, p, padded) + [] == Wire(e, p, padded);
    WireLength(e, p, padded);
    hide Wire, PadBytes, Strip, ContentOf;
    var b := Wire(e, p, padded);
    assert DataLen(b) == |p.payload|;
    StripFields(e, p, b, endpoints, rxCsum);
  }

  lemma {:induction false} StripFields(e: EgressFormat, p: Uplink, b: seq<u8>, endpoints: set<u8>, rxCsum: bool)
    requires Announced(e) && Sendable(endpoints, p)
    requires var at := MAP_HDR + OffloadLen(e);
      at + |p.payload| <= |b| && b[at..at + |p.payload|] == p.payload
    requires !CdBit(b) && NextHdrBit(b) == e.cksumV5 && b[1] == p.mux && DataLen(b) == |p.payload|
    requires e.cksumV5 ==> HdrType(b) == TYPE_CSUM_OFFLOAD && (b[5] >= 128 <==> p.csum)
    ensures Strip(Matching(e), endpoints, rxCsum, b) == ContentOf(e, p, rxCsum)
  {
    hide CheckedMask, DataLen, CdBit, NextHdrBit;
    var at := MAP_HDR + OffloadLen(e);
    assert Unwrap(p.mux, b, at, |p.payload|, rxCsum && e.cksumV5 && p.csum) == ContentOf(e, p, rxCsum);
  }

  lemma {:induction false} StripFramed(e: EgressFormat, p: Uplink, endpoints: set<u8>, rxCsum: bool)
    requires Announced(e) && Sendable(endpoints, p)
    ensures Strip(Matching(e), endpoints, rxCsum, Framed(e, p)) == ContentOf(e, p, rxCsum)
  {
    NoPad(|p.payload|);
    hide Wire, Strip;
    StripWire(e, p, false, endpoints, rxCsum);
  }

  /**
   * A framed packet survives the trip exactly when its padded length fits the length field: always as the driver frames
   * it, and up to 65532 bytes of payload were a caller to ask for padding.
   */
  lemma {:induction false} FramingExact(e: EgressFormat, p: Uplink, padded: bool, endpoints: set<u8>, rxCsum: bool)
    requires Announced(e) && Sendable(endpoints, p)
    ensures !padded || |p.payload| <= 0xFFFC <==>
      && PagedFrames(Matching(e), Wire(e, p, padded)) == [Wire(e, p, padded)]
      && Strip(Matching(e), endpoints, rxCsum, Wire(e, p, padded)) == ContentOf(e, p, rxCsum)
  {
    var b := Wire(e, p, padded);
    assert Fits(p, padded) <==> !padded || |p.payload| <= 0xFFFC;
    hide Wire, Strip, PagedLen, Padding, PadBytes;
    assert b + [] == b;
    if Fits(p, padded) {
      CutsOne(e, p, padded, []);
      StripWire(e, p, padded, endpoints, rxCsum);
      OneFrameOnly(Matching(e), b);
    } else {
      WireFields(e, p, padded, []);
      EmptyFrame(Matching(e), b);
    }
  }

  lemma {:induction false} OneFrameOnly(fmt: Format, b: seq<u8>)
    requires PagedLen(fmt, b) == Some(|b|)
    ensures PagedFrames(fmt, b) == [b]
  {
    assert b[..|b|] == b && b[|b|..] == [] && PagedFrames(fmt, []) == [];
  }

  lemma EmptyFrame(fmt: Format, b: seq<u8>)
    requires |b| >= MAP_HDR && PktLen(b) == 0
    ensures PagedFrames(fmt, b) == []
  {
  }

  /** Group k of the delivered descriptors is packet k and nothing else. */
  predicate Received(mem: Memory, e: EgressFormat, rxCsum: bool, ps: seq<Uplink>, out: seq<seq<Desc>>) {
    |out| == |ps| && forall k :: 0 <= k < |ps| ==> Holding(mem, out[k], ContentOf(e, ps[k], rxCsum))
  }

  /** One descriptor with the mux id, payload and checksum flag of a content. */
  predicate Holding(mem: Memory, ds: seq<Desc>, c: Content)
    requires c.Data?
  {
    && |ds| == 1
    && c == Data(ds[0].mux, Flat(mem, ds[0].frags), ds[0].csumValid)
  }

  lemma {:induction false} FramedAllIs(e: EgressFormat, ps: seq<Uplink>)
    ensures |FramedAll(e, ps)| == |ps| && forall k :: 0 <= k < |ps| ==> FramedAll(e, ps)[k] == Framed(e, ps[k])
  {
    hide Wire;
    if ps != [] {
      FramedAllIs(e, ps[1..]);
    }
  }

  /**
   * The whole trip: packets framed one by one, concatenated by the aggregator, received in any fragmentation and
   * stripped come out as the same list, and the pool is as it was.
   */
  method FragRoundTrip(port: Port, skb: RxSkb, feat: Features, ghost e: EgressFormat, ghost ps: seq<Uplink>)
    returns (out: seq<seq<Desc>>)
    requires port.Valid() && LenOk(port.mem, skb) && port.fmt == Matching(e) && Announced(e)
    requires AllSendable(port.endpoints, ps)
    requires Carried(port.mem, skb).stream == Join(FramedAll(e, ps))
    modifies port, skb.frags
    ensures port.Valid()
    ensures !port.failed ==> port.live == old(port.live) && Received(port.mem, e, feat.rxCsum, ps, out)
  {
    hide Port.Valid, Wire, PagedFrames, PagedRest, Delivers, Sendable, Rest, Flat, Carrier.Leaks;
    FramesToStream(port.endpoints, e, ps);
    OneSkb(skb);
    ghost var c := Carried(port.mem, skb);
    assert Carriers(port.mem, [skb], 0) == [c] && Arrays([skb]) == {skb.frags};
    AloneLeaks(port.fmt, c);
    var groups;
    ghost var leaked;
    groups, leaked := FragIngress(port, [skb], feat);
    out := groups[0];
    assert [c][1..] == [] && Behind([]) == [];
    assert Handled(port.mem, port.fmt, port.endpoints, feat, port.failed, c, [], out, leaked[0]);
    if !port.failed {
      assert leaked == [None] && Leaks([None]) == {} by { NoLeak(); }
      FramedAllIs(e, ps);
      forall k | 0 <= k < |ps|
        ensures Holding(port.mem, out[k], ContentOf(e, ps[k], feat.rxCsum))
      {
        DeliveredIs(port.mem, port.endpoints, feat, port.failed, e, ps[k], out[k]);
      }
      assert port.live == old(port.live);
    }
  }

  predicate AllSendable(endpoints: set<u8>, ps: seq<Uplink>) {
    forall k :: 0 <= k < |ps| ==> Sendable(endpoints, ps[k])
  }

  lemma AllSendableFit(endpoints: set<u8>, ps: seq<Uplink>)
    requires AllSendable(endpoints, ps)
    ensures AllFit(ps)
  {
  }

  lemma {:induction false} FramesToStream(endpoints: set<u8>, e: EgressFormat, ps: seq<Uplink>)
    requires Announced(e) && AllSendable(endpoints, ps)
    ensures PagedFrames(Matching(e), Join(FramedAll(e, ps))) == FramedAll(e, ps)
    ensures LinearFrames(Matching(e), Join(FramedAll(e, ps))) == FramedAll(e, ps)
    ensures !Dangling(Matching(e), PagedRest(Matching(e), Join(FramedAll(e, ps))))
  {
    AllSendableFit(endpoints, ps);
    hide Wire, PagedFrames, PagedRest;
    FramesRoundTrip(e, ps);
  }

  lemma {:induction false} DeliveredIs(mem: Memory, endpoints: set<u8>, feat: Features, failed: bool, e: EgressFormat,
                                       p: Uplink, ds: seq<Desc>)
    requires Announced(e) && Sendable(endpoints, p)
    requires Delivers(mem, Strip(Matching(e), endpoints, feat.rxCsum, Framed(e, p)), Framed(e, p), feat.gro, failed, ds)
    ensures Holding(mem, ds, ContentOf(e, p, feat.rxCsum))
  {
    hide Wire, Strip, Flat;
    StripFramed(e, p, endpoints, feat.rxCsum);
  }

  lemma {:induction false} NoLeak()
    ensures Leaks([None]) == {}
  {
    var one: seq<Option<nat>> := [None];
    assert one[..0] == [];
  }

  /** What the linear handler needs of a frame and makes of it. */
  lemma {:induction false} LinearFrame(e: EgressFormat, p: Uplink, endpoints: set<u8>, rxCsum: bool)
    requires Announced(e) && Sendable(endpoints, p)
    ensures var b := Framed(e, p);
      && |b| > MAP_HDR + OffloadLen(e) && DataLen(b) == |p.payload|
      && LongEnough(Matching(e), b)
      && Strip(Matching(e), endpoints, rxCsum, b) == ContentOf(e, p, rxCsum)
  {
    NoPad(|p.payload|);
    WireFields(e, p, false, []);
    assert Framed(e, p) + [] == Framed(e, p);
    WireLength(e, p, false);
    StripFramed(e, p, endpoints, rxCsum);
    hide Wire, Strip;
  }

  /**
   * The same trip over the linear path: deaggregated and handled frame by frame, every packet comes out with its mux
   * id, payload and checksum flag, in order; after a failed allocation, a prefix of them.
   */
  method LinearRoundTrip(skb: Skb, fmt: Format, endpoints: set<u8>, rxCsum: bool, behind: seq<u8>,
                         ghost e: EgressFormat, ghost ps: seq<Uplink>) returns (out: seq<Content>, failed: bool)
    requires |behind| >= FRONT && fmt == Matching(e) && Announced(e) && AllSendable(endpoints, ps)
    requires skb.data == Join(FramedAll(e, ps))
    modifies skb`data
    ensures |out| <= |ps| && (!failed ==> |out| == |ps|)
    ensures forall k :: 0 <= k < |out| ==> out[k] == ContentOf(e, ps[k], rxCsum)
  {
    hide Wire, Strip, LinearFrames, PagedFrames;
    FramesToStream(endpoints, e, ps);
    FramedAllIs(e, ps);
    var frames;
    frames, failed := LinearLoop(skb, fmt, behind);
    out := [];
    while |out| < |frames|
      invariant |out| <= |frames|
      invariant forall k :: 0 <= k < |out| ==> out[k] == ContentOf(e, ps[k], rxCsum)
    {
      LinearFrame(e, ps[|out|], endpoints, rxCsum);
      var c := ReceiveLinear(frames[|out|], behind, fmt, endpoints, rxCsum, false);
      out := out + [c];
    }
  }

  lemma {:induction false} FramedSlice(e: EgressFormat, ps: seq<Uplink>, lo: nat, hi: nat)
    requires lo <= hi <= |ps|
    ensures |FramedAll(e, ps)| == |ps| && FramedAll(e, ps)[lo..hi] == FramedAll(e, ps[lo..hi])
  {
    hide Wire;
    FramedAllIs(e, ps);
    FramedAllIs(e, ps[lo..hi]);
  }

  /**
   * Whatever way the aggregator grouped them, each skb it put on the wire deaggregates into exactly the stretch of
   * framed packets that was copied into it.
   */
  lemma {:induction false} AggregateRoundTrip(a: Aggregator.Agg, k: nat, e: EgressFormat, ps: seq<Uplink>)
    requires a.Conserved() && a.log == FramedAll(e, ps) && k < |a.wire|
    requires Announced(e) && AllFit(ps)
    ensures var lo := |Aggregator.Parts(a.wire[..k])|;
      var hi := lo + |a.wire[k].parts|;
      && hi <= |ps|
      && PagedFrames(Matching(e), a.wire[k].bytes) == FramedAll(e, ps[lo..hi])
      && LinearFrames(Matching(e), a.wire[k].bytes) == FramedAll(e, ps[lo..hi])
  {
    hide *;
    Aggregator.StretchOf(a, k);
    var lo := |Aggregator.Parts(a.wire[..k])|;
    var hi := lo + |a.wire[k].parts|;
    FramedAllIs(e, ps);
    FramedSlice(e, ps, lo, hi);
    AllFitSlice(ps, lo, hi);
    FramesRoundTrip(e, ps[lo..hi]);
  }
}
