/** Coalesced frames as values: what packets a frame stands for and what a split segment describes. */
module Coalesced {
  import opened Bytes
  import opened Fragments
  import opened Descriptors

  const MAX_NLOS := 6
  const MAX_PACKETS := 48
  const PROTO_TCP: u8 := 6
  const PROTO_UDP: u8 := 17

  /** Number-length object: `count` packets of IP length `pktLen`. */
  datatype Nlo = Nlo(pktLen: u16, errBits: u8, count: u8)

  datatype CoalHdr = CoalHdr(numNlos: nat, csumValid: bool, closeType: nat, closeValue: nat, nlos: seq<Nlo>)

  function ParseCoalHdr(b: seq<u8>): (h: CoalHdr)
    requires |b| == 28
    ensures |h.nlos| == MAX_NLOS && h.numNlos < 8
  {
    CoalHdr(b[1] / 16 % 8, b[1] >= 128, b[2] % 16, b[2] / 16,
            seq(MAX_NLOS, i requires 0 <= i < MAX_NLOS => Nlo(Be16(b, 4 + 4 * i), b[6 + 4 * i], b[7 + 4 * i])))
  }

  /** A coalesced IP packet with its header lengths parsed. */
  datatype Frame = Frame(mux: u8, bytes: seq<u8>, ipLen: u16, transLen: u16, ipProto: u8, transProto: u8) {
    function HdrLen(): nat { ipLen + transLen }

    predicate Ok() {
      && HdrLen() <= |bytes| <= 0xFFFF
      && (transProto == PROTO_TCP ==> ipLen + 20 <= |bytes|)
      && (transProto == PROTO_UDP ==> ipLen + 8 <= |bytes|)
      && (ipProto == 4 ==> 20 <= |bytes|)
    }

    function Header(): seq<u8> requires Ok() { bytes[..HdrLen()] }

    function Payload(): seq<u8> requires Ok() { bytes[HdrLen()..] }

    /** TCP sequence number; 0 stands for "none" in the other protocols. */
    function Seq(): u32 requires Ok() { if transProto == PROTO_TCP then Be32(bytes, ipLen + 4) else 0 }

    predicate FinOrPsh() requires Ok() {
      transProto == PROTO_TCP && (bytes[ipLen + 13] % 2 == 1 || bytes[ipLen + 13] / 8 % 2 == 1)
    }

    function Id(): u16 requires Ok() { if ipProto == 4 then Be16(bytes, 4) else 0 }

    /** An IPv4 UDP packet sent without checksum. */
    predicate ZeroCsum() requires Ok() {
      transProto == PROTO_UDP && ipProto == 4 && Be16(bytes, ipLen + 6) == 0
    }
  }

  /** One original packet: its payload, its TCP sequence number and whether its checksum is good. */
  datatype Packet = Packet(payload: seq<u8>, seqNo: u32, good: bool)

  /** The packet of `size` payload bytes at offset `off` of the frame, cut off at the end of the payload. */
  function PacketAt(f: Frame, off: nat, size: nat, csumErr: bool): Packet
    requires f.Ok()
  {
    var p := f.Payload();
    Packet(p[Min(off, |p|)..Min(off + size, |p|)], SeqAt(f, off), !csumErr || f.ZeroCsum())
  }

  /** Sequence number of the payload byte at `off`. */
  function SeqAt(f: Frame, off: nat): u32
    requires f.Ok()
  {
    if f.transProto == PROTO_TCP then (f.Seq() + off) % 0x1_0000_0000 else 0
  }

  /** Payload length of the packets of an NLO, in the 16-bit arithmetic of the driver. */
  function SegSize(f: Frame, n: Nlo): u16 {
    (n.pktLen - f.HdrLen()) % 0x1_0000
  }

  /**
   * The packets the frame was coalesced from, starting with packet j of NLO i at payload offset off;
   * the lowest bit of mask tells whether the checksum of the next packet is bad.
   */
  function Packets(f: Frame, nlos: seq<Nlo>, i: nat, j: nat, off: nat, mask: nat): seq<Packet>
    requires f.Ok() && i <= |nlos| && (i < |nlos| ==> j <= nlos[i].count)
    decreases |nlos| - i, if i < |nlos| then nlos[i].count - j else 0
  {
    if i == |nlos| then []
    else if j == nlos[i].count then Packets(f, nlos, i + 1, 0, off, mask)
    else
      var size := SegSize(f, nlos[i]);
      [PacketAt(f, off, size, mask % 2 == 1)] + Packets(f, nlos, i, j + 1, off + size, mask / 2)
  }

  /** Payload bytes of the packets from packet j of NLO i on. */
  function Remaining(f: Frame, nlos: seq<Nlo>, i: nat, j: nat): nat
    requires i <= |nlos| && (i < |nlos| ==> j <= nlos[i].count)
    decreases |nlos| - i
  {
    if i == |nlos| then 0
    else Times(SegSize(f, nlos[i]), nlos[i].count - j) + Remaining(f, nlos, i + 1, 0)
  }

  /** NLO lengths times counts cover the payload exactly. */
  predicate Covered(f: Frame, nlos: seq<Nlo>)
    requires f.Ok()
  {
    Remaining(f, nlos, 0, 0) == |f.Payload()|
  }

  /** What a descriptor produced by the splitter describes: `segs` packets of `size` bytes each. */
  datatype Seg = Seg(mux: u8, header: seq<u8>, payload: seq<u8>, size: nat, segs: nat,
                     seqNo: Option<u32>, id: Option<u16>, flagsCleared: bool, good: bool)

  function SegOf(mem: Memory, d: Desc): Seg {
    var b, h := Flat(mem, d.frags), d.ipLen + d.transLen;
    Seg(d.mux, b[..Min(h, |b|)], b[Min(h, |b|)..], d.gsoSize, d.gsoSegs,
        d.tcpSeq, d.ipId, d.tcpFlagsCleared, d.csumValid)
  }

  /** The packets of a run of `n` segments of `size` bytes cut from a payload, as generic segmentation cuts it. */
  function Cutup(f: Frame, payload: seq<u8>, size: nat, n: nat, seqNo: u32, good: bool): seq<Packet> {
    if n == 0 then []
    else
      var k := Min(size, |payload|);
      [Packet(payload[..k], seqNo, good)] +
      Cutup(f, payload[k..], size, n - 1, SeqPlus(f, seqNo, size), good)
  }

  function Expand(f: Frame, s: Seg): seq<Packet>
    requires f.Ok()
  {
    Cutup(f, s.payload, s.size, s.segs, if s.seqNo.Some? then s.seqNo.value else f.Seq(), s.good)
  }

  function ExpandAll(f: Frame, ss: seq<Seg>): seq<Packet>
    requires f.Ok()
  {
    if ss == [] then [] else ExpandAll(f, ss[..|ss| - 1]) + Expand(f, ss[|ss| - 1])
  }

  /** `n` good packets of `size` bytes in a row. */
  function GoodRun(f: Frame, off: nat, size: nat, n: nat): seq<Packet>
    requires f.Ok()
    decreases n
  {
    if n == 0 then [] else [PacketAt(f, off, size, false)] + GoodRun(f, off + size, size, n - 1)
  }

  lemma {:induction false} GoodRunSnoc(f: Frame, off: nat, size: nat, n: nat)
    requires f.Ok()
    ensures GoodRun(f, off, size, n + 1) == GoodRun(f, off, size, n) + [PacketAt(f, off + Times(size, n), size, false)]
    decreases n
  {
    if n != 0 {
      GoodRunSnoc(f, off + size, size, n - 1);
    }
  }

  /** Sequence number of the next packet, as segmentation counts it. */
  function SeqPlus(f: Frame, seqNo: u32, size: nat): u32 {
    if f.transProto == PROTO_TCP then (seqNo + size) % 0x1_0000_0000 else 0
  }

  lemma SeqAtPlus(f: Frame, off: nat, size: nat)
    requires f.Ok()
    ensures SeqPlus(f, SeqAt(f, off), size) == SeqAt(f, off + size)
  {
  }

  /** Cutting up one long segment gives back the packets merged into it. */
  lemma {:induction false} CutupIsRun(f: Frame, p: seq<u8>, off: nat, size: nat, n: nat)
    requires f.Ok() && |p| == Times(size, n) && off + |p| <= |f.Payload()| && p == f.Payload()[off..off + |p|]
    ensures Cutup(f, p, size, n, SeqAt(f, off), true) == GoodRun(f, off, size, n)
    decreases n
  {
    hide Frame.Seq, Frame.ZeroCsum, Frame.Ok, Frame.Payload, SeqAt;
    if n != 0 {
      var q := p[size..];
      SliceOf(f.Payload(), off, p, size);
      SeqAtPlus(f, off, size);
      CutupIsRun(f, q, off + size, size, n - 1);
      FirstPacket(f, off, size);
    }
  }

  lemma SliceOf(all: seq<u8>, off: nat, p: seq<u8>, size: nat)
    requires size <= |p| && off + |p| <= |all| && p == all[off..off + |p|]
    ensures p[..size] == all[off..off + size] && p[size..] == all[off + size..off + size + |p[size..]|]
  {
  }

  lemma FirstPacket(f: Frame, off: nat, size: nat)
    requires f.Ok() && off + size <= |f.Payload()|
    ensures PacketAt(f, off, size, false) == Packet(f.Payload()[off..off + size], SeqAt(f, off), true)
  {
  }

  /**
   * The segment the splitter cuts at `off`: `segs` packets of `size` bytes, for a given packet id and checksum
   * verdict.
   */
  function SegAt(f: Frame, off: nat, size: nat, segs: nat, pktId: u8, csumValid: bool): Seg
    requires f.Ok() && off + Times(size, segs) <= |f.Payload()|
  {
    var end := off + Times(size, segs);
    Seg(f.mux, f.Header(), f.Payload()[off..end], size, segs,
        if f.transProto == PROTO_TCP then Some(SeqAt(f, off)) else None,
        if f.ipProto == 4 then Some((f.Id() + pktId) % 0x1_0000) else None,
        f.FinOrPsh() && end < |f.Payload()|,
        csumValid || f.ZeroCsum())
  }

  /** A run of good packets emitted as one segment expands to that run. */
  lemma {:induction false} ExpandRun(f: Frame, off: nat, size: nat, segs: nat, pktId: u8)
    requires f.Ok() && off + Times(size, segs) <= |f.Payload()|
    ensures Expand(f, SegAt(f, off, size, segs, pktId, true)) == GoodRun(f, off, size, segs)
  {
    CutupIsRun(f, SegAt(f, off, size, segs, pktId, true).payload, off, size, segs);
    if segs != 0 && f.transProto != PROTO_TCP {
      assert f.Seq() == SeqAt(f, off);
    }
  }

  /** A single packet emitted as one segment expands to itself. */
  lemma {:induction false} ExpandOne(f: Frame, off: nat, size: nat, pktId: u8, csumErr: bool)
    requires f.Ok() && off + size <= |f.Payload()|
    ensures Expand(f, SegAt(f, off, size, 1, pktId, !csumErr)) == [PacketAt(f, off, size, csumErr)]
  {
    var s := SegAt(f, off, size, 1, pktId, !csumErr);
    assert |s.payload| == size && s.payload[..size] == f.Payload()[off..off + size];
    var seqNo := if s.seqNo.Some? then s.seqNo.value else f.Seq();
    assert seqNo == SeqAt(f, off);
    assert Cutup(f, s.payload[size..], size, 0, SeqPlus(f, seqNo, size), s.good) == [];
    assert Cutup(f, s.payload, size, 1, seqNo, s.good) == [Packet(s.payload[..size], seqNo, s.good)];
  }

  /** The segments tile the payload up to `off`, each with the metadata of its own place in the frame. */
  predicate Chain(f: Frame, ss: seq<Seg>, off: nat)
    requires f.Ok()
  {
    if ss == [] then off == 0
    else
      var s := ss[|ss| - 1];
      && |s.payload| == Times(s.size, s.segs) <= off <= |f.Payload()|
      && var from := off - |s.payload|;
         && s.mux == f.mux && s.header == f.Header() && s.payload == f.Payload()[from..off]
         && s.seqNo == (if f.transProto == PROTO_TCP then Some(SeqAt(f, from)) else None)
         && s.flagsCleared == (f.FinOrPsh() && off < |f.Payload()|)
         && Chain(f, ss[..|ss| - 1], from)
  }

  function Payloads(ss: seq<Seg>): seq<u8> {
    if ss == [] then [] else Payloads(ss[..|ss| - 1]) + ss[|ss| - 1].payload
  }

  /** Concatenated, the emitted payloads are exactly the first `off` payload bytes of the frame. */
  lemma {:induction false} ChainPayloads(f: Frame, ss: seq<Seg>, off: nat)
    requires f.Ok() && Chain(f, ss, off)
    ensures off <= |f.Payload()| && Payloads(ss) == f.Payload()[..off]
  {
    hide SeqAt, Frame.Seq, Frame.FinOrPsh, Frame.Header;
    if ss != [] {
      var p := f.Payload();
      var from := off - |ss[|ss| - 1].payload|;
      ChainPayloads(f, ss[..|ss| - 1], from);
      assert p[..off] == p[..from] + p[from..off];
    }
  }

  lemma {:induction false} ChainSnoc(f: Frame, ss: seq<Seg>, off: nat, size: nat, segs: nat, pktId: u8, csumValid: bool)
    requires f.Ok() && Chain(f, ss, off) && off + Times(size, segs) <= |f.Payload()|
    ensures Chain(f, ss + [SegAt(f, off, size, segs, pktId, csumValid)], off + Times(size, segs))
  {
    var s := SegAt(f, off, size, segs, pktId, csumValid);
    assert (ss + [s])[..|ss|] == ss;
  }

  /** Packets emitted, packets merged but not yet emitted, and packets still to come make up the whole frame. */
  predicate Balanced(f: Frame, nlos: seq<Nlo>, all: seq<Packet>, done: seq<Packet>,
                     off: nat, size: nat, segs: nat, i: nat, j: nat, mask: nat)
    requires f.Ok() && i <= |nlos| && (i < |nlos| ==> j <= nlos[i].count)
  {
    && done + GoodRun(f, off, size, segs) + Packets(f, nlos, i, j, off + Times(size, segs), mask) == all
    && off + Times(size, segs) + Remaining(f, nlos, i, j) == |f.Payload()|
  }

  lemma RemainingStep(f: Frame, nlos: seq<Nlo>, i: nat, j: nat)
    requires i < |nlos| && j < nlos[i].count
    ensures Remaining(f, nlos, i, j) == SegSize(f, nlos[i]) + Remaining(f, nlos, i, j + 1)
  {
  }

  /** Merge one more good packet. */
  lemma {:induction false} BalancedMerge(f: Frame, nlos: seq<Nlo>, all: seq<Packet>, done: seq<Packet>,
                      off: nat, size: nat, segs: nat, i: nat, j: nat, mask: nat)
    requires f.Ok() && i < |nlos| && j < nlos[i].count && size == SegSize(f, nlos[i]) && mask % 2 == 0
    requires Balanced(f, nlos, all, done, off, size, segs, i, j, mask)
    ensures Balanced(f, nlos, all, done, off, size, segs + 1, i, j + 1, mask / 2)
  {
    GoodRunSnoc(f, off, size, segs);
    RemainingStep(f, nlos, i, j);
    var run, p := GoodRun(f, off, size, segs), PacketAt(f, off + Times(size, segs), size, false);
    var rest := Packets(f, nlos, i, j + 1, off + Times(size, segs) + size, mask / 2);
    assert done + run + ([p] + rest) == done + (run + [p]) + rest;
  }

  /** Emit the merged run. */
  lemma {:induction false} BalancedFlush(f: Frame, nlos: seq<Nlo>, all: seq<Packet>, done: seq<Packet>,
                      off: nat, size: nat, segs: nat, i: nat, j: nat, mask: nat)
    requires f.Ok() && i <= |nlos| && (i < |nlos| ==> j <= nlos[i].count)
    requires Balanced(f, nlos, all, done, off, size, segs, i, j, mask)
    ensures Balanced(f, nlos, all, done + GoodRun(f, off, size, segs), off + Times(size, segs), size, 0, i, j, mask)
  {
    var run := GoodRun(f, off, size, segs);
    assert (done + run) + GoodRun(f, off + Times(size, segs), size, 0) == done + run;
  }

  /** Emit one packet by itself. */
  lemma {:induction false} BalancedSingle(f: Frame, nlos: seq<Nlo>, all: seq<Packet>, done: seq<Packet>,
                       off: nat, size: nat, i: nat, j: nat, mask: nat)
    requires f.Ok() && i < |nlos| && j < nlos[i].count && size == SegSize(f, nlos[i])
    requires Balanced(f, nlos, all, done, off, size, 0, i, j, mask)
    ensures Balanced(f, nlos, all, done + [PacketAt(f, off, size, mask % 2 == 1)],
                     off + size, size, 0, i, j + 1, mask / 2)
    ensures off + size <= |f.Payload()|
  {
    RemainingStep(f, nlos, i, j);
    var p := PacketAt(f, off, size, mask % 2 == 1);
    var rest := Packets(f, nlos, i, j + 1, off + size, mask / 2);
    assert done + [] + ([p] + rest) == (done + [p]) + [] + rest;
  }

  /** Go on to the next NLO with nothing merged. */
  lemma BalancedNext(f: Frame, nlos: seq<Nlo>, all: seq<Packet>, done: seq<Packet>,
                     off: nat, size: nat, next: nat, i: nat, mask: nat)
    requires f.Ok() && i < |nlos|
    requires Balanced(f, nlos, all, done, off, size, 0, i, nlos[i].count, mask)
    ensures Balanced(f, nlos, all, done, off, next, 0, i + 1, 0, mask)
  {
  }
}
