/** Coalesced frames built from the packets that went into them. */
module Bundles {
  import opened Bytes
  import opened WireHeaders
  import opened Coalesced
  import opened Segmentation
  import opened BuiltHeaders
  import Frames

  /** One original packet: its payload, and whether the hardware found its checksum bad. */
  datatype Piece = Piece(payload: seq<u8>, bad: bool)

  /** Packets of one size in a row: what one number-length object stands for. */
  datatype Run = Run(size: u16, pieces: seq<Piece>) {
    predicate Ok() { |pieces| <= 0xFF && forall k :: 0 <= k < |pieces| ==> |pieces[k].payload| == size }
  }

  datatype HwLimit = Nlos | Count | Length | Time | Evict
  datatype Close = NonCoal | IpMiss | TransMiss | Hardware(limit: HwLimit) | Flags {
    function Type(): nat {
      match this
      case NonCoal => 0
      case IpMiss => 1
      case TransMiss => 2
      case Hardware(_) => 3
      case Flags => 4
    }

    function Value(): nat {
      match this
      case Hardware(Nlos) => 0
      case Hardware(Count) => 1
      case Hardware(Length) => 2
      case Hardware(Time) => 3
      case Hardware(Evict) => 4
      case _ => 0
    }

    /** The hardware's checksum verdict on a lone packet closed for this reason cannot be trusted. */
    predicate Unreliable() { Flags? || this in {Hardware(Count), Hardware(Length), Hardware(Time)} }
  }

  function Pieces(runs: seq<Run>): seq<Piece> {
    if runs == [] then [] else runs[0].pieces + Pieces(runs[1..])
  }

  /** Payload bytes of all pieces. */
  function Joined(pieces: seq<Piece>): seq<u8> {
    if pieces == [] then [] else pieces[0].payload + Joined(pieces[1..])
  }

  /** Bits, lowest first. */
  function Number(bits: seq<bool>): nat {
    if bits == [] then 0 else (if bits[0] then 1 else 0) + 2 * Number(bits[1..])
  }

  /** Verdicts of 48 packets: bad ones are marked. */
  function Marks(pieces: seq<Piece>): seq<bool> {
    seq(48, k requires 0 <= k < 48 => k < |pieces| && pieces[k].bad)
  }

  lemma {:induction false} NumberBound(bits: seq<bool>)
    ensures Number(bits) < Pow2(|bits|)
  {
    if bits != [] {
      NumberBound(bits[1..]);
    }
  }

  function ErrByte(pieces: seq<Piece>, i: nat): u8
    requires i < 6
  {
    NumberBound(Marks(pieces)[8 * i..8 * i + 8]);
    assert Pow2(8) == 0x100 by { assert Pow2(4) == 16; }
    Number(Marks(pieces)[8 * i..8 * i + 8])
  }

  function NloBytes(n: Nlo): seq<u8> { Short(n.pktLen) + [n.errBits, n.count] }

  function NlosBytes(nlos: seq<Nlo>): (b: seq<u8>)
    ensures |b| == 4 * |nlos|
  {
    if nlos == [] then [] else NloBytes(nlos[0]) + NlosBytes(nlos[1..])
  }

  /** A coalesced frame: headers, runs of packets, and what the hardware says about them. */
  datatype Bundle = Bundle(mux: u8, net: Network, tr: Transport, runs: seq<Run>, csumValid: bool, close: Close,
                           channel: nat) {
    predicate Ok() {
      && HeadersOk(net, tr) && Unfragmented(net) && channel < 16
      && 1 <= |runs| <= 6 && |Pieces(runs)| <= 48
      && (forall i :: 0 <= i < |runs| ==> runs[i].Ok() && |HeaderBytes(net, tr)| + runs[i].size <= 0xFFFF)
      && |HeaderBytes(net, tr)| + |Joined(Pieces(runs))| <= 0xFFFF
    }

    function Pkts(): seq<Piece> { Pieces(runs) }

    /** The six number-length objects: an IP packet length and a count per run, and eight verdicts each. */
    function NloList(): (nlos: seq<Nlo>)
      requires Ok()
      ensures |nlos| == 6
    {
      seq(6, i requires 0 <= i < 6 =>
        if i < |runs| then Nlo(|HeaderBytes(net, tr)| + runs[i].size, ErrByte(Pkts(), i), |runs[i].pieces|)
        else Nlo(0, ErrByte(Pkts(), i), 0))
    }

    /** The coalescing header. */
    function CoalWire(): (b: seq<u8>)
      requires Ok()
      ensures |b| == 28
    {
      [2, 16 * |runs| + (if csumValid then 128 else 0), close.Type() + 16 * close.Value(), 16 * channel]
      + NlosBytes(NloList())
    }

    function Packet(): (b: seq<u8>)
      requires Ok()
      ensures |b| <= 0xFFFF
    {
      HeaderBytes(net, tr) + Joined(Pkts())
    }

    /** The MAP frame. */
    function Wire(): seq<u8>
      requires Ok()
    {
      [64, mux] + Short(|Packet()|) + CoalWire() + Packet()
    }

    /** Payload bytes in front of packet k. */
    function Before(k: nat): nat
      requires k <= |Pkts()|
    {
      |Joined(Pkts()[..k])|
    }

    /** Packet k of the bundle, as it was before coalescing. */
    function Original(k: nat): Coalesced.Packet
      requires k < |Pkts()|
    {
      Coalesced.Packet(Pkts()[k].payload, if tr.Tcp? then (tr.seqNo + Before(k)) % 0x1_0000_0000 else 0,
                       !Pkts()[k].bad || NoCsum())
    }

    function Originals(): seq<Coalesced.Packet> {
      seq(|Pkts()|, k requires 0 <= k < |Pkts()| => Original(k))
    }

    /** IPv4 UDP packets sent without a checksum. */
    predicate NoCsum() { net.V4? && tr.Udp? && tr.csum == 0 }
  }
}
