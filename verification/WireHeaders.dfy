/** IP and transport headers written from their fields, byte by byte. */
module WireHeaders {
  import opened Bytes

  /** The IPv4 header of section 3.1 of RFC 791. */
  datatype Ip4 = Ip4(tos: u8, totalLen: u16, id: u16, df: bool, mf: bool, offset: u16, ttl: u8, csum: u16,
                     src: seq<u8>, dst: seq<u8>, options: seq<u8>) {
    predicate Ok() {
      |src| == 4 && |dst| == 4 && offset < 0x2000 && |options| <= 40 && |options| % 4 == 0
    }

    function Wire(proto: u8): (b: seq<u8>)
      requires Ok()
      ensures |b| == 20 + |options|
    {
      var len, ident, sum := Short(totalLen), Short(id), Short(csum);
      var frag := Short((if df then 0x4000 else 0) + (if mf then 0x2000 else 0) + offset);
      [64 + 5 + |options| / 4, tos, len[0], len[1], ident[0], ident[1], frag[0], frag[1], ttl, proto, sum[0], sum[1],
       src[0], src[1], src[2], src[3], dst[0], dst[1], dst[2], dst[3]] + options
    }
  }

  /** An IPv6 extension header; `body` is what follows its type and length bytes. */
  datatype Ext =
    | HopByHop(body: seq<u8>)
    | Routing(body: seq<u8>)
    | Destination(body: seq<u8>)
    | Auth(body: seq<u8>)
    | Fragment(offset: u16, more: bool, id: u32)
  {
    /** Sections 4.3 to 4.6 of RFC 8200 count in units of eight bytes, section 2.2 of RFC 4302 in units of four. */
    predicate Ok() {
      match this
      case Fragment(offset, _, _) => offset < 0x2000
      case Auth(body) => 6 <= |body| <= 6 + 4 * 255 && (|body| - 6) % 4 == 0
      case _ => 6 <= |body| <= 6 + 8 * 255 && (|body| - 6) % 8 == 0
    }

    function Type(): u8 {
      match this
      case HopByHop(_) => 0
      case Routing(_) => 43
      case Destination(_) => 60
      case Auth(_) => 51
      case Fragment(_, _, _) => 44
    }

    /** Fragment offset and M flag. */
    function Field(): u16
      requires Fragment? && Ok()
    {
      8 * offset + if more then 1 else 0
    }

    function Wire(next: u8): (b: seq<u8>)
      requires Ok()
      ensures |b| >= 8
    {
      match this
      case Fragment(_, _, id) => [next, 0] + Short(Field()) + Long(id)
      case Auth(body) => [next, (|body| - 6) / 4] + body
      case _ => [next, (|body| - 6) / 8] + body
    }
  }

  /** The type byte in front of a chain of extension headers that ends in `proto`. */
  function First(exts: seq<Ext>, proto: u8): u8 { if exts == [] then proto else exts[0].Type() }

  predicate ExtsOk(exts: seq<Ext>) { forall k :: 0 <= k < |exts| ==> exts[k].Ok() }

  function ExtBytes(exts: seq<Ext>, proto: u8): seq<u8>
    requires ExtsOk(exts)
  {
    if exts == [] then [] else exts[0].Wire(First(exts[1..], proto)) + ExtBytes(exts[1..], proto)
  }

  /** The IPv6 header of section 3 of RFC 8200 and the extension headers behind it. */
  datatype Ip6 = Ip6(tclass: u8, flow: u32, payloadLen: u16, hops: u8, src: seq<u8>, dst: seq<u8>, exts: seq<Ext>) {
    predicate Ok() { |src| == 16 && |dst| == 16 && flow < 0x10_0000 && ExtsOk(exts) }

    function Fixed(proto: u8): (b: seq<u8>)
      requires Ok()
      ensures |b| == 40
    {
      var len, fl := Short(payloadLen), Long(flow);
      [96 + tclass / 16, tclass % 16 * 16 + fl[1], fl[2], fl[3], len[0], len[1], First(exts, proto), hops]
      + src + dst
    }

    function Wire(proto: u8): (b: seq<u8>)
      requires Ok()
      ensures |b| >= 40
    {
      Fixed(proto) + ExtBytes(exts, proto)
    }
  }

  datatype Network = V4(ip4: Ip4) | V6(ip6: Ip6) {
    predicate Ok() { if V4? then ip4.Ok() else ip6.Ok() }

    function Version(): u8 { if V4? then 4 else 6 }

    function Wire(proto: u8): seq<u8>
      requires Ok()
    {
      if V4? then ip4.Wire(proto) else ip6.Wire(proto)
    }

    /** No options and no extension headers. */
    predicate Bare() { if V4? then ip4.options == [] else ip6.exts == [] }
  }

  /** The headers of section 3.1 of RFC 793 and of RFC 768. */
  datatype Transport =
    | Tcp(sport: u16, dport: u16, seqNo: u32, ack: u32, fin: bool, syn: bool, rst: bool, psh: bool, ackFlag: bool,
          urg: bool, window: u16, csum: u16, urgent: u16, options: seq<u8>)
    | Udp(sport: u16, dport: u16, len: u16, csum: u16)
  {
    predicate Ok() { Tcp? ==> |options| <= 40 && |options| % 4 == 0 }

    function Proto(): u8 { if Tcp? then 6 else 17 }

    function Flags(): u8
      requires Tcp?
    {
      (if fin then 1 else 0) + (if syn then 2 else 0) + (if rst then 4 else 0) + (if psh then 8 else 0)
      + (if ackFlag then 16 else 0) + if urg then 32 else 0
    }

    function Wire(): (b: seq<u8>)
      requires Ok()
      ensures |b| == if Tcp? then 20 + |options| else 8
    {
      var s, d, c := Short(sport), Short(dport), Short(csum);
      if Tcp? then
        var n, a, w, u := Long(seqNo), Long(ack), Short(window), Short(urgent);
        [s[0], s[1], d[0], d[1], n[0], n[1], n[2], n[3], a[0], a[1], a[2], a[3],
         16 * (5 + |options| / 4), Flags(), w[0], w[1], c[0], c[1], u[0], u[1]] + options
      else
        [s[0], s[1], d[0], d[1], Short(len)[0], Short(len)[1], c[0], c[1]]
    }
  }

  predicate HeadersOk(net: Network, tr: Transport) { net.Ok() && tr.Ok() }

  /** Network and transport header. */
  function HeaderBytes(net: Network, tr: Transport): seq<u8>
    requires HeadersOk(net, tr)
  {
    net.Wire(tr.Proto()) + tr.Wire()
  }
}
