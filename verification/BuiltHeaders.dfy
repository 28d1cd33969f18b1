/** Headers written from their fields are read back field by field. */
module BuiltHeaders {
  import opened Bytes
  import opened WireHeaders
  import opened ExtensionHeaders
  import opened Coalesced
  import opened Segmentation

  // IPv6 extension headers

  /** Where a walk over these headers must end, told by the lengths they were written with. */
  function Destined(exts: seq<Ext>, proto: u8, at: nat, frag: u16): Walk
    requires ExtsOk(exts)
  {
    if exts == [] then if proto == 59 then Invalid(frag) else Stop(at, proto, frag)
    else
      match exts[0]
      case Fragment(offset, _, _) =>
        if offset > 0 then Stop(at, 44, exts[0].Field())
        else Destined(exts[1..], proto, at + 8, exts[0].Field())
      case _ => Destined(exts[1..], proto, at + 2 + |exts[0].body|, frag)
  }

  lemma {:induction false} WalkOne(b: seq<u8>, at: nat, e: Ext, next: u8, frag: u16)
    requires e.Ok() && at + |e.Wire(next)| <= |b| && b[at..at + |e.Wire(next)|] == e.Wire(next)
    ensures var w := WalkFrom(b, at, e.Type(), frag);
      if e.Fragment? then
        w == if e.offset > 0 then Stop(at, 44, e.Field()) else WalkFrom(b, at + 8, next, e.Field())
      else
        w == WalkFrom(b, at + 2 + |e.body|, next, frag)
  {
    var wire := e.Wire(next);
    assert forall i :: 0 <= i < |wire| ==> b[at + i] == wire[i] by {
      forall i | 0 <= i < |wire|
        ensures b[at + i] == wire[i]
      {
        assert b[at..at + |wire|][i] == b[at + i];
      }
    }
    assert b[at] == next && b[at + 1] == wire[1] && b[at + 2] == wire[2] && b[at + 3] == wire[3];
    if e.Fragment? {
      assert wire[2..4] == Short(e.Field());
      assert Be16(b, at + 2) == e.Field();
    }
    WalkStep(b, at, e.Type(), frag);
    hide WalkFrom;
  }

  /**
   * The walk over any chain of extension headers, in any order, with anything in front and behind: it ends at the
   * transport header, or at the first fragment header that is not that of a first fragment.
   */
  lemma {:induction false} WalkBuilt(a: seq<u8>, exts: seq<Ext>, proto: u8, rest: seq<u8>, frag: u16)
    requires ExtsOk(exts) && proto !in {0, 43, 44, 51, 60}
    ensures WalkFrom(a + ExtBytes(exts, proto) + rest, |a|, First(exts, proto), frag)
         == Destined(exts, proto, |a|, frag)
    decreases |exts|
  {
    hide WalkFrom, Ext.Wire, Ext.Type, Ext.Field, ExtBytes, Destined, ExtsOk;
    var b := a + ExtBytes(exts, proto) + rest;
    ExtsFirst(exts, proto, |a|, frag);
    if exts == [] {
      assert b == a + rest;
      WalkStep(b, |a|, proto, frag);
    } else {
      var e, next, more := exts[0], First(exts[1..], proto), ExtBytes(exts[1..], proto);
      var w := e.Wire(next);
      Splice(a, w, more, rest);
      WalkOne(b, |a|, e, next, frag);
      if !(e.Fragment? && e.offset > 0) {
        WalkBuilt(a + w, exts[1..], proto, rest, if e.Fragment? then e.Field() else frag);
      }
    }
  }

  /** One header of a chain, and the rest. */
  lemma {:induction false} ExtsFirst(exts: seq<Ext>, proto: u8, at: nat, frag: u16)
    requires ExtsOk(exts)
    ensures exts == [] ==>
      && ExtBytes(exts, proto) == []
      && Destined(exts, proto, at, frag) == if proto == 59 then Invalid(frag) else Stop(at, proto, frag)
    ensures exts != [] ==>
      var e, next := exts[0], First(exts[1..], proto);
      && e.Ok() && ExtsOk(exts[1..])
      && First(exts, proto) == e.Type() && ExtBytes(exts, proto) == e.Wire(next) + ExtBytes(exts[1..], proto)
      && |e.Wire(next)| == (if e.Fragment? then 8 else 2 + |e.body|)
      && Destined(exts, proto, at, frag) ==
           if e.Fragment? && e.offset > 0 then Stop(at, 44, e.Field())
           else Destined(exts[1..], proto, at + |e.Wire(next)|, if e.Fragment? then e.Field() else frag)
  {
  }

  lemma Splice(a: seq<u8>, w: seq<u8>, more: seq<u8>, rest: seq<u8>)
    ensures a + (w + more) + rest == (a + w) + more + rest
    ensures (a + (w + more) + rest)[|a|..|a| + |w|] == w
  {
  }

  /** Whether the packet is a fragment, or claims to be one: the last fragment field is not zero. */
  function LastField(exts: seq<Ext>, frag: u16): u16
    requires ExtsOk(exts)
  {
    if exts == [] then frag else LastField(exts[1..], if exts[0].Fragment? then exts[0].Field() else frag)
  }

  /** No fragment header is other than that of a first fragment. */
  predicate Initial(exts: seq<Ext>) { forall k :: 0 <= k < |exts| && exts[k].Fragment? ==> exts[k].offset == 0 }

  lemma {:induction false} DestinedEnds(exts: seq<Ext>, proto: u8, at: nat, frag: u16)
    requires ExtsOk(exts) && proto != 59
    ensures var w := Destined(exts, proto, at, frag);
      if Initial(exts) then w == Stop(at + |ExtBytes(exts, proto)|, proto, LastField(exts, frag))
      else w.Stop? && w.nextHdr == 44 && w.frag >= 8
    decreases |exts|
  {
    if exts != [] {
      var rest := exts[1..];
      assert Initial(exts) <==> Initial(rest) && (exts[0].Fragment? ==> exts[0].offset == 0) by {
        if Initial(rest) && (exts[0].Fragment? ==> exts[0].offset == 0) {
          forall k | 0 <= k < |exts| && exts[k].Fragment?
            ensures exts[k].offset == 0
          {
            assert k > 0 ==> exts[k] == rest[k - 1];
          }
        }
      }
      var field := if exts[0].Fragment? then exts[0].Field() else frag;
      DestinedEnds(rest, proto, at + |exts[0].Wire(First(rest, proto))|, field);
    }
  }

  // Whole headers

  /** Neither a fragment nor, in IPv6, announced as one. */
  predicate Unfragmented(net: Network)
    requires net.Ok()
  {
    net.V6? ==> Initial(net.ip6.exts) && LastField(net.ip6.exts, 0) == 0
  }

  lemma {:induction false} Ip4Parses(h: Ip4, proto: u8, rest: seq<u8>)
    requires h.Ok()
    ensures ParseIp(h.Wire(proto) + rest) == Some(Headers(4, |h.Wire(proto)|, proto, 0, h.options == []))
  {
    var w := h.Wire(proto);
    var b := w + rest;
    assert b[0] == w[0] && b[9] == w[9];
    var n := |h.options| / 4;
    assert |h.options| == 4 * n && n <= 10;
    assert b[0] == 64 + (5 + n) && b[0] / 16 == 4 && b[0] % 16 == 5 + n;
    hide Ip4.Wire, WalkFrom;
  }

  lemma {:induction false} Ip6Parses(h: Ip6, proto: u8, rest: seq<u8>)
    requires h.Ok() && proto !in {0, 43, 44, 51, 59, 60} && |h.Wire(proto)| <= 0xFFFF
    ensures ParseIp(h.Wire(proto) + rest) ==
      if Initial(h.exts) && LastField(h.exts, 0) == 0 then
        Some(Headers(6, |h.Wire(proto)|, proto, 0, h.exts == []))
      else None
  {
    hide WalkFrom, Destined, ExtBytes, Ip6.Fixed, Ip6.Wire, LastField, Initial, ExtsOk, Ext.Wire, Ext.Field, First;
    hide ParseIp;
    Ip6Front(h, proto, rest);
    WalkBuilt(h.Fixed(proto), h.exts, proto, rest, 0);
    DestinedEnds(h.exts, proto, 40, 0);
    ExtsFirst(h.exts, proto, 40, 0);
    ParseIp6(h.Wire(proto) + rest);
  }

  lemma ParseIp6(b: seq<u8>)
    requires |b| >= 40 && b[0] / 16 == 6
    ensures var w := WalkFrom(b, 40, b[6], 0);
      ParseIp(b) == if w.Invalid? || w.frag != 0 then None
                    else Some(Headers(6, w.start % 0x1_0000, w.nextHdr, 0, w.start % 0x1_0000 <= 40))
  {
  }

  lemma {:induction false} Ip6Front(h: Ip6, proto: u8, rest: seq<u8>)
    requires h.Ok()
    ensures var b := h.Wire(proto) + rest;
      && |b| >= 40 && b[0] / 16 == 6 && b[6] == First(h.exts, proto)
      && b == h.Fixed(proto) + ExtBytes(h.exts, proto) + rest
      && |h.Wire(proto)| == 40 + |ExtBytes(h.exts, proto)|
  {
    var fixed := h.Fixed(proto);
    var b := h.Wire(proto) + rest;
    assert b[0] == fixed[0] && b[6] == fixed[6];
    var t: int := h.tclass;
    assert fixed[0] == 96 + t / 16 && t / 16 < 16;
    hide ExtBytes, First;
  }

  /**
   * Headers written from their fields: version, lengths and protocols are read as written, and a header without options
   * and extension headers is known as such; in IPv6 fragments are turned away.
   */
  lemma {:induction false} ParsesBuilt(net: Network, tr: Transport, payload: seq<u8>)
    requires HeadersOk(net, tr) && |net.Wire(tr.Proto())| <= 0xFFFF
    ensures ParseHeaders(HeaderBytes(net, tr) + payload) ==
      if Unfragmented(net) then
        Some(Headers(net.Version(), |net.Wire(tr.Proto())|, tr.Proto(), |tr.Wire()|, net.Bare()))
      else None
  {
    var n, t := net.Wire(tr.Proto()), tr.Wire();
    var b := HeaderBytes(net, tr) + payload;
    assert b == n + (t + payload);
    if net.V4? {
      Ip4Parses(net.ip4, tr.Proto(), t + payload);
    } else {
      Ip6Parses(net.ip6, tr.Proto(), t + payload);
    }
    TransportParses(n, tr, payload);
    hide Network.Wire, Transport.Wire, ParseIp, Initial, LastField, Ip4.Wire, Ip6.Wire;
  }

  /** The transport header behind any n. */
  lemma {:induction false} TransportParses(n: seq<u8>, tr: Transport, payload: seq<u8>)
    requires tr.Ok()
    ensures var b := n + (tr.Wire() + payload);
      && |n| + |tr.Wire()| <= |b|
      && (forall i :: 0 <= i < |tr.Wire()| ==> b[|n| + i] == tr.Wire()[i])
      && (if tr.Tcp? then |n| + 20 <= |b| && b[|n| + 12] / 16 * 4 == |tr.Wire()|
          else |n| + 8 <= |b| && |tr.Wire()| == 8)
  {
    var t := tr.Wire();
    var b := n + (t + payload);
    forall i | 0 <= i < |t|
      ensures b[|n| + i] == t[i]
    {
    }
    if tr.Tcp? {
      var k := |tr.options| / 4;
      assert |tr.options| == 4 * k && t[12] == 16 * (5 + k);
      assert b[|n| + 12] == t[12];
    }
  }

  /** The fields of the headers as the splitter reads them. */
  lemma {:induction false} FrameFields(mux: u8, net: Network, tr: Transport, payload: seq<u8>)
    requires HeadersOk(net, tr) && |HeaderBytes(net, tr) + payload| <= 0xFFFF
    ensures var h := Headers(net.Version(), |net.Wire(tr.Proto())|, tr.Proto(), |tr.Wire()|, net.Bare());
      var f := ParsedFrame(mux, HeaderBytes(net, tr) + payload, h);
      && f.Ok() && f.Header() == HeaderBytes(net, tr) && f.Payload() == payload
      && f.Seq() == (if tr.Tcp? then tr.seqNo else 0)
      && f.FinOrPsh() == (tr.Tcp? && (tr.fin || tr.psh))
      && f.Id() == (if net.V4? then net.ip4.id else 0)
      && f.ZeroCsum() == (net.V4? && tr.Udp? && tr.csum == 0)
  {
    hide Network.Wire, Transport.Wire, Ip4.Wire, Transport.Flags, Frame.Seq, Frame.FinOrPsh, Frame.Id, Frame.ZeroCsum;
    var n, t := net.Wire(tr.Proto()), tr.Wire();
    var h := Headers(net.Version(), |n|, tr.Proto(), |t|, net.Bare());
    var f := ParsedFrame(mux, HeaderBytes(net, tr) + payload, h);
    assert f.bytes == n + (t + payload);
    TransportParses(n, tr, payload);
    if tr.Tcp? {
      TcpFields(f.bytes, |n|, tr);
    } else {
      UdpFields(f.bytes, |n|, tr);
    }
    NetFront(net, tr.Proto(), f.bytes);
    assert f.bytes[..|n| + |t|] == HeaderBytes(net, tr) && f.bytes[|n| + |t|..] == payload;
    FrameReads(f, net, tr);
  }

  lemma {:induction false} NetFront(net: Network, proto: u8, b: seq<u8>)
    requires net.Ok() && net.Wire(proto) <= b
    ensures net.V4? ==> |b| >= 20 && Be16(b, 4) == net.ip4.id
  {
    if net.V4? {
      Ip4Id(net.ip4, proto, b);
    }
  }

  lemma FrameReads(f: Frame, net: Network, tr: Transport)
    requires f.Ok() && f.transProto == tr.Proto() && f.ipProto == net.Version()
    requires tr.Tcp? ==>
      && Be32(f.bytes, f.ipLen + 4) == tr.seqNo && (f.bytes[f.ipLen + 13] % 2 == 1 <==> tr.fin)
      && (f.bytes[f.ipLen + 13] / 8 % 2 == 1 <==> tr.psh)
    requires tr.Udp? ==> Be16(f.bytes, f.ipLen + 6) == tr.csum
    requires net.V4? ==> Be16(f.bytes, 4) == net.ip4.id
    ensures f.Seq() == (if tr.Tcp? then tr.seqNo else 0)
    ensures f.FinOrPsh() == (tr.Tcp? && (tr.fin || tr.psh))
    ensures f.Id() == (if net.V4? then net.ip4.id else 0)
    ensures f.ZeroCsum() == (net.V4? && tr.Udp? && tr.csum == 0)
  {
  }

  lemma {:induction false} TcpFields(b: seq<u8>, at: nat, tr: Transport)
    requires tr.Ok() && tr.Tcp? && at + 20 <= |b| && forall i :: 0 <= i < 20 ==> b[at + i] == tr.Wire()[i]
    ensures Be32(b, at + 4) == tr.seqNo
    ensures b[at + 13] % 2 == 1 <==> tr.fin
    ensures b[at + 13] / 8 % 2 == 1 <==> tr.psh
  {
    var t, n := tr.Wire(), Long(tr.seqNo);
    ReadBack(tr.seqNo);
    assert b[at + 4] == t[4] && b[at + 5] == t[5] && b[at + 6] == t[6] && b[at + 7] == t[7];
    assert t[4] == n[0] && t[5] == n[1] && t[6] == n[2] && t[7] == n[3];
    assert b[at + 13] == t[13] == tr.Flags();
    hide Transport.Wire, Long;
    assert Be32(b, at + 4) == Be32(n, 0);
  }

  lemma {:induction false} UdpFields(b: seq<u8>, at: nat, tr: Transport)
    requires tr.Ok() && tr.Udp? && at + 8 <= |b| && forall i :: 0 <= i < 8 ==> b[at + i] == tr.Wire()[i]
    ensures Be16(b, at + 6) == tr.csum
  {
    var t := tr.Wire();
    assert b[at + 6] == t[6] && b[at + 7] == t[7];
  }

  lemma {:induction false} Ip4Id(h: Ip4, proto: u8, b: seq<u8>)
    requires h.Ok() && h.Wire(proto) <= b
    ensures Be16(b, 4) == h.id
  {
    var w := h.Wire(proto);
    assert b[4] == w[4] && b[5] == w[5];
  }
}
