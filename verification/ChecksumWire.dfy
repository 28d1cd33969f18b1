/** Checksum validation told by the fields a packet was written with. */
module ChecksumWire {
  import opened Bytes
  import opened WireHeaders
  import opened Checksum

  /** The pseudo-header of RFC 768 and RFC 793 from the fields of the headers. */
  function PseudoFields4(h: Ip4, tr: Transport): seq<u8>
    requires h.Ok() && 20 + |h.options| <= h.totalLen
  {
    h.src + h.dst + [0, tr.Proto()] + Short(h.totalLen - 20 - |h.options|)
  }

  /** An IPv4 packet and its parts as the validator finds them. */
  lemma {:induction false} PartsV4(h: Ip4, tr: Transport, payload: seq<u8>)
    requires h.Ok() && tr.Ok() && 20 + |h.options| <= h.totalLen
    ensures var p := h.Wire(tr.Proto()) + (tr.Wire() + payload);
      && |p| >= 20 && Ihl(p) == 20 + |h.options| <= |p| && Be16(p, 2) == h.totalLen && p[9] == tr.Proto()
      && (IsFragment(p) <==> h.mf || h.offset > 0)
      && Transport4(p) == tr.Wire() + payload && p[..Ihl(p)] == h.Wire(tr.Proto())
      && PseudoHeader4(p) == PseudoFields4(h, tr)
  {
    var w, rest := h.Wire(tr.Proto()), tr.Wire() + payload;
    var p := w + rest;
    FixedV4(h, tr.Proto());
    hide Ip4.Wire, Transport.Wire, IsFragment;
    assert forall i :: 0 <= i < 20 ==> p[i] == w[i];
    FragBits(p, h.df, h.mf, h.offset);
    assert p[12..20] == w[12..20];
    assert p[|w|..] == rest && p[..|w|] == w;
  }

  lemma {:induction false} FixedV4(h: Ip4, proto: u8)
    requires h.Ok()
    ensures var w := h.Wire(proto);
      && w[0] % 16 * 4 == 20 + |h.options| == |w| && Be16(w, 2) == h.totalLen && w[9] == proto
      && w[12..20] == h.src + h.dst
      && Be16(w, 6) == (if h.df then 0x4000 else 0) + (if h.mf then 0x2000 else 0) + h.offset
  {
    var n := |h.options| / 4;
    assert |h.options| == 4 * n && n <= 10;
    FragWord(h, proto);
  }

  lemma {:induction false} FragWord(h: Ip4, proto: u8)
    requires h.Ok()
    ensures Be16(h.Wire(proto), 6) == (if h.df then 0x4000 else 0) + (if h.mf then 0x2000 else 0) + h.offset
  {
  }

  lemma {:induction false} FragBits(p: seq<u8>, df: bool, mf: bool, offset: u16)
    requires |p| >= 20 && offset < 0x2000
    requires Be16(p, 6) == (if df then 0x4000 else 0) + (if mf then 0x2000 else 0) + offset
    ensures IsFragment(p) <==> mf || offset > 0
  {
  }

  /** The checksum field is where each transport header was given it. */
  lemma {:induction false} FieldAt(tr: Transport, payload: seq<u8>)
    requires tr.Ok()
    ensures var k := CsumOffset(tr.Proto());
      && k.Some? && Reaches(tr.Wire() + payload, tr.Proto())
      && Be16(tr.Wire() + payload, k.value) == tr.csum
  {
    var t := tr.Wire();
    var b := t + payload;
    if tr.Tcp? {
      assert b[16] == t[16] && b[17] == t[17];
    } else {
      assert b[6] == t[6] && b[7] == t[7];
    }
  }

  /**
   * IPv4: fragments are not judged, UDP packets written with checksum 0 are skipped, and any other packet is accepted
   * if and only if the pseudo-header of its fields, its transport header and its payload sum to zero.
   */
  lemma {:induction false} BuiltV4(h: Ip4, tr: Transport, payload: seq<u8>, trailer: u16)
    requires h.Ok() && tr.Ok() && 20 + |h.options| <= h.totalLen
    requires Fold(WordSum(h.Wire(tr.Proto()))) == 0xFFFF
    requires TrailerOf(h.Wire(tr.Proto()) + (tr.Wire() + payload), trailer)
    ensures var p := h.Wire(tr.Proto()) + (tr.Wire() + payload);
      var noCsum := tr.Udp? && tr.csum == 0;
      && |p| >= 20 && Ihl(p) <= |p| && Reaches(Transport4(p), p[9])
      && (ValidateV4(p, trailer) == Fragmented <==> h.mf || h.offset > 0)
      && (!(h.mf || h.offset > 0) ==>
            && (ValidateV4(p, trailer) == Skipped <==> noCsum)
            && (ValidateV4(p, trailer) == Ok <==>
                  !noCsum && WordSum(PseudoFields4(h, tr) + (tr.Wire() + payload)) % 65535 == 0))
  {
    var p := h.Wire(tr.Proto()) + (tr.Wire() + payload);
    PartsV4(h, tr, payload);
    FieldAt(tr, payload);
    hide WordSum, Fold, Ip4.Wire, Transport.Wire, PseudoHeader4, PseudoFields4, Swap, Sub, Pseudo, Transport4, Ihl;
    if !IsFragment(p) {
      ValidateV4Exact(p, trailer);
      NeverFragmented(p, trailer);
    }
  }

  lemma NeverFragmented(p: seq<u8>, trailer: u16)
    requires |p| >= 20 && Ihl(p) <= |p| && Reaches(Transport4(p), p[9])
    ensures ValidateV4(p, trailer) == Fragmented <==> IsFragment(p)
  {
    hide WordSum, Fold, Swap, Sub, Pseudo, IsFragment;
  }

  // IPv6

  /** The pseudo-header of section 8.1 of RFC 2460; its length is that of the UDP header, or the IPv6 payload length. */
  function PseudoFields6(h: Ip6, tr: Transport): seq<u8>
    requires h.Ok()
  {
    h.src + h.dst + [0, 0] + Short(if tr.Udp? then tr.len else h.payloadLen) + [0, 0, 0, tr.Proto()]
  }

  lemma {:induction false} PartsV6(h: Ip6, tr: Transport, payload: seq<u8>)
    requires h.Ok() && tr.Ok() && h.exts == []
    ensures var p := h.Wire(tr.Proto()) + (tr.Wire() + payload);
      && |p| >= 40 && p[0] != 0 && p[6] == tr.Proto() && (tr.Udp? ==> |p| >= 46)
      && Transport6(p) == tr.Wire() + payload && p[..40] == h.Wire(tr.Proto())
      && PseudoHeader6(p) == PseudoFields6(h, tr)
  {
    var w, t := h.Wire(tr.Proto()), tr.Wire();
    var p := w + (t + payload);
    FixedV6(h, tr.Proto());
    if tr.Udp? {
      assert p[44] == t[4] && p[45] == t[5];
    }
    hide Ip6.Wire, Transport.Wire;
    assert p[4] == w[4] && p[5] == w[5] && p[6] == w[6] && p[0] == w[0];
    assert p[8..40] == w[8..40] && p[40..] == t + payload && p[..40] == w;
    LongOf(UpperLength(p));
  }

  lemma LongOf(v: u16)
    ensures Long(v) == [0, 0] + Short(v)
  {
  }

  lemma {:induction false} FixedV6(h: Ip6, proto: u8)
    requires h.Ok() && h.exts == []
    ensures var w := h.Wire(proto);
      |w| == 40 && w[0] != 0 && Be16(w, 4) == h.payloadLen && w[6] == proto && w[8..40] == h.src + h.dst
  {
    assert h.Wire(proto) == h.Fixed(proto);
  }

  /** IPv6: a packet is accepted if and only if its fields sum to zero and it is not UDP written with checksum 0. */
  lemma {:induction false} BuiltV6(h: Ip6, tr: Transport, payload: seq<u8>, trailer: u16)
    requires h.Ok() && tr.Ok() && h.exts == []
    requires TrailerOf(h.Wire(tr.Proto()) + (tr.Wire() + payload), trailer)
    ensures var p := h.Wire(tr.Proto()) + (tr.Wire() + payload);
      && |p| >= 40 && Reaches(Transport6(p), p[6])
      && (ValidateV6(p, trailer) == Ok <==>
            WordSum(PseudoFields6(h, tr) + (tr.Wire() + payload)) % 65535 == 0 && !(tr.Udp? && tr.csum == 0))
  {
    var p := h.Wire(tr.Proto()) + (tr.Wire() + payload);
    PartsV6(h, tr, payload);
    FieldAt(tr, payload);
    hide WordSum, Fold, Ip6.Wire, Transport.Wire, PseudoHeader6, PseudoFields6, Swap, Sub, Pseudo, Transport6;
    hide ValidateV6;
    ValidateV6Exact(p, trailer);
  }

  // Corrupting

  /** Marking a packet bad writes the checksum field of its transport header and nothing else. */
  lemma {:induction false} CorruptsField(head: seq<u8>, tr: Transport, payload: seq<u8>, v: u16)
    requires tr.Ok()
    ensures var k := CsumOffset(tr.Proto()).value;
      && |head| + k + 2 <= |head + (tr.Wire() + payload)|
      && WithField(head + (tr.Wire() + payload), |head|, k, v) == head + (tr.(csum := v).Wire() + payload)
  {
    var k := CsumOffset(tr.Proto()).value;
    var t, c := tr.Wire(), tr.(csum := v).Wire();
    var p := head + (t + payload);
    assert p[..|head|] == head && p[|head|..] == t + payload;
    assert c == Put16(t, k, v);
    assert Put16(t + payload, k, v) == c + payload;
  }
}
