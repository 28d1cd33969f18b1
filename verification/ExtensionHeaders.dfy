/** The IPv6 extension header walk over a fragment descriptor. */
module ExtensionHeaders {
  import opened Bytes
  import opened Fragments
  import opened Descriptors

  const NEXTHDR_HOP: u8 := 0
  const NEXTHDR_ROUTING: u8 := 43
  const NEXTHDR_FRAGMENT: u8 := 44
  const NEXTHDR_AUTH: u8 := 51
  const NEXTHDR_NONE: u8 := 59
  const NEXTHDR_DEST: u8 := 60

  predicate IsExtHdr(nh: u8) {
    nh in {NEXTHDR_HOP, NEXTHDR_ROUTING, NEXTHDR_FRAGMENT, NEXTHDR_AUTH, NEXTHDR_NONE, NEXTHDR_DEST}
  }

  /** Where the walk ended, the header type found there, and the last fragment field seen. */
  datatype Walk = Stop(start: nat, nextHdr: u8, frag: u16) | Invalid(frag: u16)

  /** Length of an extension header whose second byte is `lenByte`. */
  function HdrLen(nh: u8, lenByte: u8): nat {
    if nh == NEXTHDR_FRAGMENT then 8
    else if nh == NEXTHDR_AUTH then (lenByte + 2) * 4
    else (lenByte + 1) * 8
  }

  /** Recursive reading of section 4 of RFC 8200 (AH length: section 2.2 of RFC 4302) on a flat packet. */
  function WalkFrom(b: seq<u8>, start: nat, nh: u8, frag: u16): (w: Walk)
    ensures w.Stop? ==> w.start >= start
    ensures w.Stop? && IsExtHdr(w.nextHdr) ==> w.nextHdr == NEXTHDR_FRAGMENT && w.frag >= 8
    decreases if start < |b| then |b| - start else 0
  {
    if !IsExtHdr(nh) then Stop(start, nh, frag)
    else if nh == NEXTHDR_NONE || start + 2 > |b| then Invalid(frag)
    else if nh == NEXTHDR_FRAGMENT then
      if start + 4 > |b| then Invalid(frag)
      else
        var field := Be16(b, start + 2);
        if field / 8 != 0 then Stop(start, nh, field)
        else WalkFrom(b, start + 8, b[start], field)
    else WalkFrom(b, start + HdrLen(nh, b[start + 1]), b[start], frag)
  }

  /** The walk looks at nothing behind the transport header it finds. */
  lemma {:induction false} WalkIsLocal(b: seq<u8>, c: seq<u8>, start: nat, nh: u8, frag: u16)
    requires WalkFrom(b, start, nh, frag).Stop?
    requires WalkFrom(b, start, nh, frag).start <= |b|
    ensures WalkFrom(b + c, start, nh, frag) == WalkFrom(b, start, nh, frag)
    decreases if start < |b| then |b| - start else 0
  {
    if IsExtHdr(nh) {
      if nh == NEXTHDR_FRAGMENT {
        assert Be16(b + c, start + 2) == Be16(b, start + 2);
        if Be16(b, start + 2) / 8 == 0 {
          WalkIsLocal(b, c, start + 8, b[start], Be16(b, start + 2));
        }
      } else {
        WalkIsLocal(b, c, start + HdrLen(nh, b[start + 1]), b[start], frag);
      }
    }
  }

  lemma WalkStep(b: seq<u8>, at: nat, nh: u8, frag: u16)
    ensures !IsExtHdr(nh) ==> WalkFrom(b, at, nh, frag) == Stop(at, nh, frag)
    ensures IsExtHdr(nh) && (nh == NEXTHDR_NONE || at + 2 > |b|) ==> WalkFrom(b, at, nh, frag) == Invalid(frag)
    ensures nh == NEXTHDR_FRAGMENT && at + 2 <= |b| ==>
      WalkFrom(b, at, nh, frag) ==
        if at + 4 > |b| then Invalid(frag)
        else if Be16(b, at + 2) / 8 != 0 then Stop(at, nh, Be16(b, at + 2))
        else WalkFrom(b, at + 8, b[at], Be16(b, at + 2))
    ensures IsExtHdr(nh) && nh != NEXTHDR_NONE && nh != NEXTHDR_FRAGMENT && at + 2 <= |b| ==>
      WalkFrom(b, at, nh, frag) == WalkFrom(b, at + HdrLen(nh, b[at + 1]), b[at], frag)
  {
  }

  /** The first two bytes of an extension header, or of its fragment field. */
  method TwoBytes(port: Port, h: nat, off: u32) returns (r: Option<seq<u8>>)
    requires port.Valid() && h in port.live
    ensures var b := Flat(port.mem, port.live[h].frags);
      r == if off + 2 <= |b| then Some([b[off], b[off + 1]]) else None
  {
    hide Port.Valid, Flat;
    r := port.HeaderPtr(h, off, 2);
    ghost var b := Flat(port.mem, port.live[h].frags);
    assert off + 2 <= |b| ==> b[off..off + 2] == [b[off], b[off + 1]];
  }

  /** One round of the loop: the walk ends at this header, or goes on behind it. */
  method SkipOne(port: Port, h: nat, at: u32, nh: u8, frag: u16) returns (done: bool, next: Walk)
    requires port.Valid() && h in port.live && IsExtHdr(nh) && at < MAX_LEN + 0x1000
    ensures var b := Flat(port.mem, port.live[h].frags);
      if done then next == WalkFrom(b, at, nh, frag)
      else
        && next.Stop? && at < next.start <= at + 0x1000 && at < |b|
        && WalkFrom(b, next.start, next.nextHdr, next.frag) == WalkFrom(b, at, nh, frag)
  {
    ghost var b := Flat(port.mem, port.live[h].frags);
    hide WalkFrom, IsExtHdr, Port.Valid, Flat;
    WalkStep(b, at, nh, frag);
    if nh == NEXTHDR_NONE {
      return true, Invalid(frag);
    }
    var hp := TwoBytes(port, h, at);
    if hp.None? {
      return true, Invalid(frag);
    }
    var lenByte: int := hp.value[1];
    if nh == NEXTHDR_FRAGMENT {
      var fp := TwoBytes(port, h, at + 2);
      if fp.None? {
        return true, Invalid(frag);
      }
      var field := Be16(fp.value, 0);
      assert field == Be16(b, at + 2);
      return field / 8 != 0, if field / 8 != 0 then Stop(at, nh, field) else Stop(at + 8, hp.value[0], field);
    } else if nh == NEXTHDR_AUTH {
      return false, Stop(at + (lenByte + 2) * 4, hp.value[0], frag);
    }
    return false, Stop(at + (lenByte + 1) * 8, hp.value[0], frag);
  }

  /** rmnet_frag_ipv6_skip_exthdr: the result depends on the flat bytes only, however they are fragmented. */
  method SkipExtHdr(port: Port, h: nat, start: nat, nextHdr: u8) returns (w: Walk)
    requires port.Valid() && h in port.live && start < MAX_LEN
    ensures w == WalkFrom(Flat(port.mem, port.At(h).frags), start, nextHdr, 0)
  {
    port.RangeExact(h, 0, 0);
    ghost var b := Flat(port.mem, port.At(h).frags);
    hide WalkFrom, IsExtHdr, Port.Valid, Flat;
    var nh, at, frag: u16 := nextHdr, start, 0;
    while IsExtHdr(nh)
      invariant 0 <= at < MAX_LEN + 0x1000
      invariant WalkFrom(b, at, nh, frag) == WalkFrom(b, start, nextHdr, 0)
      decreases if at < |b| then |b| - at else 0, IsExtHdr(nh)
    {
      var done, next := SkipOne(port, h, at, nh, frag);
      if done {
        return next;
      }
      at, nh, frag := next.start, next.nextHdr, next.frag;
    }
    WalkStep(b, at, nh, frag);
    w := Stop(at, nh, frag);
  }
}
