/** MAP frames on flat byte streams: how each deaggregator measures and cuts them. */
module Frames {
  import opened Bytes
  import opened Descriptors

  const MAP_HDR := 4
  const CSUM_HDR := 4
  const COAL_HDR := 28
  const CSUM_TRAILER := 8
  const TYPE_COALESCING := 1
  const TYPE_CSUM_OFFLOAD := 2

  /** Fields of the MAP header at the front of b. */
  predicate CdBit(b: seq<u8>) requires |b| >= MAP_HDR { b[0] >= 128 }

  predicate NextHdrBit(b: seq<u8>) requires |b| >= MAP_HDR { (b[0] / 64) % 2 == 1 }

  function PadLen(b: seq<u8>): nat requires |b| >= MAP_HDR { b[0] % 64 }

  function PktLen(b: seq<u8>): u16 requires |b| >= MAP_HDR { Be16(b, 2) }

  /** Type field of the header that follows the MAP header: seven bits. */
  function HdrType(b: seq<u8>): nat requires |b| > MAP_HDR { b[4] / 2 }

  /** The frame carries a QMAPv5 header in this format. */
  predicate IsV5Data(fmt: Format, b: seq<u8>) requires |b| >= MAP_HDR {
    !fmt.cksumV4 && (fmt.cksumV5 || fmt.coalesce) && !CdBit(b)
  }

  /** Length of the extra header of this type, as the paged deaggregator counts it. */
  function ExtraLen(ty: nat): nat {
    if ty == TYPE_COALESCING then COAL_HDR else if ty == TYPE_CSUM_OFFLOAD then CSUM_HDR else 0
  }

  /** The stream ends right behind the MAP header of a data frame that must have a second header. */
  predicate Dangling(fmt: Format, b: seq<u8>) {
    |b| == MAP_HDR && PktLen(b) != 0 && IsV5Data(fmt, b)
  }

  /** Length the paged deaggregator gives to the frame at the front, if it accepts one. */
  function PagedLen(fmt: Format, b: seq<u8>): (r: Option<nat>)
    ensures r.Some? ==> MAP_HDR < r.value <= |b| && r.value <= 0xFFFF + MAP_HDR + COAL_HDR
  {
    if |b| < MAP_HDR || PktLen(b) == 0 || Dangling(fmt, b) then None
    else
      var len := PktLen(b) + MAP_HDR +
        if fmt.cksumV4 then CSUM_TRAILER else if IsV5Data(fmt, b) && |b| > MAP_HDR then ExtraLen(HdrType(b)) else 0;
      if len <= |b| then Some(len) else None
  }

  function PagedFrames(fmt: Format, b: seq<u8>): seq<seq<u8>>
    decreases |b|
  {
    match PagedLen(fmt, b)
    case None => []
    case Some(len) => [b[..len]] + PagedFrames(fmt, b[len..])
  }

  /** What the paged deaggregator leaves unread. */
  function PagedRest(fmt: Format, b: seq<u8>): seq<u8>
    decreases |b|
  {
    match PagedLen(fmt, b)
    case None => b
    case Some(len) => PagedRest(fmt, b[len..])
  }

  lemma NoFrame(fmt: Format, b: seq<u8>)
    requires PagedLen(fmt, b).None?
    ensures PagedFrames(fmt, b) == [] && PagedRest(fmt, b) == b && Join([]) == []
  {
  }

  lemma FirstFrame(fmt: Format, b: seq<u8>)
    requires PagedLen(fmt, b).Some?
    ensures var len := PagedLen(fmt, b).value;
      && PagedFrames(fmt, b) == [b[..len]] + PagedFrames(fmt, b[len..])
      && PagedRest(fmt, b) == PagedRest(fmt, b[len..])
  {
  }

  lemma {:induction false} JoinFront(x: seq<u8>, parts: seq<seq<u8>>, end: seq<u8>, rest: seq<u8>)
    requires Join(parts) + end == rest
    ensures Join([x] + parts) + end == x + rest
  {
    JoinCons(x, parts);
    hide Join;
    assert (x + Join(parts)) + end == x + (Join(parts) + end);
  }

  /** The frames and the unread rest partition the stream. */
  lemma {:induction false} FramesPartition(fmt: Format, b: seq<u8>)
    ensures Join(PagedFrames(fmt, b)) + PagedRest(fmt, b) == b
    ensures PagedLen(fmt, PagedRest(fmt, b)).None?
    decreases |b|
  {
    hide PagedLen, PagedFrames, PagedRest, Join;
    if PagedLen(fmt, b).None? {
      NoFrame(fmt, b);
      assert [] + b == b;
    } else {
      var len := PagedLen(fmt, b).value;
      FirstFrame(fmt, b);
      FramesPartition(fmt, b[len..]);
      JoinFront(b[..len], PagedFrames(fmt, b[len..]), PagedRest(fmt, b[len..]), b[len..]);
      assert b[..len] + b[len..] == b;
    }
  }

  /** A received skb: the bytes of its fragments, its skb->len, and whether its last fragment is empty. */
  datatype Carrier = Carrier(stream: seq<u8>, len: nat, lastEmpty: bool) {
    /**
     * Deaggregating it leaks a descriptor, with the bytes `behind` on its frag_list: a fragment is left, the header is
     * readable, if need be into the next skb, and asks for a second header whose type byte is not.
     */
    predicate Leaks(fmt: Format, behind: seq<u8>) {
      var rest := PagedRest(fmt, stream);
      (rest != [] || lastEmpty) && TypeMissing(fmt, rest + behind, len)
    }
  }

  /** The first of the readable bytes are the MAP header of a data frame, and its type byte cannot be read. */
  predicate TypeMissing(fmt: Format, all: seq<u8>, len: nat) {
    && |all| >= MAP_HDR && len >= MAP_HDR && PktLen(all) != 0 && IsV5Data(fmt, all)
    && (|all| == MAP_HDR || len < MAP_HDR + 1)
  }

  /** What skb_copy_bits can read behind an skb whose frag_list is the given chain: no skb is read past its skb->len. */
  function Behind(chain: seq<Carrier>): seq<u8> {
    if chain == [] then []
    else
      var b := chain[0].stream + Behind(chain[1..]);
      b[..Min(|b|, chain[0].len)]
  }

  /** Each skb counts in its skb->len its own bytes and those of its frag_list. */
  predicate Nested(chain: seq<Carrier>) {
    chain == [] || (Nested(chain[1..]) && chain[0].len >= |chain[0].stream| + |Streams(chain[1..])|)
  }

  function Streams(chain: seq<Carrier>): seq<u8> {
    if chain == [] then [] else chain[0].stream + Streams(chain[1..])
  }

  /** Then all the bytes of the chain can be read. */
  lemma {:induction false} BehindNested(chain: seq<Carrier>)
    requires Nested(chain)
    ensures Behind(chain) == Streams(chain)
  {
    if chain != [] {
      BehindNested(chain[1..]);
    }
  }

  /** An skb with nothing behind it leaks exactly when its stream ends in a dangling header. */
  lemma {:induction false} AloneLeaks(fmt: Format, c: Carrier)
    requires |c.stream| <= c.len
    ensures c.Leaks(fmt, []) <==> Dangling(fmt, PagedRest(fmt, c.stream))
  {
    hide PagedRest, PagedFrames, PagedLen, Join;
    FramesPartition(fmt, c.stream);
    var rest := PagedRest(fmt, c.stream);
    assert rest + [] == rest && |rest| <= |c.stream|;
  }

  /** What the linear deaggregator does with the front of its buffer. */
  datatype Linear = Nothing | OneFrame(len: nat) | WholeBuffer

  function LinearStep(fmt: Format, b: seq<u8>): (r: Linear)
    ensures r.OneFrame? ==> MAP_HDR < r.len <= |b|
  {
    if |b| < MAP_HDR then Nothing
    else
      var v5 := !fmt.cksumV4 && fmt.cksumV5 && !CdBit(b);
      var len := PktLen(b) + MAP_HDR + if fmt.cksumV4 then CSUM_TRAILER else if v5 then CSUM_HDR else 0;
      if len > |b| || PktLen(b) == 0 then Nothing
      else if v5 && HdrType(b) == TYPE_COALESCING then WholeBuffer
      else OneFrame(len)
  }

  function LinearFrames(fmt: Format, b: seq<u8>): seq<seq<u8>>
    decreases |b|
  {
    match LinearStep(fmt, b)
    case Nothing => []
    case WholeBuffer => [b]
    case OneFrame(len) => [b[..len]] + LinearFrames(fmt, b[len..])
  }

  const V5 := Format(false, true, false)

  /** Every frame met is a command or a csum-offload frame, or is cut short, or is one last whole coalesced frame. */
  predicate SameCut(b: seq<u8>)
    decreases |b|
  {
    if |b| <= MAP_HDR || PktLen(b) == 0 then true
    else if CdBit(b) then
      var len := PktLen(b) + MAP_HDR;
      len > |b| || SameCut(b[len..])
    else if HdrType(b) == TYPE_CSUM_OFFLOAD then
      var len := PktLen(b) + MAP_HDR + CSUM_HDR;
      len > |b| || SameCut(b[len..])
    else if HdrType(b) == TYPE_COALESCING then
      |b| == PktLen(b) + MAP_HDR + COAL_HDR || |b| < PktLen(b) + MAP_HDR + CSUM_HDR
    else
      |b| < PktLen(b) + MAP_HDR
  }

  /** The two deaggregators agree on a QMAPv5 stream exactly when every frame is one both know how to measure. */
  lemma {:induction false} PagedEqualsLinear(b: seq<u8>)
    ensures PagedFrames(V5, b) == LinearFrames(V5, b) <==> SameCut(b)
    decreases |b|
  {
    CutBoth(b);
    hide PagedLen, LinearStep, PagedFrames, LinearFrames, PktLen, CdBit, HdrType;
    if PagedLen(V5, b).None? {
      NoFrame(V5, b);
    } else {
      FirstFrame(V5, b);
    }
    LinearFirst(V5, b);
    if PagedLen(V5, b).Some? && LinearStep(V5, b) == OneFrame(PagedLen(V5, b).value) {
      var len := PagedLen(V5, b).value;
      PagedEqualsLinear(b[len..]);
      SameTail(b[..len], PagedFrames(V5, b[len..]), LinearFrames(V5, b[len..]));
    } else if PagedLen(V5, b).Some? {
      var len := PagedLen(V5, b).value;
      assert PagedFrames(V5, b)[0] == b[..len];
      if len == |b| {
        assert b[len..] == [] && PagedFrames(V5, []) == [] by { NoFrame(V5, []); TooShort([]); }
        assert b[..len] == b;
      }
    }
  }

  lemma TooShort(b: seq<u8>)
    requires |b| < MAP_HDR
    ensures PagedLen(V5, b).None?
  {
  }

  lemma LinearFirst(fmt: Format, b: seq<u8>)
    ensures LinearFrames(fmt, b) ==
      match LinearStep(fmt, b)
      case Nothing => []
      case WholeBuffer => [b]
      case OneFrame(len) => [b[..len]] + LinearFrames(fmt, b[len..])
  {
  }

  /** How both cut the front of a QMAPv5 stream, and what that means for SameCut. */
  lemma {:induction false} CutBoth(b: seq<u8>)
    ensures var p, l := PagedLen(V5, b), LinearStep(V5, b);
      && (p.Some? && l == OneFrame(p.value) ==> (SameCut(b) <==> SameCut(b[p.value..])))
      && (p.None? && l.Nothing? ==> SameCut(b))
      && (p.None? && !l.Nothing? ==> !SameCut(b))
      && (p.Some? && l.Nothing? ==> !SameCut(b))
      && (p.Some? && l.WholeBuffer? ==> (SameCut(b) <==> p.value == |b|))
      && (p.Some? && l.OneFrame? && l.len != p.value ==> !SameCut(b))
  {
  }

  lemma {:induction false} SameTail(x: seq<u8>, a: seq<seq<u8>>, b: seq<seq<u8>>)
    ensures [x] + a == [x] + b <==> a == b
  {
    if [x] + a == [x] + b {
      assert a == ([x] + a)[1..] == ([x] + b)[1..] == b;
    }
  }

  /** A stream that ends behind the MAP header of a data frame announcing ten bytes. */
  lemma {:induction false} DanglingStream()
    ensures var b: seq<u8> := [0, 1, 0, 10];
      Dangling(V5, b) && PagedFrames(V5, b) == [] && Dangling(V5, PagedRest(V5, b))
  {
    var b: seq<u8> := [0, 1, 0, 10];
    assert PktLen(b) == 10;
  }

  /**
   * In a chain the next skb counts: a dangling header does not leak if the type byte can be read there, and two header
   * halves of two skbs do leak although neither dangles.
   */
  lemma {:induction false} ChainLeaks()
    ensures var c := Carrier([0, 1, 0, 10], 5, false);
      Dangling(V5, PagedRest(V5, c.stream)) && !c.Leaks(V5, Behind([Carrier([7], 1, false)]))
    ensures var c := Carrier([0, 1], 4, false);
      !Dangling(V5, PagedRest(V5, c.stream)) && c.Leaks(V5, Behind([Carrier([0, 10], 2, false)]))
  {
    DanglingStream();
    var b: seq<u8>, x: seq<u8>, y: seq<u8>, z: seq<u8> := [0, 1, 0, 10], [7], [0, 1], [0, 10];
    NoFrame(V5, b);
    NoFrame(V5, y);
    OneBehind(Carrier(x, 1, false));
    OneBehind(Carrier(z, 2, false));
    assert y + z == b && PktLen(b) == 10;
    assert |b + x| == 5;
  }

  lemma {:induction false} OneBehind(c: Carrier)
    requires |c.stream| <= c.len
    ensures Behind([c]) == c.stream
  {
    assert [c][1..] == [] && c.stream + [] == c.stream && c.stream[..|c.stream|] == c.stream;
  }

  /** A data frame with no known second header: five bytes to one deaggregator, nine to the other. */
  lemma {:induction false} CutsDiffer()
    ensures var b: seq<u8> := [0, 1, 0, 1, 0, 0, 0, 0, 0];
      !SameCut(b) && PagedFrames(V5, b) == [b[..5]] && LinearFrames(V5, b) == [b]
  {
    var b: seq<u8> := [0, 1, 0, 1, 0, 0, 0, 0, 0];
    assert PktLen(b) == 1 && HdrType(b) == 0;
    assert b[5..] == [0, 0, 0, 0] && PktLen(b[5..]) == 0 && PagedFrames(V5, b[5..]) == [];
    assert PagedLen(V5, b) == Some(5);
    assert LinearStep(V5, b) == OneFrame(9) && b[9..] == [] && b[..9] == b;
    assert LinearFrames(V5, []) == [];
  }
}
