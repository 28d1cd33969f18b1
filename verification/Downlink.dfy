/** What the modem sends, frame by frame and byte by byte, and what of it reaches the stack. */
module Downlink {
  import opened Bytes
  import opened Fragments
  import opened Descriptors
  import opened Frames
  import opened Coalesced
  import opened Segmentation
  import opened Deaggregation
  import opened Ingress
  import opened WireHeaders
  import opened BuiltHeaders
  import opened Bundles
  import opened BundleSplit

  /** The checksum trailer of the QMAPv4 formats. */
  datatype Trailer = Trailer(valid: bool, start: u16, length: u16, csum: u16) {
    function Wire(): (b: seq<u8>)
      ensures |b| == 8
    {
      [0, if valid then 1 else 0] + Short(start) + Short(length) + Short(csum)
    }
  }

  /** A MAP frame: a command, a packet with its checksum verdict, or a coalesced frame; `tail` is for QMAPv4 alone. */
  datatype Down =
    | Command(mux: u8, pad: nat, body: seq<u8>, tail: Trailer)
    | Packet(mux: u8, pad: nat, payload: seq<u8>, csumOk: bool, tail: Trailer)
    | Merged(c: Bundle)

  /** The formats with a second header. */
  predicate HasSecond(fmt: Format) { !fmt.cksumV4 && (fmt.cksumV5 || fmt.coalesce) }

  predicate DownOk(fmt: Format, d: Down) {
    match d
    case Command(_, pad, body, _) => pad < 64 && 1 <= |body| + pad <= 0xFFFF
    case Packet(_, pad, payload, _, _) => pad < 64 && 1 <= |payload| + pad <= 0xFFFF
    case Merged(c) => HasSecond(fmt) && c.Ok()
  }

  function Padded(n: nat): seq<u8> { seq(n, i => 0) }

  /** The wire form. */
  function DownWire(fmt: Format, d: Down): seq<u8>
    requires DownOk(fmt, d)
  {
    match d
    case Command(mux, pad, body, tail) =>
      [128 + pad, mux] + Short(|body| + pad) + body + Padded(pad) + TailWire(fmt, tail)
    case Packet(mux, pad, payload, csumOk, tail) =>
      [(if HasSecond(fmt) then 64 else 0) + pad, mux] + Short(|payload| + pad) + SecondWire(fmt, csumOk)
      + payload + Padded(pad) + TailWire(fmt, tail)
    case Merged(c) => c.Wire()
  }

  /** The csum-offload header: type 2, and the verdict in the highest bit behind. */
  function SecondWire(fmt: Format, csumOk: bool): seq<u8> {
    if HasSecond(fmt) then [4, if csumOk then 128 else 0, 0, 0] else []
  }

  function TailWire(fmt: Format, tail: Trailer): seq<u8> { if fmt.cksumV4 then tail.Wire() else [] }

  function Stream(fmt: Format, ds: seq<Down>): seq<seq<u8>>
    requires AllOk(fmt, ds)
  {
    seq(|ds|, k requires 0 <= k < |ds| => DownWire(fmt, ds[k]))
  }

  predicate AllOk(fmt: Format, ds: seq<Down>) { forall k :: 0 <= k < |ds| ==> DownOk(fmt, ds[k]) }

  // Cutting

  lemma {:induction false} MapFields(b: seq<u8>, flags: u8, mux: u8, len: u16, rest: seq<u8>)
    requires b == [flags, mux] + Short(len) + rest
    ensures |b| == 4 + |rest| && b[0] == flags && b[1] == mux && PktLen(b) == len && b[4..] == rest
  {
    var head := [flags, mux] + Short(len);
    assert b == head + rest;
    assert b[2] == head[2] == Short(len)[0] && b[3] == head[3] == Short(len)[1];
  }

  lemma Grouped(h: seq<u8>, a: seq<u8>, b: seq<u8>, c: seq<u8>, d: seq<u8>)
    ensures h + a + b + c + d == h + (a + (b + (c + d)))
    ensures h + a + b + d == h + (a + (b + d))
  {
  }

  lemma {:induction false} CommandFields(fmt: Format, d: Down, rest: seq<u8>)
    requires DownOk(fmt, d) && d.Command?
    ensures var w := DownWire(fmt, d);
      var b := w + rest;
      && |w| == 4 + |d.body| + d.pad + (if fmt.cksumV4 then 8 else 0)
      && b[0] == 128 + d.pad && b[1] == d.mux && PktLen(b) == |d.body| + d.pad
  {
    var head, tail := [128 + d.pad, d.mux] + Short(|d.body| + d.pad), TailWire(fmt, d.tail);
    assert DownWire(fmt, d) == head + d.body + Padded(d.pad) + tail;
    Grouped(head, d.body, Padded(d.pad), tail, rest);
    hide DownWire;
    MapFields(DownWire(fmt, d) + rest, 128 + d.pad, d.mux, |d.body| + d.pad, d.body + (Padded(d.pad) + (tail + rest)));
  }

  lemma {:induction false} PacketFields(fmt: Format, d: Down, rest: seq<u8>)
    requires DownOk(fmt, d) && d.Packet?
    ensures var w, second := DownWire(fmt, d), SecondWire(fmt, d.csumOk);
      var b := w + rest;
      && |w| == 4 + |second| + |d.payload| + d.pad + (if fmt.cksumV4 then 8 else 0)
      && b[0] == (if HasSecond(fmt) then 64 else 0) + d.pad && b[1] == d.mux && PktLen(b) == |d.payload| + d.pad
      && second <= b[4..] && d.payload <= b[4 + |second|..]
  {
    var flags, second := (if HasSecond(fmt) then 64 else 0) + d.pad, SecondWire(fmt, d.csumOk);
    var head, tail := [flags, d.mux] + Short(|d.payload| + d.pad), TailWire(fmt, d.tail);
    var w, end := DownWire(fmt, d), Padded(d.pad) + (tail + rest);
    assert w == head + second + d.payload + Padded(d.pad) + tail;
    hide DownWire, SecondWire, TailWire;
    Grouped(head + second, d.payload, Padded(d.pad), tail, rest);
    Seams(head, second, d.payload + end);
    MapFields(w + rest, flags, d.mux, |d.payload| + d.pad, second + (d.payload + end));
  }

  lemma Seams(a: seq<u8>, b: seq<u8>, c: seq<u8>)
    ensures (a + b) + c == a + (b + c)
    ensures (a + (b + c))[|a|..] == b + c && (a + (b + c))[|a| + |b|..] == c
  {
  }

  lemma {:induction false} MergedFields(c: Bundle, rest: seq<u8>)
    requires c.Ok()
    ensures var w := c.Wire();
      var b := w + rest;
      |w| == 32 + |c.Packet()| && b[0] == 64 && b[1] == c.mux && PktLen(b) == |c.Packet()| && b[4] == 2
  {
    hide Bundle.Wire, Bundle.CoalWire, Bundle.Packet, Bundle.Ok;
    MergedParts(c);
    var head, coal, packet := [64, c.mux] + Short(|c.Packet()|), c.CoalWire(), c.Packet();
    Grouped(head, coal, packet, [], rest);
    MapFields(c.Wire() + rest, 64, c.mux, |packet|, coal + (packet + rest));
    assert (c.Wire() + rest)[4] == (c.Wire() + rest)[4..][0];
  }

  lemma MergedParts(c: Bundle)
    requires c.Ok()
    ensures c.Wire() == [64, c.mux] + Short(|c.Packet()|) + c.CoalWire() + c.Packet() && c.CoalWire()[0] == 2
  {
  }

  /** The paged deaggregator measures every frame right, whatever follows. */
  lemma {:induction false} DownCut(fmt: Format, d: Down, rest: seq<u8>)
    requires DownOk(fmt, d)
    ensures var w := DownWire(fmt, d); PagedLen(fmt, w + rest) == Some(|w|)
  {
    var w := DownWire(fmt, d);
    match d {
      case Command(_, _, _, _) => CommandFields(fmt, d, rest);
      case Packet(_, _, _, _, _) =>
        PacketFields(fmt, d, rest);
        assert HasSecond(fmt) ==> (w + rest)[4] == SecondWire(fmt, d.csumOk)[0] == 4;
      case Merged(c) =>
        MergedFields(c, rest);
        PacketNonempty(c);
    }
    hide DownWire, Bundle.Packet, Bundle.Ok, Bundle.Wire;
  }

  lemma PacketNonempty(c: Bundle)
    requires c.Ok()
    ensures 1 <= |c.Packet()| <= 0xFFFF
  {
  }

  lemma {:induction false} StreamFirst(fmt: Format, ds: seq<Down>)
    requires AllOk(fmt, ds) && ds != []
    ensures AllOk(fmt, ds[1..]) && Stream(fmt, ds) == [DownWire(fmt, ds[0])] + Stream(fmt, ds[1..])
  {
    hide DownWire, DownOk;
    var rest := ds[1..];
    assert forall k :: 0 <= k < |rest| ==> rest[k] == ds[k + 1];
    assert Stream(fmt, ds) == [DownWire(fmt, ds[0])] + Stream(fmt, rest);
  }

  /** Any stream of frames, in any format, is cut back into the same frames with nothing left. */
  lemma {:induction false} StreamCut(fmt: Format, ds: seq<Down>)
    requires AllOk(fmt, ds)
    ensures PagedFrames(fmt, Join(Stream(fmt, ds))) == Stream(fmt, ds)
    ensures PagedRest(fmt, Join(Stream(fmt, ds))) == []
  {
    hide DownWire, PagedLen, Stream;
    if ds == [] {
      EmptyStream(fmt, ds);
    } else {
      StreamFirst(fmt, ds);
      var f, more := DownWire(fmt, ds[0]), Join(Stream(fmt, ds[1..]));
      JoinCons(f, Stream(fmt, ds[1..]));
      DownCut(fmt, ds[0], more);
      assert (f + more)[|f|..] == more && (f + more)[..|f|] == f;
      hide DownOk;
      StreamCut(fmt, ds[1..]);
    }
  }

  lemma EmptyStream(fmt: Format, ds: seq<Down>)
    requires ds == []
    ensures Stream(fmt, ds) == [] && Join([]) == [] && PagedFrames(fmt, []) == [] && PagedRest(fmt, []) == []
    ensures LinearFrames(fmt, []) == []
  {
  }

  /** The linear deaggregator knows how to measure the frame: nothing coalesced, and every second header announced. */
  predicate LinearKnows(fmt: Format, d: Down) { !d.Merged? && (HasSecond(fmt) ==> fmt.cksumV5) }

  lemma {:induction false} LinearCut(fmt: Format, d: Down, rest: seq<u8>)
    requires DownOk(fmt, d) && LinearKnows(fmt, d)
    ensures var w := DownWire(fmt, d); LinearStep(fmt, w + rest) == OneFrame(|w|)
  {
    var w := DownWire(fmt, d);
    if d.Command? {
      CommandFields(fmt, d, rest);
    } else {
      PacketFields(fmt, d, rest);
      assert HasSecond(fmt) ==> (w + rest)[4] == SecondWire(fmt, d.csumOk)[0] == 4;
    }
    hide DownWire;
  }

  lemma {:induction false} StreamCutLinear(fmt: Format, ds: seq<Down>)
    requires AllOk(fmt, ds) && forall k :: 0 <= k < |ds| ==> LinearKnows(fmt, ds[k])
    ensures LinearFrames(fmt, Join(Stream(fmt, ds))) == Stream(fmt, ds)
  {
    hide DownWire, LinearStep, Stream;
    if ds == [] {
      EmptyStream(fmt, ds);
    } else {
      StreamFirst(fmt, ds);
      var f, more := DownWire(fmt, ds[0]), Join(Stream(fmt, ds[1..]));
      JoinCons(f, Stream(fmt, ds[1..]));
      LinearCut(fmt, ds[0], more);
      assert (f + more)[|f|..] == more && (f + more)[..|f|] == f;
      hide DownOk;
      StreamCutLinear(fmt, ds[1..]);
    }
  }

  // Stripping

  /** What of a frame is for the stack: no command, nothing for an unknown endpoint, and no mere padding. */
  function Arrives(fmt: Format, endpoints: set<u8>, rxCsum: bool, d: Down): Content {
    match d
    case Command(_, _, _, _) => Dropped
    case Packet(mux, _, payload, csumOk, _) =>
      if mux < 255 && mux in endpoints && payload != [] then Data(mux, payload, HasSecond(fmt) && csumOk && rxCsum)
      else Dropped
    case Merged(c) => if c.mux < 255 && c.mux in endpoints then Coalesced(c.mux) else Dropped
  }

  /** Commands hold nothing for the stack; a packet comes out without headers, padding and trailer. */
  lemma {:induction false} StripDown(fmt: Format, endpoints: set<u8>, rxCsum: bool, d: Down)
    requires DownOk(fmt, d)
    ensures Strip(fmt, endpoints, rxCsum, DownWire(fmt, d)) == Arrives(fmt, endpoints, rxCsum, d)
    ensures d.Merged? ==> CheckedMask(DownWire(fmt, d)).Some?
  {
    match d {
      case Command(_, _, _, _) => StripCommand(fmt, endpoints, rxCsum, d);
      case Packet(_, _, _, _, _) =>
        var w := DownWire(fmt, d);
        PacketFields(fmt, d, []);
        assert w + [] == w;
        hide DownWire;
        StripPacket(fmt, endpoints, rxCsum, d, w);
      case Merged(c) => StripMerged(fmt, endpoints, rxCsum, c);
    }
  }

  lemma {:induction false} StripCommand(fmt: Format, endpoints: set<u8>, rxCsum: bool, d: Down)
    requires DownOk(fmt, d) && d.Command?
    ensures Strip(fmt, endpoints, rxCsum, DownWire(fmt, d)) == Dropped
  {
    CommandFields(fmt, d, []);
    assert DownWire(fmt, d) + [] == DownWire(fmt, d);
    hide DownWire, CheckedMask;
  }

  lemma {:induction false} StripMerged(fmt: Format, endpoints: set<u8>, rxCsum: bool, c: Bundle)
    requires c.Ok() && HasSecond(fmt)
    ensures Strip(fmt, endpoints, rxCsum, c.Wire()) == Arrives(fmt, endpoints, rxCsum, Merged(c))
    ensures CheckedMask(c.Wire()).Some?
  {
    MergedFields(c, []);
    BundleRead(c);
    hide Bundle.Packet, Bundle.Ok, Bundle.Wire, Bundle.CoalWire, CheckedMask, ParseHeaders, Strip, Arrives;
    assert c.Wire() + [] == c.Wire();
    StripMergedBytes(fmt, endpoints, rxCsum, c, c.Wire());
  }

  lemma StripMergedBytes(fmt: Format, endpoints: set<u8>, rxCsum: bool, c: Bundle, b: seq<u8>)
    requires HasSecond(fmt) && |b| >= 32 && b[0] == 64 && b[1] == c.mux && b[4] == 2 && CheckedMask(b).Some?
    ensures Strip(fmt, endpoints, rxCsum, b) == Arrives(fmt, endpoints, rxCsum, Merged(c))
  {
    hide CheckedMask;
  }

  lemma {:induction false} StripPacket(fmt: Format, endpoints: set<u8>, rxCsum: bool, d: Down, b: seq<u8>)
    requires DownOk(fmt, d) && d.Packet? && |b| >= 4 + |SecondWire(fmt, d.csumOk)| + |d.payload|
    requires b[0] == (if HasSecond(fmt) then 64 else 0) + d.pad && b[1] == d.mux && PktLen(b) == |d.payload| + d.pad
    requires SecondWire(fmt, d.csumOk) <= b[4..] && d.payload <= b[4 + |SecondWire(fmt, d.csumOk)|..]
    ensures Strip(fmt, endpoints, rxCsum, b) == Arrives(fmt, endpoints, rxCsum, d)
  {
    var second := SecondWire(fmt, d.csumOk);
    var skip, n := 4 + |second|, |d.payload|;
    FrontOf(b, skip, d.payload);
    assert DataLen(b) == n && PadLen(b) == d.pad && !CdBit(b) && NextHdrBit(b) == HasSecond(fmt);
    if HasSecond(fmt) {
      assert b[4] == second[0] == 4 && b[5] == second[1];
    }
    hide CheckedMask, DataLen, NextHdrBit, CdBit, PktLen;
  }

  lemma FrontOf(b: seq<u8>, skip: nat, p: seq<u8>)
    requires skip <= |b| && p <= b[skip..]
    ensures b[skip..skip + |p|] == p
  {
  }

  // The whole trip

  /** What the stack is given for one frame. */
  predicate Given(mem: Memory, fmt: Format, endpoints: set<u8>, feat: Features, d: Down, out: seq<Desc>)
    requires DownOk(fmt, d)
  {
    match Arrives(fmt, endpoints, feat.rxCsum, d)
    case Dropped => out == []
    case Data(mux, payload, csumValid) =>
      |out| == 1 && out[0].mux == mux && Flat(mem, out[0].frags) == payload && out[0].csumValid == csumValid
    case Coalesced(_) =>
      d.Merged? && BundleFrame(d.c).Ok() && Restores(d.c, BundleFrame(d.c), feat.gro, Segs(mem, out))
  }

  lemma {:induction false} DeliversGiven(mem: Memory, fmt: Format, endpoints: set<u8>, feat: Features, d: Down,
                                         out: seq<Desc>)
    requires DownOk(fmt, d)
    requires var b := DownWire(fmt, d); Delivers(mem, Strip(fmt, endpoints, feat.rxCsum, b), b, feat.gro, false, out)
    ensures Given(mem, fmt, endpoints, feat, d, out)
  {
    StripDown(fmt, endpoints, feat.rxCsum, d);
    hide Strip, Segmented, Restores, BundleFrame, Bundle.Ok, Bundle.Wire, Bundle.Packet, CheckedMask, Flat;
    if d.Merged? && Arrives(fmt, endpoints, feat.rxCsum, d).Coalesced? {
      SplitsBuilt(d.c, feat.gro, Segs(mem, out));
    }
  }

  /**
   * Whatever frames the modem sends, in whatever fragmentation they arrive: with nothing failed, every packet reaches
   * the stack as it was sent, coalesced ones as the packets they were built from, and the pool is as it was.
   */
  method DownlinkTrip(port: Port, skb: RxSkb, feat: Features, ghost ds: seq<Down>) returns (out: seq<seq<Desc>>)
    requires port.Valid() && LenOk(port.mem, skb) && AllOk(port.fmt, ds)
    requires Carried(port.mem, skb).stream == Join(Stream(port.fmt, ds))
    modifies port, skb.frags
    ensures port.Valid()
    ensures !port.failed ==>
      && port.live == old(port.live) && |out| == |ds|
      && forall k :: 0 <= k < |ds| ==> Given(port.mem, port.fmt, port.endpoints, feat, ds[k], out[k])
  {
    hide Port.Valid, DownWire, PagedFrames, PagedRest, Delivers, Rest, Flat, Carrier.Leaks, Strip, Given, DownOk, Join;
    StreamCut(port.fmt, ds);
    OneSkb(skb);
    ghost var c := Carried(port.mem, skb);
    assert Carriers(port.mem, [skb], 0) == [c] && Arrays([skb]) == {skb.frags};
    AloneLeaks(port.fmt, c);
    var groups;
    ghost var leaked;
    groups, leaked := FragIngress(port, [skb], feat);
    out := groups[0];
    assert [c][1..] == [] && Behind([]) == [];
    assert Handled(port.mem, port.fmt, port.endpoints, feat, port.failed, c, [], out, leaked[0]);
    if !port.failed {
      assert leaked == [None] && Leaks([None]) == {} by { NoLeak(); }
      forall k | 0 <= k < |ds|
        ensures Given(port.mem, port.fmt, port.endpoints, feat, ds[k], out[k])
      {
        assert Stream(port.fmt, ds)[k] == DownWire(port.fmt, ds[k]);
        DeliversGiven(port.mem, port.fmt, port.endpoints, feat, ds[k], out[k]);
      }
      assert port.live == old(port.live);
    }
  }

  lemma {:induction false} NoLeak()
    ensures Leaks([None]) == {}
  {
    var one: seq<Option<nat>> := [None];
    assert one[..0] == [];
  }
}
