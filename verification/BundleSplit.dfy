/** Splitting a coalesced frame gives back the packets it was built from. */
module BundleSplit {
  import opened Bytes
  import opened WireHeaders
  import opened Coalesced
  import opened Segmentation
  import opened BuiltHeaders
  import opened Bundles
  import opened Splitter
  import Frames

  // The coalescing header

  lemma {:induction false} NlosRead(nlos: seq<Nlo>, i: nat)
    requires i < |nlos|
    ensures var b := NlosBytes(nlos); Nlo(Be16(b, 4 * i), b[4 * i + 2], b[4 * i + 3]) == nlos[i]
  {
    var b, rest, first := NlosBytes(nlos), NlosBytes(nlos[1..]), NloBytes(nlos[0]);
    if i == 0 {
      assert b[0] == first[0] && b[1] == first[1] && b[2] == first[2] && b[3] == first[3];
    } else {
      NlosRead(nlos[1..], i - 1);
      assert b[4 * i] == rest[4 * (i - 1)] && b[4 * i + 1] == rest[4 * (i - 1) + 1];
      assert b[4 * i + 2] == rest[4 * (i - 1) + 2] && b[4 * i + 3] == rest[4 * (i - 1) + 3];
    }
  }

  /** Every field of the coalescing header is read as it was written. */
  lemma {:induction false} CoalHeaderRead(c: Bundle)
    requires c.Ok()
    ensures ParseCoalHdr(c.CoalWire()) == CoalHdr(|c.runs|, c.csumValid, c.close.Type(), c.close.Value(), c.NloList())
  {
    var n, t := |c.runs|, c.close.Type();
    var head := [2, 16 * n + (if c.csumValid then 128 else 0), t + 16 * c.close.Value(), 16 * c.channel];
    assert c.CoalWire() == head + NlosBytes(c.NloList());
    HeadBits(n, c.csumValid);
    hide Bundle.CoalWire, Bundle.NloList, NlosBytes;
    NlosParsed(head, c.NloList());
  }

  lemma HeadBits(n: nat, valid: bool)
    requires 1 <= n <= 6
    ensures var b := 16 * n + if valid then 128 else 0; b / 16 % 8 == n && (b >= 128 <==> valid)
  {
  }

  lemma {:induction false} NlosParsed(head: seq<u8>, nlos: seq<Nlo>)
    requires |head| == 4 && |nlos| == 6
    ensures ParseCoalHdr(head + NlosBytes(nlos))
         == CoalHdr(head[1] / 16 % 8, head[1] >= 128, head[2] % 16, head[2] / 16, nlos)
  {
    var w := NlosBytes(nlos);
    var b := head + w;
    hide NlosBytes;
    forall i | 0 <= i < 6
      ensures Nlo(Be16(b, 4 + 4 * i), b[6 + 4 * i], b[7 + 4 * i]) == nlos[i]
    {
      NlosRead(nlos, i);
      assert b[4 + 4 * i] == w[4 * i] && b[5 + 4 * i] == w[4 * i + 1];
      assert b[6 + 4 * i] == w[4 * i + 2] && b[7 + 4 * i] == w[4 * i + 3];
    }
    assert ParseCoalHdr(b).nlos == nlos;
  }

  lemma {:induction false} NumberAppend(a: seq<bool>, b: seq<bool>)
    ensures Number(a + b) == Number(a) + Pow2(|a|) * Number(b)
  {
    if a == [] {
      assert a + b == b;
    } else {
      assert (a + b)[1..] == a[1..] + b && (a + b)[0] == a[0];
      NumberAppend(a[1..], b);
      assert Pow2(|a|) == 2 * Pow2(|a| - 1);
      assert Number(a + b) == (if a[0] then 1 else 0) + 2 * Number((a + b)[1..]);
      assert Number(a) == (if a[0] then 1 else 0) + 2 * Number(a[1..]);
      Doubled(Pow2(|a| - 1), Number(b));
      hide Number, Pow2;
    }
  }

  lemma Doubled(p: nat, n: nat)
    ensures 2 * (p * n) == (2 * p) * n
  {
  }

  /** Error bytes of eight bits each make up the number of all bits. */
  lemma {:induction false} MaskIsNumber(bits: seq<bool>, nlos: seq<Nlo>)
    requires |bits| == 8 * |nlos|
    requires forall i :: 0 <= i < |nlos| ==> nlos[i].errBits == Number(bits[8 * i..8 * i + 8])
    ensures ErrMask(nlos) == Number(bits)
    decreases |nlos|
  {
    if nlos != [] {
      var low, high, rest := bits[..8], bits[8..], nlos[1..];
      assert bits[8 * 0..8 * 0 + 8] == low;
      forall i | 0 <= i < |rest|
        ensures rest[i].errBits == Number(high[8 * i..8 * i + 8])
      {
        assert rest[i] == nlos[i + 1];
        assert high[8 * i..8 * i + 8] == bits[8 * (i + 1)..8 * (i + 1) + 8];
      }
      MaskIsNumber(high, rest);
      assert bits == low + high;
      NumberAppend(low, high);
      assert Pow2(8) == 0x100 by { assert Pow2(4) == 16; }
    }
  }

  // Counts

  /** Packets in the first k runs. */
  lemma {:induction false} PiecesSplit(runs: seq<Run>, k: nat)
    requires k <= |runs|
    ensures Pieces(runs) == Pieces(runs[..k]) + Pieces(runs[k..])
    decreases |runs|
  {
    if k == 0 {
      assert runs[..0] == [] && runs[0..] == runs;
    } else {
      PiecesSplit(runs[1..], k - 1);
      assert runs[..k][1..] == runs[1..][..k - 1] && runs[1..][k - 1..] == runs[k..];
      assert runs[..k][0] == runs[0];
    }
  }

  lemma {:induction false} CountsBuilt(nlos: seq<Nlo>, runs: seq<Run>, k: nat)
    requires k <= |nlos| && |Pieces(runs)| <= 48
    requires forall i :: 0 <= i < |nlos| ==> nlos[i].count == if i < |runs| then |runs[i].pieces| else 0
    ensures PacketCount(nlos[..k]) == |Pieces(runs[..Min(k, |runs|)])| <= 48
    ensures CountsOk(nlos[..k])
  {
    PiecesSplit(runs, Min(k, |runs|));
    if k == 0 {
      assert runs[..0] == [];
    } else {
      CountsBuilt(nlos, runs, k - 1);
      assert nlos[..k][..k - 1] == nlos[..k - 1] && nlos[..k][k - 1] == nlos[k - 1];
      if k <= |runs| {
        PiecesSnoc(runs, k);
      }
      hide Pieces;
    }
  }

  lemma {:induction false} PiecesSnoc(runs: seq<Run>, k: nat)
    requires 1 <= k <= |runs|
    ensures Pieces(runs[..k]) == Pieces(runs[..k - 1]) + runs[k - 1].pieces
  {
    var front, last := runs[..k], [runs[k - 1]];
    PiecesSplit(front, k - 1);
    assert front[..k - 1] == runs[..k - 1] && front[k - 1..] == last;
    assert Pieces(last) == last[0].pieces + Pieces(last[1..]);
  }

  // The frame

  function BundleFrame(c: Bundle): Frame
    requires c.Ok()
  {
    ParsedFrame(c.mux, c.Packet(), HeadersOf(c))
  }

  function HeadersOf(c: Bundle): Headers
    requires c.Ok()
  {
    Headers(c.net.Version(), |c.net.Wire(c.tr.Proto())|, c.tr.Proto(), |c.tr.Wire()|, c.net.Bare())
  }

  /** The MAP frame of a bundle passes the checks, and its parts are read as they were written. */
  lemma {:induction false} BundleRead(c: Bundle)
    requires c.Ok()
    ensures var b := c.Wire();
      && |b| == FRONT + |c.Packet()| && b[Frames.MAP_HDR..FRONT] == c.CoalWire() && b[FRONT..] == c.Packet()
      && CheckedMask(b) == Some(Number(Marks(c.Pkts())))
      && ParseHeaders(c.Packet()) == Some(HeadersOf(c))
  {
    WireParts(c);
    MaskRead(c);
    PacketParts(c);
    hide Bundle.Wire, Bundle.CoalWire, Bundle.NloList, Bundle.Packet, ParseHeaders, Marks, Number, Joined, HeaderBytes;
    ParsesBuilt(c.net, c.tr, Joined(c.Pkts()));
    hide Bundle.Ok, HeadersOk, Unfragmented;
    CheckedMaskIs(c.Wire());
  }

  lemma {:induction false} WireParts(c: Bundle)
    requires c.Ok()
    ensures var b := c.Wire();
      |b| == FRONT + |c.Packet()| && b[Frames.MAP_HDR..FRONT] == c.CoalWire() && b[FRONT..] == c.Packet()
  {
    hide Bundle.CoalWire, Bundle.Packet;
    var head := [64, c.mux] + Short(|c.Packet()|);
    assert c.Wire() == head + c.CoalWire() + c.Packet();
  }

  lemma PacketParts(c: Bundle)
    requires c.Ok()
    ensures HeadersOk(c.net, c.tr) && Unfragmented(c.net) && |c.net.Wire(c.tr.Proto())| <= 0xFFFF
    ensures c.Packet() == HeaderBytes(c.net, c.tr) + Joined(c.Pkts())
  {
  }

  lemma {:induction false} MaskRead(c: Bundle)
    requires c.Ok()
    ensures var h := ParseCoalHdr(c.CoalWire());
      && 1 <= h.numNlos <= MAX_NLOS && CountsOk(h.nlos) && ErrMask(h.nlos) == Number(Marks(c.Pkts()))
  {
    CoalHeaderRead(c);
    CountsBuilt(c.NloList(), c.runs, 6);
    assert c.NloList()[..6] == c.NloList();
    MaskIsNumber(Marks(c.Pkts()), c.NloList());
  }

  lemma CheckedMaskIs(b: seq<u8>)
    requires |b| >= FRONT
    ensures var h := ParseCoalHdr(b[Frames.MAP_HDR..FRONT]);
      CheckedMask(b) == if 1 <= h.numNlos <= MAX_NLOS && CountsOk(h.nlos) then Some(ErrMask(h.nlos)) else None
  {
  }

  // Its packets

  lemma {:induction false} JoinedAppend(a: seq<Piece>, b: seq<Piece>)
    ensures Joined(a + b) == Joined(a) + Joined(b)
  {
    if a == [] {
      assert a + b == b;
    } else {
      assert (a + b)[1..] == a[1..] + b;
      JoinedAppend(a[1..], b);
    }
  }

  /** Piece t within the payload. */
  lemma {:induction false} JoinedAt(pieces: seq<Piece>, t: nat)
    requires t < |pieces|
    ensures var off, p := |Joined(pieces[..t])|, pieces[t].payload;
      && |Joined(pieces[..t + 1])| == off + |p| <= |Joined(pieces)|
      && Joined(pieces)[off..off + |p|] == p
  {
    var a, x, b := pieces[..t], [pieces[t]], pieces[t + 1..];
    assert pieces == a + x + b && pieces[..t + 1] == a + x;
    JoinedAppend(a + x, b);
    JoinedAppend(a, x);
    assert Joined(x) == pieces[t].payload + Joined(x[1..]);
  }

  lemma {:induction false} PieceAt(runs: seq<Run>, i: nat, j: nat)
    requires i < |runs| && j < |runs[i].pieces|
    ensures var t := |Pieces(runs[..i])| + j;
      t < |Pieces(runs)| && Pieces(runs)[t] == runs[i].pieces[j]
  {
    hide Pieces;
    PiecesSplit(runs, i);
    PiecesFront(runs[i..]);
    Within(Pieces(runs[..i]), runs[i].pieces, Pieces(runs[i..][1..]), j);
  }

  lemma PiecesFront(runs: seq<Run>)
    requires runs != []
    ensures Pieces(runs) == runs[0].pieces + Pieces(runs[1..])
  {
  }

  lemma Within(a: seq<Piece>, b: seq<Piece>, c: seq<Piece>, j: nat)
    requires j < |b|
    ensures |a| + j < |a + (b + c)| && (a + (b + c))[|a| + j] == b[j]
  {
  }

  /** Runs and number-length objects go together, and the frame's payload is theirs. */
  predicate Matches(f: Frame, nlos: seq<Nlo>, runs: seq<Run>)
    requires f.Ok()
  {
    && |nlos| == |runs| && |Pieces(runs)| <= 48 && f.Payload() == Joined(Pieces(runs))
    && forall i :: 0 <= i < |runs| ==>
         runs[i].Ok() && nlos[i].count == |runs[i].pieces| && SegSize(f, nlos[i]) == runs[i].size
  }

  /** Payload bytes in front of piece t. */
  function Ahead(pieces: seq<Piece>, t: nat): nat
    requires t <= |pieces|
  {
    |Joined(pieces[..t])|
  }

  function OriginalAt(f: Frame, pieces: seq<Piece>, k: nat): Coalesced.Packet
    requires f.Ok() && k < |pieces|
  {
    Coalesced.Packet(pieces[k].payload, SeqAt(f, Ahead(pieces, k)), !pieces[k].bad || f.ZeroCsum())
  }

  lemma {:induction false} OnePacket(f: Frame, pieces: seq<Piece>, t: nat, size: nat, mask: nat)
    requires f.Ok() && f.Payload() == Joined(pieces) && t < |pieces| <= 48 && |pieces[t].payload| == size
    requires mask == Number(Marks(pieces)[t..])
    ensures var off := Ahead(pieces, t);
      && PacketAt(f, off, size, mask % 2 == 1) == OriginalAt(f, pieces, t)
      && Ahead(pieces, t + 1) == off + size && mask / 2 == Number(Marks(pieces)[t + 1..])
  {
    JoinedAt(pieces, t);
    MaskNext(pieces, t, mask);
    hide Marks, Number, Joined, Frame.Payload, Frame.ZeroCsum, SeqAt;
  }

  /** Piece t of all is piece j of run i. */
  predicate Placed(runs: seq<Run>, i: nat, j: nat, t: nat) {
    && i <= |runs| && (if i < |runs| then j <= |runs[i].pieces| else j == 0)
    && t == |Pieces(runs[..i])| + j <= |Pieces(runs)|
  }

  lemma {:induction false} PlacedNext(runs: seq<Run>, i: nat, j: nat, t: nat)
    requires Placed(runs, i, j, t)
    ensures i == |runs| ==> t == |Pieces(runs)|
    ensures i < |runs| && j == |runs[i].pieces| ==> Placed(runs, i + 1, 0, t)
    ensures i < |runs| && j < |runs[i].pieces| ==>
      t < |Pieces(runs)| && Pieces(runs)[t] == runs[i].pieces[j] && Placed(runs, i, j + 1, t + 1)
  {
    if i == |runs| {
      assert runs[..i] == runs;
    } else if j == |runs[i].pieces| {
      NextRun(runs, i);
    } else {
      PieceAt(runs, i, j);
    }
  }

  /** Where the loop over packets stands: piece t is next, and the bits from there on make up the mask. */
  predicate Stands(f: Frame, nlos: seq<Nlo>, runs: seq<Run>, i: nat, j: nat, t: nat, mask: nat)
    requires f.Ok()
  {
    && Matches(f, nlos, runs) && Placed(runs, i, j, t)
    && t <= 48 && mask == Number(Marks(Pieces(runs))[t..])
  }

  lemma {:induction false} StandsNext(f: Frame, nlos: seq<Nlo>, runs: seq<Run>, i: nat, j: nat, t: nat, mask: nat)
    requires f.Ok() && Stands(f, nlos, runs, i, j, t, mask)
    ensures i <= |nlos| == |runs| && t <= |Pieces(runs)| <= 48 && (i < |nlos| ==> j <= nlos[i].count)
    ensures i == |nlos| ==> t == |Pieces(runs)|
    ensures i < |nlos| && j == nlos[i].count ==> Stands(f, nlos, runs, i + 1, 0, t, mask)
    ensures i < |nlos| && j < nlos[i].count ==>
      && Stands(f, nlos, runs, i, j + 1, t + 1, mask / 2) && Next(f, nlos[i], Pieces(runs), t, mask)
  {
    MatchesAt(f, nlos, runs, i, j);
    PlacedNext(runs, i, j, t);
    if i < |nlos| && j < nlos[i].count {
      MaskNext(Pieces(runs), t, mask);
    }
    hide Matches, Run.Ok, Pieces, Joined, Marks, Number, Frame.Payload, Frame.Ok, SegSize;
  }

  /** Piece t is the next of this number-length object. */
  predicate Next(f: Frame, nlo: Nlo, pieces: seq<Piece>, t: nat, mask: nat)
    requires f.Ok()
  {
    && f.Payload() == Joined(pieces) && t < |pieces| <= 48
    && mask == Number(Marks(pieces)[t..]) && |pieces[t].payload| == SegSize(f, nlo)
  }

  lemma {:induction false} PacketsAre(f: Frame, nlos: seq<Nlo>, runs: seq<Run>, i: nat, j: nat, t: nat, mask: nat)
    requires f.Ok() && Stands(f, nlos, runs, i, j, t, mask)
    requires i <= |nlos| && t <= |Pieces(runs)| && (i < |nlos| ==> j <= nlos[i].count)
    ensures OriginalsFrom(f, Pieces(runs), t, Packets(f, nlos, i, j, Ahead(Pieces(runs), t), mask))
    decreases |nlos| - i, if i < |nlos| then nlos[i].count - j else 0
  {
    var pieces := Pieces(runs);
    StandsNext(f, nlos, runs, i, j, t, mask);
    PacketsSkip(f, nlos, i, j, Ahead(pieces, t), mask);
    hide Stands, Next, Ahead, Pieces, PacketAt, OriginalAt, Packets, Frame.Ok, SegSize, OriginalsFrom;
    if i == |nlos| {
      NoneLeft(f, pieces);
    } else if j == nlos[i].count {
      StandsNext(f, nlos, runs, i + 1, 0, t, mask);
      PacketsAre(f, nlos, runs, i + 1, 0, t, mask);
    } else {
      StandsNext(f, nlos, runs, i, j + 1, t + 1, mask / 2);
      PacketsAre(f, nlos, runs, i, j + 1, t + 1, mask / 2);
      PacketsStep(f, nlos, pieces, i, j, t, mask);
    }
  }

  lemma {:induction false} MaskNext(pieces: seq<Piece>, t: nat, mask: nat)
    requires t < |pieces| <= 48 && mask == Number(Marks(pieces)[t..])
    ensures mask / 2 == Number(Marks(pieces)[t + 1..]) && (mask % 2 == 1 <==> pieces[t].bad)
  {
    var m := Marks(pieces)[t..];
    assert m[0] == pieces[t].bad && m[1..] == Marks(pieces)[t + 1..];
    hide Marks;
  }

  lemma {:induction false} PacketsStep(f: Frame, nlos: seq<Nlo>, pieces: seq<Piece>, i: nat, j: nat, t: nat, mask: nat)
    requires f.Ok() && i < |nlos| && j < nlos[i].count && t < |pieces| && Next(f, nlos[i], pieces, t, mask)
    requires OriginalsFrom(f, pieces, t + 1, Packets(f, nlos, i, j + 1, Ahead(pieces, t + 1), mask / 2))
    ensures OriginalsFrom(f, pieces, t, Packets(f, nlos, i, j, Ahead(pieces, t), mask))
  {
    PacketsUnfold(f, nlos, i, j, Ahead(pieces, t), mask);
    hide Ahead, Joined, Marks, Number, PacketAt, OriginalAt, Packets, Frame.Payload, Frame.Ok, SegSize, OriginalsFrom;
    OnePacket(f, pieces, t, SegSize(f, nlos[i]), mask);
    OneMore(f, pieces, t, Packets(f, nlos, i, j + 1, Ahead(pieces, t + 1), mask / 2));
  }

  lemma MatchesAt(f: Frame, nlos: seq<Nlo>, runs: seq<Run>, i: nat, j: nat)
    requires f.Ok() && Matches(f, nlos, runs) && i <= |runs|
    ensures |nlos| == |runs| && |Pieces(runs)| <= 48 && f.Payload() == Joined(Pieces(runs))
    ensures i < |runs| ==> nlos[i].count == |runs[i].pieces| && SegSize(f, nlos[i]) == runs[i].size
    ensures i < |runs| && j < |runs[i].pieces| ==> |runs[i].pieces[j].payload| == runs[i].size
  {
  }

  lemma {:induction false} NextRun(runs: seq<Run>, i: nat)
    requires i < |runs|
    ensures |Pieces(runs[..i + 1])| == |Pieces(runs[..i])| + |runs[i].pieces| <= |Pieces(runs)|
  {
    PiecesSnoc(runs, i + 1);
    PiecesSplit(runs, i + 1);
  }

  /** ps are the original packets from the t-th on. */
  predicate OriginalsFrom(f: Frame, pieces: seq<Piece>, t: nat, ps: seq<Coalesced.Packet>)
    requires f.Ok() && t <= |pieces|
  {
    |ps| == |pieces| - t && forall k :: 0 <= k < |ps| ==> ps[k] == OriginalAt(f, pieces, t + k)
  }

  lemma NoneLeft(f: Frame, pieces: seq<Piece>)
    requires f.Ok()
    ensures OriginalsFrom(f, pieces, |pieces|, [])
  {
  }

  lemma {:induction false} OneMore(f: Frame, pieces: seq<Piece>, t: nat, ps: seq<Coalesced.Packet>)
    requires f.Ok() && t < |pieces| && OriginalsFrom(f, pieces, t + 1, ps)
    ensures OriginalsFrom(f, pieces, t, [OriginalAt(f, pieces, t)] + ps)
  {
    var all := [OriginalAt(f, pieces, t)] + ps;
    hide OriginalAt, Frame.Ok;
    forall k | 0 <= k < |all|
      ensures all[k] == OriginalAt(f, pieces, t + k)
    {
      assert k > 0 ==> all[k] == ps[k - 1] && t + 1 + (k - 1) == t + k;
    }
  }

  lemma PacketsSkip(f: Frame, nlos: seq<Nlo>, i: nat, j: nat, off: nat, mask: nat)
    requires f.Ok() && i <= |nlos| && (i < |nlos| ==> j <= nlos[i].count)
    ensures i == |nlos| ==> Packets(f, nlos, i, j, off, mask) == []
    ensures i < |nlos| && j == nlos[i].count ==>
      Packets(f, nlos, i, j, off, mask) == Packets(f, nlos, i + 1, 0, off, mask)
  {
  }

  lemma PacketsUnfold(f: Frame, nlos: seq<Nlo>, i: nat, j: nat, off: nat, mask: nat)
    requires f.Ok() && i <= |nlos| && (i < |nlos| ==> j <= nlos[i].count)
    ensures Packets(f, nlos, i, j, off, mask) ==
      if i == |nlos| then []
      else if j == nlos[i].count then Packets(f, nlos, i + 1, 0, off, mask)
      else [PacketAt(f, off, SegSize(f, nlos[i]), mask % 2 == 1)]
           + Packets(f, nlos, i, j + 1, off + SegSize(f, nlos[i]), mask / 2)
  {
  }

  lemma {:induction false} JoinedRun(r: Run, n: nat)
    requires r.Ok() && n <= |r.pieces|
    ensures |Joined(r.pieces[n..])| == Times(r.size, |r.pieces| - n)
    decreases |r.pieces| - n
  {
    if n < |r.pieces| {
      JoinedRun(r, n + 1);
      assert r.pieces[n..][1..] == r.pieces[n + 1..];
    }
  }

  lemma {:induction false} RemainingIs(f: Frame, nlos: seq<Nlo>, runs: seq<Run>, i: nat)
    requires f.Ok() && Matches(f, nlos, runs) && i <= |runs|
    ensures Remaining(f, nlos, i, 0) == |Joined(Pieces(runs[i..]))|
    decreases |runs| - i
  {
    if i < |runs| {
      RemainingIs(f, nlos, runs, i + 1);
      JoinedRun(runs[i], 0);
      assert runs[i].pieces[0..] == runs[i].pieces && runs[i..][1..] == runs[i + 1..];
      JoinedAppend(runs[i].pieces, Pieces(runs[i + 1..]));
    }
  }

  /** What a frame must be to the splitter, told by the fields the bundle was written with. */
  predicate Reads(c: Bundle, f: Frame)
    requires c.Ok()
  {
    && f.Ok() && f.mux == c.mux && f.Header() == HeaderBytes(c.net, c.tr) && f.Payload() == Joined(c.Pkts())
    && f.Seq() == (if c.tr.Tcp? then c.tr.seqNo else 0) && f.transProto == c.tr.Proto()
    && f.FinOrPsh() == (c.tr.Tcp? && (c.tr.fin || c.tr.psh))
    && f.Id() == (if c.net.V4? then c.net.ip4.id else 0) && f.ipProto == c.net.Version()
    && f.ZeroCsum() == c.NoCsum()
  }

  /** The frame of a bundle, as it is parsed. */
  lemma {:induction false} FrameOfBundle(c: Bundle)
    requires c.Ok()
    ensures var f := BundleFrame(c); Reads(c, f) && Matches(f, c.NloList()[..|c.runs|], c.runs)
  {
    PacketParts(c);
    FrameFields(c.mux, c.net, c.tr, Joined(c.Pkts()));
    hide Frame.Seq, Frame.FinOrPsh, Frame.Id, Frame.ZeroCsum, Frame.Header, Frame.Payload, Frame.Ok;
    NlosMatch(c, BundleFrame(c));
    hide Bundle.NloList, HeaderBytes, Joined, Bundle.Packet;
  }

  lemma {:induction false} NlosMatch(c: Bundle, f: Frame)
    requires c.Ok() && f.HdrLen() == |HeaderBytes(c.net, c.tr)|
    ensures |Pieces(c.runs)| <= 48
    ensures forall i :: 0 <= i < |c.runs| ==>
      var n := c.NloList()[i];
      c.runs[i].Ok() && n.count == |c.runs[i].pieces| && SegSize(f, n) == c.runs[i].size
  {
    hide HeaderBytes, ErrByte;
  }

  /** The frame stands for exactly the packets it was built from. */
  lemma {:induction false} PacketsBuilt(c: Bundle)
    requires c.Ok()
    ensures var f, nlos := BundleFrame(c), c.NloList()[..|c.runs|];
      && f.Ok() && Covered(f, nlos)
      && Packets(f, nlos, 0, 0, 0, Number(Marks(c.Pkts()))) == c.Originals()
  {
    FrameOfBundle(c);
    var f, nlos := BundleFrame(c), c.NloList()[..|c.runs|];
    Empties();
    assert c.runs[..0] == [] && c.Pkts()[..0] == [] && c.runs[0..] == c.runs;
    assert Marks(c.Pkts())[0..] == Marks(c.Pkts());
    hide Frame.Seq, Frame.FinOrPsh, Frame.Id, Frame.ZeroCsum, Frame.Header, Frame.Payload, Frame.Ok, Bundle.NloList;
    hide Marks, Number, BundleFrame, HeaderBytes;
    RemainingIs(f, nlos, c.runs, 0);
    PacketsAre(f, nlos, c.runs, 0, 0, 0, Number(Marks(c.Pkts())));
    hide Matches, Packets, Remaining, OriginalsFrom, Joined;
    OriginalsAre(c, f, Packets(f, nlos, 0, 0, 0, Number(Marks(c.Pkts()))));
  }

  lemma Empties()
    ensures Pieces([]) == [] && Joined([]) == []
  {
  }

  lemma {:induction false} OriginalsAre(c: Bundle, f: Frame, ps: seq<Coalesced.Packet>)
    requires f.Ok() && f.Seq() == (if c.tr.Tcp? then c.tr.seqNo else 0) && f.transProto == c.tr.Proto()
    requires f.ZeroCsum() == c.NoCsum()
    requires OriginalsFrom(f, c.Pkts(), 0, ps)
    ensures ps == c.Originals()
  {
    hide Frame.Seq, Frame.ZeroCsum, Frame.Ok, Joined, Pieces;
    forall k | 0 <= k < |ps|
      ensures ps[k] == c.Originals()[k]
    {
    }
  }

  // The segments

  /** Each segment of a chain, at its place behind the ones before. */
  lemma {:induction false} ChainAt(f: Frame, ss: seq<Seg>, off: nat, k: nat)
    requires f.Ok() && Chain(f, ss, off) && k < |ss|
    ensures var s, from := ss[k], |Payloads(ss[..k])|;
      && |s.payload| == Times(s.size, s.segs) && from + |s.payload| <= |f.Payload()|
      && s.mux == f.mux && s.header == f.Header()
      && s.seqNo == (if f.transProto == PROTO_TCP then Some(SeqAt(f, from)) else None)
      && s.flagsCleared == (f.FinOrPsh() && from + |s.payload| < |f.Payload()|)
  {
    hide Frame.Seq, Frame.FinOrPsh, Frame.Header, SeqAt, Times;
    var n := |ss| - 1;
    var from := off - |ss[n].payload|;
    ChainPayloads(f, ss[..n], from);
    if k < n {
      ChainAt(f, ss[..n], from, k);
      assert ss[..n][..k] == ss[..k] && ss[..n][k] == ss[k];
    }
  }

  /** Single-packet segments expand one by one. */
  lemma {:induction false} ExpandSingles(f: Frame, ss: seq<Seg>)
    requires f.Ok() && forall k :: 0 <= k < |ss| ==> ss[k].segs == 1 && |ss[k].payload| == ss[k].size
    ensures |ExpandAll(f, ss)| == |ss|
    ensures forall k :: 0 <= k < |ss| ==> ExpandAll(f, ss)[k] == Lone(f, ss[k])
  {
    hide Frame.Seq, Frame.Ok;
    if ss != [] {
      var front, s := ss[..|ss| - 1], ss[|ss| - 1];
      assert forall k :: 0 <= k < |front| ==> front[k] == ss[k];
      ExpandSingles(f, front);
      var seqNo := if s.seqNo.Some? then s.seqNo.value else f.Seq();
      ExpandSingle(f, s.payload, seqNo, s.good);
      hide Cutup;
    }
  }

  function Lone(f: Frame, s: Seg): Coalesced.Packet
    requires f.Ok()
  {
    Coalesced.Packet(s.payload, if s.seqNo.Some? then s.seqNo.value else f.Seq(), s.good)
  }

  lemma {:induction false} ExpandSingle(f: Frame, p: seq<u8>, seqNo: u32, good: bool)
    ensures Cutup(f, p, |p|, 1, seqNo, good) == [Coalesced.Packet(p, seqNo, good)]
  {
    assert p[..|p|] == p;
    assert Cutup(f, p[|p|..], |p|, 0, SeqPlus(f, seqNo, |p|), good) == [];
  }

  /** The segments of per-packet mode: one per packet, each with the headers and metadata that are its own. */
  function Segments(c: Bundle): seq<Seg>
    requires c.Ok()
  {
    seq(|c.Pkts()|, k requires 0 <= k < |c.Pkts()| => SegmentOf(c, k))
  }

  /**
   * Segment k: the bundle's headers, payload k, the written sequence number plus the bytes before it, the written IPv4
   * id plus k, FIN and PSH taken away unless nothing follows, and the verdict on packet k.
   */
  function SegmentOf(c: Bundle, k: nat): Seg
    requires c.Ok() && k < |c.Pkts()|
  {
    var p := c.Pkts()[k];
    Seg(c.mux, HeaderBytes(c.net, c.tr), p.payload, |p.payload|, 1,
        if c.tr.Tcp? then Some((c.tr.seqNo + c.Before(k)) % 0x1_0000_0000) else None,
        if c.net.V4? then Some((c.net.ip4.id + k) % 0x1_0000) else None,
        c.tr.Tcp? && (c.tr.fin || c.tr.psh) && c.Before(k) + |p.payload| < |Joined(c.Pkts())|,
        !p.bad || c.NoCsum())
  }

  lemma {:induction false} BeforeIs(c: Bundle, ss: seq<Seg>, k: nat)
    requires k <= |ss| == |c.Pkts()| && forall i :: 0 <= i < |ss| ==> ss[i].payload == c.Pkts()[i].payload
    ensures |Payloads(ss[..k])| == c.Before(k)
  {
    if k == 0 {
      assert ss[..0] == [] && c.Pkts()[..0] == [];
    } else {
      BeforeIs(c, ss, k - 1);
      JoinedAt(c.Pkts(), k - 1);
      assert ss[..k][..k - 1] == ss[..k - 1] && ss[..k][k - 1] == ss[k - 1];
    }
  }

  lemma {:induction false} ExactSegments(c: Bundle, f: Frame, ss: seq<Seg>)
    requires c.Ok() && Reads(c, f) && Chain(f, ss, |Payloads(ss)|) && Ids(f, ss)
    requires ExpandAll(f, ss) == c.Originals()
    ensures ss == Segments(c)
  {
    SinglesFit(f, ss);
    SamePayloads(c, f, ss);
    hide Frame.Seq, Frame.FinOrPsh, Frame.Id, Frame.ZeroCsum, Frame.Header, Frame.Payload, Frame.Ok, SeqAt;
    hide HeaderBytes, Bundle.Ok, Joined, Pieces, ExpandAll, Bundle.Original, SegmentOf, Reads, Chain, Payloads, Ids;
    forall k | 0 <= k < |ss|
      ensures ss[k] == SegmentOf(c, k)
    {
      ExactAt(c, f, ss, k);
    }
    assert ss == Segments(c);
  }

  lemma {:induction false} ExactAt(c: Bundle, f: Frame, ss: seq<Seg>, k: nat)
    requires c.Ok() && Reads(c, f) && Chain(f, ss, |Payloads(ss)|) && Ids(f, ss) && k < |ss| == |c.Pkts()|
    requires forall i :: 0 <= i < |ss| ==> ss[i].payload == c.Pkts()[i].payload
    requires ss[k].segs == 1 && ss[k].size == |ss[k].payload| && ss[k].good == (!c.Pkts()[k].bad || c.NoCsum())
    ensures ss[k] == SegmentOf(c, k)
  {
    hide Frame.Seq, Frame.FinOrPsh, Frame.Id, Frame.ZeroCsum, Frame.Header, Frame.Payload, Frame.Ok, SeqAt, Ids;
    hide HeaderBytes, Bundle.Ok, Joined, Pieces, SegmentOf, Reads, Chain, Payloads;
    ReadsOk(c, f);
    IdAt(f, ss, k);
    ChainAt(f, ss, |Payloads(ss)|, k);
    BeforeIs(c, ss, k);
    OneSegment(c, f, ss[k], k);
  }

  lemma IdAt(f: Frame, ss: seq<Seg>, k: nat)
    requires f.Ok() && Ids(f, ss) && k < |ss|
    ensures ss[k].id == if f.ipProto == 4 then Some((f.Id() + k % 0x100) % 0x1_0000) else None
  {
  }

  lemma ReadsOk(c: Bundle, f: Frame)
    requires c.Ok() && Reads(c, f)
    ensures f.Ok()
  {
  }

  lemma {:induction false} SinglesFit(f: Frame, ss: seq<Seg>)
    requires f.Ok() && Chain(f, ss, |Payloads(ss)|) && Ids(f, ss)
    ensures forall k :: 0 <= k < |ss| ==> ss[k].segs == 1 && |ss[k].payload| == ss[k].size
  {
    hide Frame.Seq, Frame.FinOrPsh, Frame.Id, Frame.Header, Frame.Payload, Frame.Ok, SeqAt, Chain, Payloads;
    forall k | 0 <= k < |ss|
      ensures ss[k].segs == 1 && |ss[k].payload| == ss[k].size
    {
      ChainAt(f, ss, |Payloads(ss)|, k);
      assert Times(ss[k].size, 1) == Times(ss[k].size, 0) + ss[k].size;
    }
  }

  lemma {:induction false} SamePayloads(c: Bundle, f: Frame, ss: seq<Seg>)
    requires f.Ok() && ExpandAll(f, ss) == c.Originals()
    requires forall k :: 0 <= k < |ss| ==> ss[k].segs == 1 && |ss[k].payload| == ss[k].size
    ensures |ss| == |c.Pkts()|
    ensures forall k :: 0 <= k < |ss| ==>
      ss[k].payload == c.Pkts()[k].payload && ss[k].good == (!c.Pkts()[k].bad || c.NoCsum())
  {
    hide Frame.Seq, Frame.Ok, ExpandAll, Pieces, Joined;
    ExpandSingles(f, ss);
    forall k | 0 <= k < |ss|
      ensures ss[k].payload == c.Pkts()[k].payload && ss[k].good == (!c.Pkts()[k].bad || c.NoCsum())
    {
      assert c.Originals()[k] == c.Original(k);
    }
  }

  lemma OneSegment(c: Bundle, f: Frame, s: Seg, k: nat)
    requires c.Ok() && Reads(c, f) && k < |c.Pkts()|
    requires s.segs == 1 && s.size == |s.payload| && s.payload == c.Pkts()[k].payload
    requires s.mux == f.mux && s.header == f.Header() && s.good == (!c.Pkts()[k].bad || c.NoCsum())
    requires s.seqNo == if f.transProto == PROTO_TCP then Some(SeqAt(f, c.Before(k))) else None
    requires s.flagsCleared == (f.FinOrPsh() && c.Before(k) + |s.payload| < |f.Payload()|)
    requires s.id == if f.ipProto == 4 then Some((f.Id() + k % 0x100) % 0x1_0000) else None
    ensures s == SegmentOf(c, k)
  {
    hide Frame.Seq, Frame.FinOrPsh, Frame.Id, Frame.ZeroCsum, Frame.Header, Frame.Payload, Frame.Ok;
    hide HeaderBytes, Bundle.Ok, Joined, Pieces;
    FewPackets(c);
    assert (f.Id() + k % 0x100) % 0x1_0000 == (f.Id() + k) % 0x1_0000;
  }

  lemma FewPackets(c: Bundle)
    requires c.Ok()
    ensures |c.Pkts()| <= 48
  {
  }

  // The three ways

  lemma {:induction false} ClearBits(bits: seq<bool>, n: nat)
    requires n <= |bits|
    ensures LowBitsClear(Number(bits), n) <==> forall k :: 0 <= k < n ==> !bits[k]
    decreases n
  {
    if n != 0 {
      ClearBits(bits[1..], n - 1);
      LowBit(bits);
      assert LowBitsClear(Number(bits), n) <==> !bits[0] && LowBitsClear(Number(bits[1..]), n - 1);
      hide Number, LowBitsClear;
      if LowBitsClear(Number(bits), n) {
        forall k | 0 <= k < n
          ensures !bits[k]
        {
          assert k > 0 ==> bits[k] == bits[1..][k - 1];
        }
      }
      if forall k :: 0 <= k < n ==> !bits[k] {
        assert forall k :: 0 <= k < n - 1 ==> bits[1..][k] == bits[k + 1];
      }
    }
  }

  lemma LowBit(bits: seq<bool>)
    requires bits != []
    ensures (Number(bits) % 2 == 1 <==> bits[0]) && Number(bits) / 2 == Number(bits[1..])
  {
  }

  /** A lone packet whose hardware verdict is not trusted. */
  predicate Distrust(c: Bundle) { |c.runs| == 1 && |c.runs[0].pieces| == 1 && c.close.Unreliable() && !c.NoCsum() }

  /** One run of packets that the hardware vouches for, on a device with GRO and with bare headers. */
  predicate Fast(c: Bundle, gro: bool) { gro && c.net.Bare() && |c.runs| == 1 && c.csumValid }

  predicate AllGood(c: Bundle) { c.NoCsum() || forall k :: 0 <= k < |c.Pkts()| ==> !c.Pkts()[k].bad }

  /**
   * What is left of a coalesced frame f after splitting: its packets as they were before coalescing, in per-packet mode
   * exactly a segment each. Fast-forward looks at no verdict and is right if and only if all are good; a lone
   * distrusted packet is there whole, with whatever verdict.
   */
  predicate Restores(c: Bundle, f: Frame, gro: bool, ss: seq<Seg>)
    requires c.Ok() && f.Ok()
  {
    if Distrust(c) then
      && |ss| == 1 && ss[0].mux == c.mux
      && ss[0].header == HeaderBytes(c.net, c.tr) && ss[0].payload == Joined(c.Pkts())
      && |c.Pkts()| == 1 && ExpandAll(f, ss) == [c.Original(0).(good := ss[0].good)]
    else if Fast(c, gro) then
      && |ss| == 1 && ss[0].mux == c.mux
      && ss[0].header == HeaderBytes(c.net, c.tr) && ss[0].payload == Joined(c.Pkts())
      && (ExpandAll(f, ss) == c.Originals() <==> AllGood(c))
    else
      && ExpandAll(f, ss) == c.Originals() && Heads(c, ss)
      && (!(gro && c.net.Bare()) ==> ss == Segments(c))
  }

  /**
   * Splitting a coalesced frame, with nothing failed, gives back the packets it was built from: their payloads, their
   * sequence numbers counted from the written one, their verdicts, in per-packet mode with consecutive IPv4 ids, and
   * FIN and PSH only where nothing follows.
   */
  lemma {:induction false} SplitsBuilt(c: Bundle, gro: bool, ss: seq<Seg>)
    requires c.Ok() && CheckedMask(c.Wire()).Some? && Segmented(c.mux, c.Wire(), gro, false, ss)
    ensures BundleFrame(c).Ok() && Restores(c, BundleFrame(c), gro, ss)
  {
    BundleRead(c);
    PacketsBuilt(c);
    FrameOfBundle(c);
    CoalHeaderRead(c);
    SegmentedIs(c, gro, ss);
    DescribedIs(c, BundleFrame(c), ParseCoalHdr(c.CoalWire()), gro, ss);
    hide Bundle.Ok, Restores, BundleFrame;
  }

  lemma {:induction false} SegmentedIs(c: Bundle, gro: bool, ss: seq<Seg>)
    requires c.Ok() && CheckedMask(c.Wire()).Some? && Segmented(c.mux, c.Wire(), gro, false, ss)
    ensures var f, hdr := BundleFrame(c), ParseCoalHdr(c.CoalWire());
      f.Ok() && hdr.numNlos <= |hdr.nlos|
      && Describes(f, hdr, Number(Marks(c.Pkts())), gro && c.net.Bare(), false, ss)
  {
    BundleRead(c);
    FrameOfBundle(c);
    CoalHeaderRead(c);
    hide Bundle.Wire, Bundle.CoalWire, Bundle.NloList, Bundle.Packet, CheckedMask, ParseHeaders, Matches, Bundle.Ok;
    hide HeaderBytes, Marks, Number, Describes, Frame.Ok, HeadersOk, Frame.HdrLen;
  }

  lemma {:induction false} DescribedIs(c: Bundle, f: Frame, hdr: CoalHdr, gro: bool, ss: seq<Seg>)
    requires c.Ok() && Reads(c, f)
    requires hdr == CoalHdr(|c.runs|, c.csumValid, c.close.Type(), c.close.Value(), c.NloList())
    requires var nlos := c.NloList()[..|c.runs|];
      Covered(f, nlos) && Packets(f, nlos, 0, 0, 0, Number(Marks(c.Pkts()))) == c.Originals()
    requires Describes(f, hdr, Number(Marks(c.Pkts())), gro && c.net.Bare(), false, ss)
    ensures Restores(c, f, gro, ss)
  {
    TrustIs(c, f, hdr, gro);
    hide Frame.Seq, Frame.FinOrPsh, Frame.Id, Frame.ZeroCsum, Frame.Header, Frame.Payload, Frame.Ok, Matches;
    hide HeaderBytes, Joined, Pieces, Packets, Covered, Chain, Marks, Number, ExpandAll, Bundle.Ok, Bundle.NloList;
    hide Distrust, Fast, Distrusted, FastForward, LowBitsClear, AllGood, Segments, Bundle.Original, Heads;
    if Distrust(c) {
      LoneOriginal(c, f, ss[0].good);
    } else if Fast(c, gro) {
      FastClear(c, f);
    } else {
      HeadsAre(c, f, ss);
      if !(gro && c.net.Bare()) {
        ExactSegments(c, f, ss);
      }
    }
  }

  /** Every segment has the bundle's headers, FIN and PSH only if no payload follows. */
  predicate Heads(c: Bundle, ss: seq<Seg>)
    requires c.Ok()
  {
    forall k :: 0 <= k < |ss| ==>
      && ss[k].mux == c.mux && ss[k].header == HeaderBytes(c.net, c.tr)
      && ss[k].flagsCleared ==
           (c.tr.Tcp? && (c.tr.fin || c.tr.psh) && |Payloads(ss[..k])| + |ss[k].payload| < |Joined(c.Pkts())|)
  }

  lemma {:induction false} HeadsAre(c: Bundle, f: Frame, ss: seq<Seg>)
    requires c.Ok() && Reads(c, f) && Chain(f, ss, |Payloads(ss)|)
    ensures Heads(c, ss)
  {
    hide Frame.Seq, Frame.FinOrPsh, Frame.Id, Frame.ZeroCsum, Frame.Header, Frame.Payload, Frame.Ok, SeqAt;
    assert HeadersOk(c.net, c.tr);
    hide HeaderBytes, Joined, Pieces, Bundle.Ok, Payloads, Chain;
    forall k | 0 <= k < |ss|
      ensures ss[k].mux == c.mux && ss[k].header == HeaderBytes(c.net, c.tr)
      ensures ss[k].flagsCleared ==
           (c.tr.Tcp? && (c.tr.fin || c.tr.psh) && |Payloads(ss[..k])| + |ss[k].payload| < |Joined(c.Pkts())|)
    {
      ChainAt(f, ss, |Payloads(ss)|, k);
    }
  }

  /** The driver's conditions are the bundle's. */
  lemma {:induction false} TrustIs(c: Bundle, f: Frame, hdr: CoalHdr, gro: bool)
    requires c.Ok() && Reads(c, f)
    requires hdr == CoalHdr(|c.runs|, c.csumValid, c.close.Type(), c.close.Value(), c.NloList())
    ensures hdr.nlos[0].count == |c.runs[0].pieces|
    ensures Distrusted(f, hdr) <==> Distrust(c)
    ensures FastForward(hdr, gro && c.net.Bare()) <==> Fast(c, gro)
    ensures Distrust(c) || Fast(c, gro) ==> |c.runs| == 1
  {
    hide HeaderBytes, Joined, Pieces, Frame.Seq, Frame.FinOrPsh, Frame.Id, Frame.ZeroCsum, Frame.Header, Frame.Payload;
    hide Frame.Ok, ErrByte;
  }

  lemma {:induction false} OneRun(c: Bundle)
    requires |c.runs| == 1
    ensures c.Pkts() == c.runs[0].pieces
  {
    PiecesFront(c.runs);
    assert c.runs[1..] == [] && Pieces([]) == [];
  }

  lemma {:induction false} LoneOriginal(c: Bundle, f: Frame, good: bool)
    requires c.Ok() && Reads(c, f) && Distrust(c)
    ensures |c.Pkts()| == 1 && Coalesced.Packet(f.Payload(), f.Seq(), good) == c.Original(0).(good := good)
  {
    OneRun(c);
    JoinedOne(c.Pkts());
    hide HeaderBytes, Pieces, Bundle.Ok, Frame.Seq, Frame.Payload, Frame.Ok, Frame.Header, Frame.Id, Frame.FinOrPsh;
    hide Joined, Frame.ZeroCsum;
  }

  lemma {:induction false} JoinedOne(ps: seq<Piece>)
    requires |ps| == 1
    ensures Joined(ps) == ps[0].payload && Joined(ps[..0]) == []
  {
    assert ps[..0] == [] && ps[1..] == [];
    assert Joined(ps) == ps[0].payload + Joined(ps[1..]);
  }

  lemma {:induction false} FastClear(c: Bundle, f: Frame)
    requires c.Ok() && Reads(c, f) && |c.runs| == 1
    ensures f.ZeroCsum() || LowBitsClear(Number(Marks(c.Pkts())), |c.runs[0].pieces|) <==> AllGood(c)
  {
    OneRun(c);
    FewPackets(c);
    hide HeaderBytes, Pieces, Bundle.Ok, Frame.Seq, Frame.Payload, Frame.Ok, Frame.Header, Frame.Id, Frame.FinOrPsh;
    ClearBits(Marks(c.Pkts()), |c.Pkts()|);
    hide Number, LowBitsClear, Frame.ZeroCsum;
    assert forall k :: 0 <= k < |c.Pkts()| ==> Marks(c.Pkts())[k] == c.Pkts()[k].bad;
  }
}
