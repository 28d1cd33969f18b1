/** The paged and the linear deaggregator, each proved against the flat frame functions. */
module Deaggregation {
  import opened Bytes
  import opened AddressLists
  import opened Fragments
  import opened Descriptors
  import opened Frames

  /** Bytes of an skb still to be read from fragment i on. */
  function Rest(mem: Memory, frags: array<Frag>, i: nat): seq<u8>
    requires i <= frags.Length
    reads frags
  {
    Flat(mem, frags[i..])
  }

  ghost predicate Exhausted(frags: array<Frag>, i: nat)
    requires i <= frags.Length
    reads frags
  {
    forall k :: 0 <= k < i ==> frags[k].size == 0
  }

  /** An skb without linear head: its fragments and its skb->len, which stays when fragments shrink. */
  datatype RxSkb = RxSkb(frags: array<Frag>, len: nat)

  /** The skb as it arrives. */
  function Carried(mem: Memory, skb: RxSkb): Carrier
    reads skb.frags
  {
    var n := skb.frags.Length;
    Carrier(Rest(mem, skb.frags, 0), skb.len, n > 0 && skb.frags[n - 1].size == 0)
  }

  /**
   * skb_copy_bits: reads across fragments, used-up ones included, and goes on into the bytes behind on the frag_list,
   * as far as skb->len allows.
   */
  function SkbCopyBits(mem: Memory, skb: RxSkb, behind: seq<u8>, off: nat, len: nat): Option<seq<u8>>
    reads skb.frags
  {
    var b := Flat(mem, skb.frags[..]) + behind;
    if off + len <= skb.len && off + len <= |b| then Some(b[off..off + len]) else None
  }

  /** From index i on the fragments are as they came, but that fragment i may have shrunk, not to nothing. */
  ghost predicate Tracks(orig: seq<Frag>, frags: array<Frag>, i: nat)
    reads frags
  {
    && |orig| == frags.Length && i <= frags.Length
    && (forall k :: i < k < frags.Length ==> frags[k] == orig[k])
    && (i < frags.Length ==> (frags[i].size == 0 <==> orig[i].size == 0))
    && (i == frags.Length > 0 ==> orig[i - 1].size > 0)
  }

  /** A fragment is left exactly if bytes are, or the last fragment came empty. */
  lemma {:induction false} LeftIs(mem: Memory, orig: seq<Frag>, frags: array<Frag>, i: nat)
    requires Tracks(orig, frags, i)
    ensures i < frags.Length <==> Rest(mem, frags, i) != [] || (|orig| > 0 && orig[|orig| - 1].size == 0)
  {
    if i == frags.Length {
      assert frags[i..] == [];
    } else if Rest(mem, frags, i) == [] {
      var n := frags.Length - 1;
      FlatSplit(mem, frags[i..]);
      assert frags[i..][n - i] == frags[n];
    }
  }

  lemma {:induction false} EmptyPrefix(mem: Memory, fs: seq<Frag>, i: nat)
    requires i <= |fs| && forall k :: 0 <= k < i ==> fs[k].size == 0
    ensures Flat(mem, fs) == Flat(mem, fs[i..])
  {
    if i != 0 {
      var rest := fs[1..];
      forall k | 0 <= k < i - 1
        ensures rest[k].size == 0
      {
        assert rest[k] == fs[k + 1];
      }
      EmptyPrefix(mem, rest, i - 1);
      assert rest[i - 1..] == fs[i..];
      assert FragBytes(mem, fs[0]) == [];
      hide FragBytes;
    }
  }

  /** Consuming n bytes of the first fragment moves exactly those bytes. */
  lemma {:induction false} Consume(mem: Memory, fs: seq<Frag>, n: nat)
    requires fs != [] && n <= fs[0].size
    ensures Flat(mem, fs)
         == FragBytes(mem, Frag(fs[0].page, fs[0].off, n))
          + Flat(mem, [Frag(fs[0].page, fs[0].off + n, fs[0].size - n)] + fs[1..])
  {
    var f := fs[0];
    var g := Frag(f.page, f.off + n, f.size - n);
    FragSlice(mem, f, 0, n);
    FragSlice(mem, f, n, f.size - n);
    assert ([g] + fs[1..])[1..] == fs[1..];
    assert FragBytes(mem, f) == FragBytes(mem, f)[..n] + FragBytes(mem, f)[n..];
  }

  /** One round of the fragment loop: n bytes of fragment i move to the descriptor. */
  method Move(port: Port, frags: array<Frag>, i: nat, h: nat, n: nat) returns (ok: bool)
    requires port.Valid() && h in port.live && port.live[h].len + n < MAX_LEN
    requires i < frags.Length && n <= frags[i].size
    modifies port`descs, port`pageRefs, port`failed, port`live, frags
    ensures port.Valid() && h in port.live
    ensures ok ==>
      && port.failed == old(port.failed)
      && port.live == old(port.live)[h := old(port.live[h]).(frags := port.live[h].frags,
                                                              len := old(port.live[h]).len + n)]
      && Flat(port.mem, port.live[h].frags) + Rest(port.mem, frags, i) ==
           Flat(port.mem, old(port.live[h]).frags) + old(Rest(port.mem, frags, i))
      && frags[i].size == old(frags[i].size) - n
      && (forall k :: 0 <= k < frags.Length && k != i ==> frags[k] == old(frags[k]))
    ensures !ok ==> port.failed && port.live == old(port.live)
  {
    hide Port.Valid, Flat;
    var f := frags[i];
    ghost var fs, done := frags[i..], Flat(port.mem, port.live[h].frags);
    ghost var moved := FragBytes(port.mem, Frag(f.page, f.off, n));
    Consume(port.mem, fs, n);
    FlatSnoc(port.mem, port.live[h].frags, Frag(f.page, f.off, n));
    ok := port.AddFrag(h, f.page, f.off, n);
    assert h in port.live;
    if ok {
      frags[i] := Frag(f.page, f.off + n, f.size - n);
      assert frags[i..] == [frags[i]] + fs[1..];
      assert (done + moved) + Rest(port.mem, frags, i) == done + (moved + Rest(port.mem, frags, i));
    }
  }

  /** Descriptor d holds exactly the bytes b and no metadata yet. */
  predicate Holds(mem: Memory, d: Desc, b: seq<u8>) {
    Flat(mem, d.frags) == b && d == BLANK.(frags := d.frags, len := |b|)
  }

  /** The fragment loop of rmnet_frag_deaggregate_one; the skb fragments shrink as they are consumed. */
  method Fill(port: Port, frags: array<Frag>, start: nat, h: nat, len: nat, ghost orig: seq<Frag>)
    returns (i: nat, left: nat, ok: bool)
    requires port.Valid() && h in port.live && port.live[h] == BLANK && len < MAX_LEN
    requires start <= frags.Length && Exhausted(frags, start) && Tracks(orig, frags, start)
    modifies port`descs, port`pageRefs, port`failed, port`live, frags
    ensures port.Valid() && h in port.live
    ensures port.live == old(port.live)[h := port.live[h]]
    ensures start <= i <= frags.Length
    ensures ok ==>
      && Exhausted(frags, i)
      && port.failed == old(port.failed)
      && left <= len
      && (left == 0 || i == frags.Length)
      && (left == 0 ==> Tracks(orig, frags, i))
      && Flat(port.mem, port.live[h].frags) + Rest(port.mem, frags, i) == old(Rest(port.mem, frags, start))
      && port.live[h] == BLANK.(frags := port.live[h].frags, len := len - left)
    ensures !ok ==> port.failed
  {
    hide Port.Valid, Flat;
    assert Flat(port.mem, []) == [] by { EmptyFlat(port.mem); }
    i, left, ok := start, len, true;
    while left > 0 && i < frags.Length
      invariant port.Valid() && h in port.live && port.failed == old(port.failed)
      invariant port.live == old(port.live)[h := port.live[h]]
      invariant start <= i <= frags.Length && Exhausted(frags, i) && left <= len
      invariant port.live[h] == BLANK.(frags := port.live[h].frags, len := len - left)
      invariant Flat(port.mem, port.live[h].frags) + Rest(port.mem, frags, i) == old(Rest(port.mem, frags, start))
      invariant Tracks(orig, frags, i) || (left > 0 && i == frags.Length)
      decreases left, frags.Length - i
    {
      var n := Min(frags[i].size, left);
      ok := Move(port, frags, i, h, n);
      if !ok {
        return;
      }
      left := left - n;
      if frags[i].size == 0 {
        EmptyPrefix(port.mem, frags[i..], 1);
        assert frags[i..][1..] == frags[i + 1..];
        i := i + 1;
      }
    }
  }

  /** Bytes that can be read from fragment i on, the frag_list included. */
  ghost function Readable(mem: Memory, skb: RxSkb, behind: seq<u8>, i: nat): seq<u8>
    requires i <= skb.frags.Length
    reads skb.frags
  {
    Rest(mem, skb.frags, i) + behind
  }

  /** Length of what follows the MAP header and is not counted by pkt_len; None when its type byte is missing. */
  method MeasureExtra(port: Port, skb: RxSkb, behind: seq<u8>, start: nat, maph: seq<u8>, ghost all: seq<u8>)
    returns (extra: Option<nat>)
    requires start < skb.frags.Length && Exhausted(skb.frags, start) && |Rest(port.mem, skb.frags, start)| <= skb.len
    requires all == Readable(port.mem, skb, behind, start) && |all| >= MAP_HDR && maph == all[..MAP_HDR]
    ensures extra == if port.fmt.cksumV4 then Some(CSUM_TRAILER)
                     else if !IsV5Data(port.fmt, all) then Some(0)
                     else if |all| == MAP_HDR || skb.len < MAP_HDR + 1 then None
                     else Some(ExtraLen(HdrType(all)))
  {
    if port.fmt.cksumV4 {
      return Some(CSUM_TRAILER);
    }
    if !((port.fmt.cksumV5 || port.fmt.coalesce) && !CdBit(maph)) {
      return Some(0);
    }
    var ty: u8;
    ReadableFront(port.mem, skb, behind, start);
    if skb.frags[start].size >= MAP_HDR + 1 {
      ty := FragBytes(port.mem, skb.frags[start])[MAP_HDR];
    } else {
      var copy := SkbCopyBits(port.mem, skb, behind, MAP_HDR, 1);
      if copy.None? {
        return None;
      }
      ty := copy.value[0];
    }
    assert ty == all[4];
    if ty / 2 == TYPE_COALESCING {
      return Some(COAL_HDR);
    } else if ty / 2 == TYPE_CSUM_OFFLOAD {
      return Some(CSUM_HDR);
    }
    return Some(0);
  }

  /** The readable bytes begin with the fragment at hand, and are what skb_copy_bits sees from offset 0. */
  lemma {:induction false} ReadableFront(mem: Memory, skb: RxSkb, behind: seq<u8>, start: nat)
    requires start < skb.frags.Length && Exhausted(skb.frags, start)
    ensures var first, all := FragBytes(mem, skb.frags[start]), Readable(mem, skb, behind, start);
      && first <= all && first <= Rest(mem, skb.frags, start)
      && all == Flat(mem, skb.frags[..]) + behind
  {
    EmptyPrefix(mem, skb.frags[..], start);
    assert skb.frags[..][start..] == skb.frags[start..];
    assert Rest(mem, skb.frags, start) == FragBytes(mem, skb.frags[start]) + Flat(mem, skb.frags[start..][1..]);
  }

  /** The MAP header: linear in one fragment, or rebuilt from several and from the next skb. */
  method ReadHeader(port: Port, skb: RxSkb, behind: seq<u8>, start: nat) returns (maph: Option<seq<u8>>)
    requires start < skb.frags.Length && Exhausted(skb.frags, start) && |Rest(port.mem, skb.frags, start)| <= skb.len
    ensures maph == var all := Readable(port.mem, skb, behind, start);
                    if |all| < MAP_HDR || skb.len < MAP_HDR then None else Some(all[..MAP_HDR])
  {
    ReadableFront(port.mem, skb, behind, start);
    if skb.frags[start].size >= MAP_HDR {
      var first := FragBytes(port.mem, skb.frags[start]);
      assert Readable(port.mem, skb, behind, start)[..MAP_HDR] == first[..MAP_HDR];
      return Some(first[..MAP_HDR]);
    }
    maph := SkbCopyBits(port.mem, skb, behind, 0, MAP_HDR);
  }

  /** Fill h with the next `total` bytes, or give it back. */
  method BuildFrame(port: Port, frags: array<Frag>, start: nat, h: nat, total: nat, ghost orig: seq<Frag>)
    returns (ok: bool, i: nat)
    requires port.Valid() && h in port.live && port.live[h] == BLANK && total < MAX_LEN
    requires start <= frags.Length && Exhausted(frags, start) && Tracks(orig, frags, start)
    modifies port`descs, port`pageRefs, port`failed, port`freeList, port`live, frags
    ensures port.Valid() && (old(port.failed) ==> port.failed)
    ensures ok ==>
      && h in port.live && port.failed == old(port.failed)
      && port.live == old(port.live)[h := port.live[h]]
      && start <= i <= frags.Length && Exhausted(frags, i) && Tracks(orig, frags, i)
      && var b := old(Rest(port.mem, frags, start));
         && total <= |b|
         && Holds(port.mem, port.live[h], b[..total])
         && Rest(port.mem, frags, i) == b[total..]
    ensures !ok ==>
      && (port.failed || total > |old(Rest(port.mem, frags, start))|)
      && port.live == old(port.live) - {h}
  {
    EmptyFlat(port.mem);
    hide Port.Valid, Flat;
    var left;
    ghost var b := Rest(port.mem, frags, start);
    i, left, ok := Fill(port, frags, start, h, total, orig);
    FlatLength(port.mem, port.live[h].frags);
    port.RangeExact(h, 0, 0);
    if !ok || left != 0 {
      if ok {
        assert frags[i..] == [];
      }
      port.Recycle(h);
      ok := false;
    }
  }

  function WithLeak(live: map<nat, Desc>, leaked: Option<nat>): map<nat, Desc> {
    if leaked.Some? then live[leaked.value := BLANK] else live
  }

  function LeakSet(leaked: Option<nat>): set<nat> {
    if leaked.Some? then {leaked.value} else {}
  }

  /**
   * rmnet_frag_deaggregate_one. A returned 0 means the next frame starts in the same fragment.
   * `leaked` is the descriptor taken from the pool and dropped without being recycled, if any.
   */
  method DeaggregateOne(port: Port, skb: RxSkb, behind: seq<u8>, start: nat, list: seq<nat>, ghost orig: seq<Frag>)
    returns (rc: int, out: seq<nat>, ghost h: nat, ghost leaked: Option<nat>)
    requires port.Valid() && start < skb.frags.Length && Exhausted(skb.frags, start)
    requires Tracks(orig, skb.frags, start) && |Rest(port.mem, skb.frags, start)| <= skb.len
    modifies port, skb.frags
    ensures port.Valid() && (old(port.failed) ==> port.failed)
    ensures rc >= 0 ==>
      && port.failed == old(port.failed)
      && start + rc <= skb.frags.Length && Exhausted(skb.frags, start + rc) && Tracks(orig, skb.frags, start + rc)
      && leaked == None
      && var b := old(Rest(port.mem, skb.frags, start));
         var len := PagedLen(port.fmt, b);
         && len.Some?
         && Rest(port.mem, skb.frags, start + rc) == b[len.value..]
         && out == list + [h] && h !in old(port.live) && h in port.live
         && port.live == old(port.live)[h := port.live[h]]
         && Holds(port.mem, port.live[h], b[..len.value])
    ensures rc < 0 ==>
      && out == list
      && var b := old(Rest(port.mem, skb.frags, start));
         && (port.failed || PagedLen(port.fmt, b).None?)
         && (TypeMissing(port.fmt, b + behind, skb.len) && !port.failed ==> leaked.Some?)
         && (!TypeMissing(port.fmt, b + behind, skb.len) ==> leaked.None?)
         && (leaked.Some? ==> leaked.value !in old(port.live))
         && port.live == WithLeak(old(port.live), leaked)
  {
    hide Port.Valid, Flat, Rest, Holds, Exhausted, Tracks, PagedLen, TypeMissing;
    out, h, leaked := list, 0, None;
    ghost var b := Rest(port.mem, skb.frags, start);
    ghost var all := b + behind;
    var hdr := ReadHeader(port, skb, behind, start);
    if hdr.None? {
      NoHeader(port.fmt, b, behind, skb.len);
      return -1, list, 0, None;
    }
    var pktLen: nat := Be16(hdr.value, 2);
    assert pktLen == PktLen(all);
    if pktLen == 0 {
      NoHeader(port.fmt, b, behind, skb.len);
      return -1, list, 0, None;
    }
    var got := port.Get();
    if got.None? {
      return -1, list, 0, None;
    }
    var d := got.value;
    var extra := MeasureExtra(port, skb, behind, start, hdr.value, all);
    Measured(port.fmt, b, behind, skb.len, extra);
    if extra.None? {
      // The source returns here without recycling the descriptor.
      return -1, list, d, Some(d);
    }
    var total := pktLen + MAP_HDR + extra.value;
    assert d in port.live;
    var ok, i := BuildFrame(port, skb.frags, start, d, total, orig);
    if !ok {
      return -1, list, 0, None;
    }
    rc, out, h := i - start, list + [d], d;
  }

  /** Where no header can be read, or it announces nothing, there is no frame and no leak. */
  lemma {:induction false} NoHeader(fmt: Format, b: seq<u8>, behind: seq<u8>, len: nat)
    requires |b| <= len
    requires |b + behind| < MAP_HDR || len < MAP_HDR || PktLen(b + behind) == 0
    ensures PagedLen(fmt, b).None? && !TypeMissing(fmt, b + behind, len)
  {
    if |b| >= MAP_HDR {
      assert (b + behind)[2] == b[2] && (b + behind)[3] == b[3];
    }
  }

  /** What the header measures: nothing where the type byte is missing, else the frame, if all of it is unread. */
  lemma {:induction false} Measured(fmt: Format, b: seq<u8>, behind: seq<u8>, len: nat, extra: Option<nat>)
    requires |b| <= len && |b + behind| >= MAP_HDR && len >= MAP_HDR && PktLen(b + behind) != 0
    requires var all := b + behind;
      extra == if fmt.cksumV4 then Some(CSUM_TRAILER)
               else if !IsV5Data(fmt, all) then Some(0)
               else if |all| == MAP_HDR || len < MAP_HDR + 1 then None
               else Some(ExtraLen(HdrType(all)))
    ensures TypeMissing(fmt, b + behind, len) <==> extra.None?
    ensures extra.None? ==> PagedLen(fmt, b).None?
    ensures extra.Some? ==>
      var total := PktLen(b + behind) + MAP_HDR + extra.value;
      total < MAX_LEN && PagedLen(fmt, b) == if total <= |b| then Some(total) else None
  {
    var all := b + behind;
    if |b| >= MAP_HDR {
      assert all[0] == b[0] && all[2] == b[2] && all[3] == b[3];
    }
    if |b| > MAP_HDR {
      assert all[4] == b[4];
    }
  }

  /** The descriptors named by `list` are distinct and hold these frames, in order. */
  predicate HoldsAll(mem: Memory, ds: map<nat, Desc>, list: seq<nat>, frames: seq<seq<u8>>) {
    && |list| == |frames|
    && Distinct(list)
    && (forall k :: 0 <= k < |list| ==> list[k] in ds && Holds(mem, ds[list[k]], frames[k]))
  }

  /** After k frames of the stream b, `rest` is unread. */
  predicate Ahead(fmt: Format, b: seq<u8>, k: nat, rest: seq<u8>) {
    && k <= |PagedFrames(fmt, b)|
    && PagedFrames(fmt, b)[k..] == PagedFrames(fmt, rest)
    && PagedRest(fmt, b) == PagedRest(fmt, rest)
  }

  lemma {:induction false} AheadStep(fmt: Format, b: seq<u8>, k: nat, rest: seq<u8>)
    requires Ahead(fmt, b, k, rest)
    ensures PagedLen(fmt, rest).None? ==> k == |PagedFrames(fmt, b)| && PagedRest(fmt, b) == rest
    ensures PagedLen(fmt, rest).Some? ==>
      var len := PagedLen(fmt, rest).value;
      && Ahead(fmt, b, k + 1, rest[len..])
      && PagedFrames(fmt, b)[..k + 1] == PagedFrames(fmt, b)[..k] + [rest[..len]]
  {
    var all := PagedFrames(fmt, b);
    if PagedLen(fmt, rest).Some? {
      var len := PagedLen(fmt, rest).value;
      assert all[k] == all[k..][0] == rest[..len];
      assert all[k + 1..] == all[k..][1..] == PagedFrames(fmt, rest[len..]);
    }
  }

  /** `now` is `before` plus the descriptors in `list`, in which the first |list| frames of the stream b are held. */
  predicate Progress(mem: Memory, fmt: Format, b: seq<u8>,
                     before: map<nat, Desc>, now: map<nat, Desc>, list: seq<nat>, rest: seq<u8>)
  {
    && Ahead(fmt, b, |list|, rest)
    && Extends(before, now, Elements(list))
    && HoldsAll(mem, now, list, PagedFrames(fmt, b)[..|list|])
  }

  lemma {:induction false} ProgressStart(mem: Memory, fmt: Format, b: seq<u8>, before: map<nat, Desc>)
    ensures Progress(mem, fmt, b, before, before, [], b)
  {
    assert PagedFrames(fmt, b)[0..] == PagedFrames(fmt, b);
    assert PagedFrames(fmt, b)[..0] == [];
  }

  lemma NothingLeft(mem: Memory, fmt: Format)
    ensures Flat(mem, []) == [] && PagedLen(fmt, []).None?
  {
  }

  lemma {:induction false} ProgressStep(mem: Memory, fmt: Format, b: seq<u8>,
                     before: map<nat, Desc>, now: map<nat, Desc>, list: seq<nat>, rest: seq<u8>, h: nat, d: Desc)
    requires Progress(mem, fmt, b, before, now, list, rest)
    requires h !in now && PagedLen(fmt, rest).Some? && Holds(mem, d, rest[..PagedLen(fmt, rest).value])
    ensures Progress(mem, fmt, b, before, now[h := d], list + [h], rest[PagedLen(fmt, rest).value..])
  {
    AheadStep(fmt, b, |list|, rest);
    assert Elements(list + [h]) == Elements(list) + {h};
  }

  /**
   * What deaggregating the stream b has done to the pool: the listed descriptors hold a prefix of its frames,
   * all of them unless an allocation failed, and nothing else was added but at most one leaked descriptor,
   * which exists exactly when the type byte of the frame behind the last is missing.
   */
  predicate Deaggregated(mem: Memory, fmt: Format, failed: bool, c: Carrier, behind: seq<u8>,
                         before: map<nat, Desc>, now: map<nat, Desc>, list: seq<nat>, leaked: Option<nat>)
  {
    && |list| <= |PagedFrames(fmt, c.stream)|
    && HoldsAll(mem, now, list, PagedFrames(fmt, c.stream)[..|list|])
    && (leaked.Some? ==> leaked.value !in list && leaked.value in now && now[leaked.value] == BLANK)
    && Extends(before, now, Elements(list) + LeakSet(leaked))
    && (!failed ==> |list| == |PagedFrames(fmt, c.stream)| && (leaked.Some? <==> c.Leaks(fmt, behind)))
  }

  lemma {:induction false} ProgressStop(mem: Memory, fmt: Format, failed: bool, c: Carrier, behind: seq<u8>,
                                        before: map<nat, Desc>, now: map<nat, Desc>, list: seq<nat>, rest: seq<u8>,
                                        leaked: Option<nat>)
    requires Progress(mem, fmt, c.stream, before, now, list, rest)
    requires leaked.Some? ==> leaked.value !in now
    requires !failed ==> PagedLen(fmt, rest).None?
    requires !failed ==> (leaked.Some? <==> (rest != [] || c.lastEmpty) && TypeMissing(fmt, rest + behind, c.len))
    ensures Deaggregated(mem, fmt, failed, c, behind, before, WithLeak(now, leaked), list, leaked)
  {
    AheadStep(fmt, c.stream, |list|, rest);
    hide TypeMissing;
    if leaked.Some? {
      assert forall k :: 0 <= k < |list| ==> list[k] != leaked.value;
    }
  }

  /**
   * rmnet_frag_deaggregate on one skb with the bytes `behind` on its frag_list: for any fragmentation the frames are
   * those of the flat stream of this skb. The loop ends because every accepted frame shortens the unread rest, even
   * when a round returns 0.
   */
  method Deaggregate(port: Port, skb: RxSkb, behind: seq<u8>) returns (list: seq<nat>, ghost leaked: Option<nat>)
    requires port.Valid() && |Rest(port.mem, skb.frags, 0)| <= skb.len
    modifies port, skb.frags
    ensures port.Valid() && (old(port.failed) ==> port.failed)
    ensures Deaggregated(port.mem, port.fmt, port.failed, old(Carried(port.mem, skb)), behind,
                         old(port.live), port.live, list, leaked)
  {
    hide Port.Valid, Progress, Deaggregated, Holds, PagedLen, TypeMissing, PagedFrames, PagedRest, Flat, Tracks;
    var i := 0;
    list, leaked := [], None;
    ghost var c, orig, rest := Carried(port.mem, skb), skb.frags[..], Rest(port.mem, skb.frags, 0);
    StartTracks(skb.frags);
    ProgressStart(port.mem, port.fmt, rest, port.live);
    while i < skb.frags.Length
      invariant port.Valid() && (old(port.failed) ==> port.failed)
      invariant i <= skb.frags.Length && Exhausted(skb.frags, i) && Tracks(orig, skb.frags, i)
      invariant rest == Rest(port.mem, skb.frags, i) && |rest| <= skb.len
      invariant Progress(port.mem, port.fmt, c.stream, old(port.live), port.live, list, rest)
      decreases |rest|
    {
      ghost var now := port.live;
      LeftIs(port.mem, orig, skb.frags, i);
      var rc, out;
      ghost var h;
      rc, out, h, leaked := DeaggregateOne(port, skb, behind, i, list, orig);
      if rc < 0 {
        ProgressStop(port.mem, port.fmt, port.failed, c, behind, old(port.live), now, list, rest, leaked);
        return;
      }
      ProgressStep(port.mem, port.fmt, c.stream, old(port.live), now, list, rest, h, port.live[h]);
      i, list := i + rc, out;
      rest := rest[PagedLen(port.fmt, rest).value..];
    }
    LeftIs(port.mem, orig, skb.frags, i);
    NothingLeft(port.mem, port.fmt);
    leaked := None;
    ProgressStop(port.mem, port.fmt, port.failed, c, behind, old(port.live), port.live, list, rest, None);
  }

  lemma StartTracks(frags: array<Frag>)
    ensures Tracks(frags[..], frags, 0)
  {
  }
}
