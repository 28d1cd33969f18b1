/** The descriptor pool of a port and the operations on fragment descriptors. */
module Descriptors {
  import opened Bytes
  import opened AddressLists
  import opened Fragments

  /** Ingress data format flags of the port that matter to framing. */
  datatype Format = Format(cksumV4: bool, cksumV5: bool, coalesce: bool)

  datatype Desc = Desc(
    frags: seq<Frag>,
    len: nat,
    mux: u8,
    dataOffset: u16,
    gsoSize: u16,
    gsoSegs: u16,
    ipLen: u16,
    transLen: u16,
    ipProto: u8,
    transProto: u8,
    pktId: u8,
    tcpSeq: Option<u32>,
    tcpFlagsCleared: bool,
    ipId: Option<u16>,
    csumValid: bool,
    hdrsValid: bool)

  /** A descriptor as kzalloc or the memset in recycle leaves it. */
  const BLANK := Desc([], 0, 0, 0, 0, 0, 0, 0, 0, 0, 0, None, false, None, false, false)

  /** No descriptor is longer than this, so 32-bit offset sums cannot wrap. */
  const MAX_LEN := 0x8000_0000

  predicate DescOk(d: Desc) {
    d.len == TotalSize(d.frags) && d.len < MAX_LEN
  }

  /** References to page p held by the live fragments of all descriptors. */
  function Held(ds: seq<Desc>, p: Page): nat {
    if ds == [] then 0 else Held(ds[..|ds| - 1], p) + PageUse(ds[|ds| - 1].frags, p)
  }

  lemma {:induction false} HeldUpdate(ds: seq<Desc>, h: nat, d: Desc, p: Page)
    requires h < |ds|
    ensures Held(ds[h := d], p) == Held(ds, p) - PageUse(ds[h].frags, p) + PageUse(d.frags, p)
  {
    var n := |ds| - 1;
    if h == n {
      assert ds[h := d][..n] == ds[..n];
    } else {
      assert ds[h := d][..n] == ds[..n][h := d];
      HeldUpdate(ds[..n], h, d, p);
    }
  }

  lemma {:induction false} HeldAtLeast(ds: seq<Desc>, h: nat, p: Page)
    requires h < |ds|
    ensures Held(ds, p) >= PageUse(ds[h].frags, p)
  {
    if h < |ds| - 1 {
      HeldAtLeast(ds[..|ds| - 1], h, p);
    }
  }

  lemma {:induction false} HeldWithout(ds: seq<Desc>, h: nat, p: Page)
    requires h < |ds|
    ensures Held(ds[h := BLANK], p) == Held(ds, p) - PageUse(ds[h].frags, p)
  {
    HeldUpdate(ds, h, BLANK, p);
  }

  /** References to page p held by those of the first n descriptors that are live. */
  function LiveUse(live: map<nat, Desc>, n: nat, p: Page): nat {
    if n == 0 then 0
    else LiveUse(live, n - 1, p) + if n - 1 in live then PageUse(live[n - 1].frags, p) else 0
  }

  /** Descriptors that are not live hold nothing. */
  lemma {:induction false} HeldIsLiveUse(ds: seq<Desc>, live: map<nat, Desc>, p: Page)
    requires forall h :: 0 <= h < |ds| ==> if h in live then live[h] == ds[h] else ds[h] == BLANK
    ensures Held(ds, p) == LiveUse(live, |ds|, p)
  {
    if ds != [] {
      var front := ds[..|ds| - 1];
      assert forall h :: 0 <= h < |front| ==> front[h] == ds[h];
      HeldIsLiveUse(front, live, p);
    }
  }

  /** Live descriptors that hold no fragment, and addresses that are not live, do not count. */
  lemma {:induction false} LiveUseSame(a: map<nat, Desc>, n: nat, b: map<nat, Desc>, k: nat, p: Page)
    requires forall h :: h in a ==> h < n && h in b && b[h] == a[h]
    requires forall h :: h in b ==> h < k && (h in a || b[h] == BLANK)
    ensures LiveUse(a, n, p) == LiveUse(b, k, p)
    decreases n + k
  {
    if k < n {
      LiveUseSame(a, n - 1, b, k, p);
    } else if n < k {
      LiveUseSame(a, n, b - {k - 1}, k - 1, p);
      LiveUseBelow(b, k - 1, p);
    } else if k > 0 {
      LiveUseSame(a - {k - 1}, k - 1, b - {k - 1}, k - 1, p);
      LiveUseBelow(a, k - 1, p);
      LiveUseBelow(b, k - 1, p);
    }
  }

  lemma {:induction false} LiveUseBelow(a: map<nat, Desc>, n: nat, p: Page)
    ensures LiveUse(a - {n}, n, p) == LiveUse(a, n, p)
    decreases n
  {
    LiveUseIgnores(a, n, n, p);
  }

  lemma {:induction false} LiveUseIgnores(a: map<nat, Desc>, h: nat, n: nat, p: Page)
    requires n <= h
    ensures LiveUse(a - {h}, n, p) == LiveUse(a, n, p)
    decreases n
  {
    if n != 0 {
      LiveUseIgnores(a, h, n - 1, p);
    }
  }

  /** The free list names blank descriptors, each once. */
  predicate FreeOk(ds: seq<Desc>, free: seq<nat>) {
    Distinct(free) && forall h :: h in free ==> h < |ds| && ds[h] == BLANK
  }

  /** Recycling keeps the free list sound even when h was on it already. */
  lemma {:induction false} RecycleFree(ds: seq<Desc>, free: seq<nat>, h: nat)
    requires FreeOk(ds, free) && h < |ds|
    ensures FreeOk(ds[h := BLANK], Unlink(free, h) + [h])
    ensures |Unlink(free, h) + [h]| == if h in free then |free| else |free| + 1
  {
    UnlinkDistinct(free, h);
  }

  /** Every descriptor counts its bytes and is either free or live, as it stands. */
  ghost predicate ListsOk(ds: seq<Desc>, free: seq<nat>, live: map<nat, Desc>) {
    && FreeOk(ds, free)
    && (forall h {:trigger DescOk(ds[h])} :: 0 <= h < |ds| ==> DescOk(ds[h]))
    && (forall h: nat :: h in live <==> h < |ds| && h !in free)
    && (forall h {:trigger live[h]} :: h in live ==> live[h] == ds[h])
  }

  lemma {:induction false} RecycleLists(ds: seq<Desc>, free: seq<nat>, live: map<nat, Desc>, h: nat)
    requires ListsOk(ds, free, live) && (h in live || h in free)
    ensures var now := Unlink(free, h) + [h];
      && h < |ds| && ListsOk(ds[h := BLANK], now, live - {h})
      && h in now && |now| == if h in free then |free| else |free| + 1
  {
    RecycleFree(ds, free, h);
    hide FreeOk, Unlink;
  }

  /** Taking the first free descriptor. */
  lemma {:induction false} TakeLists(ds: seq<Desc>, free: seq<nat>, live: map<nat, Desc>)
    requires ListsOk(ds, free, live) && free != []
    ensures free[0] !in live && ListsOk(ds, free[1..], live[free[0] := BLANK])
  {
    var rest := free[1..];
    forall i | 0 <= i < |rest|
      ensures rest[i] == free[i + 1] && rest[i] != free[0]
    {
      assert free[0] != free[i + 1];
    }
    assert free[0] in free;
    assert forall h :: h in free <==> h == free[0] || h in rest;
  }

  /** Allocating one more. */
  lemma MoreLists(ds: seq<Desc>, free: seq<nat>, live: map<nat, Desc>)
    requires ListsOk(ds, free, live)
    ensures |ds| !in live && ListsOk(ds + [BLANK], free, live[|ds| := BLANK])
  {
  }

  /** Changing a live one. */
  lemma StoreLists(ds: seq<Desc>, free: seq<nat>, live: map<nat, Desc>, h: nat, d: Desc)
    requires ListsOk(ds, free, live) && h in live && DescOk(d)
    ensures h < |ds| && ListsOk(ds[h := d], free, live[h := d])
  {
  }

  lemma LiveDesc(ds: seq<Desc>, free: seq<nat>, live: map<nat, Desc>, h: nat)
    requires ListsOk(ds, free, live) && h in live
    ensures h < |ds| && live[h] == ds[h] && DescOk(ds[h])
  {
  }

  lemma OneMore(ds: seq<Desc>, p: Page)
    ensures Held(ds + [BLANK], p) == Held(ds, p)
  {
    assert (ds + [BLANK])[..|ds|] == ds;
  }

  /** One round of pulling. */
  lemma {:induction false} DropFirst(fs: seq<Frag>, n: nat)
    requires fs != [] && n != 0
    ensures forall p :: PageUse(fs, p) == (if fs[0].page == p then 1 else 0) + PageUse(fs[1..], p)
    ensures n >= fs[0].size ==> Drop(fs, n) == Drop(fs[1..], n - fs[0].size)
    ensures n < fs[0].size ==>
      var gs := [Frag(fs[0].page, fs[0].off + n, fs[0].size - n)] + fs[1..];
      Drop(fs, n) == gs && forall p :: PageUse(gs, p) == PageUse(fs, p)
  {
    if n < fs[0].size {
      var gs := [Frag(fs[0].page, fs[0].off + n, fs[0].size - n)] + fs[1..];
      assert gs[1..] == fs[1..];
    }
  }

  lemma DropNothing(fs: seq<Frag>, n: nat)
    requires fs == [] || n == 0
    ensures Drop(fs, n) == fs
  {
  }

  function Upto(n: nat): set<nat> { if n == 0 then {} else Upto(n - 1) + {n - 1} }

  lemma {:induction false} Addresses(n: nat)
    ensures |Upto(n)| == n && forall h: nat :: h in Upto(n) <==> h < n
  {
    if n != 0 {
      Addresses(n - 1);
    }
  }

  /** `now` keeps every descriptor of `before` and adds exactly those at `more`. */
  predicate Extends(before: map<nat, Desc>, now: map<nat, Desc>, more: set<nat>) {
    && before.Keys !! more
    && now.Keys == before.Keys + more
    && (forall h :: h in before ==> now[h] == before[h])
  }

  /** Part of a cut has been appended to d, giving cur; the rest is still to come from the fragments fs. */
  predicate Partly(d: Desc, cur: Desc, all: seq<Frag>, fs: seq<Frag>, off: nat, len: nat) {
    && off + len <= TotalSize(fs)
    && cur == d.(frags := cur.frags, len := cur.len)
    && cur.frags + Cut(fs, off, len) == d.frags + all
  }

  lemma {:induction false} PartlyStep(d: Desc, cur: Desc, all: seq<Frag>, fs: seq<Frag>, i: nat, off: nat, len: nat)
    requires i < |fs| && len != 0 && Partly(d, cur, all, fs[i..], off, len)
    ensures off >= fs[i].size ==> Partly(d, cur, all, fs[i + 1..], off - fs[i].size, len)
    ensures off < fs[i].size ==>
      var n := Min(len, fs[i].size - off);
      var more := cur.(frags := cur.frags + [Frag(fs[i].page, fs[i].off + off, n)], len := cur.len + n);
      Partly(d, more, all, fs[i + 1..], 0, len - n)
  {
    CutStep(fs, i, off, len);
    if off < fs[i].size {
      var n := Min(len, fs[i].size - off);
      var g := Frag(fs[i].page, fs[i].off + off, n);
      assert (cur.frags + [g]) + Cut(fs[i + 1..], 0, len - n) == cur.frags + ([g] + Cut(fs[i + 1..], 0, len - n));
    }
  }

  class Port {
    const mem: Memory
    const fmt: Format
    /** Mux ids with a configured endpoint. */
    const endpoints: set<u8>
    /** Page references held by others than descriptors. */
    ghost const others: multiset<Page>

    /** Every descriptor allocated so far; its address is its index. */
    var descs: seq<Desc>
    var freeList: seq<nat>
    var poolSize: nat
    var pageRefs: multiset<Page>
    /** Some kzalloc has returned NULL since the ingress handler was last entered. */
    ghost var failed: bool
    /** The descriptors handed out and not yet back on the free list. */
    ghost var live: map<nat, Desc>

    ghost predicate Valid()
      reads this
    {
      && poolSize == |descs|
      && ListsOk(descs, freeList, live)
      && (forall p {:trigger Held(descs, p)} :: pageRefs[p] == others[p] + Held(descs, p))
    }

    /** The descriptor at address h. */
    function At(h: nat): (d: Desc)
      requires Valid() && h in live
      reads this
      ensures d == live[h]
    {
      descs[h]
    }

    function Bytes(h: nat): seq<u8>
      requires Valid() && h in live
      reads this
    {
      Flat(mem, At(h).frags)
    }

    constructor (mem: Memory, fmt: Format, endpoints: set<u8>, refs: multiset<Page>)
      ensures Valid() && this.mem == mem && this.fmt == fmt && this.endpoints == endpoints
      ensures live == map[] && !failed && pageRefs == refs
    {
      this.mem, this.fmt, this.endpoints, this.others := mem, fmt, endpoints, refs;
      descs, freeList, poolSize, pageRefs, failed, live := [], [], 0, refs, false, map[];
    }

    /** Every descriptor counted in pool_size is either on the free list or handed out. */
    lemma {:induction false} PoolCount()
      requires Valid()
      ensures poolSize == |freeList| + |live|
    {
      DistinctCount(freeList);
      Addresses(|descs|);
      var all := Upto(|descs|);
      assert live.Keys == all - Elements(freeList) by {
        forall h ensures h in live.Keys <==> h in all - Elements(freeList) {
        }
      }
      assert Elements(freeList) <= all;
    }

    /** References to a page are those of others plus the live fragments on it; freed descriptors hold none. */
    lemma {:induction false} PageCount(p: Page)
      requires Valid()
      ensures pageRefs[p] == others[p] + LiveUse(live, |descs|, p)
      ensures forall h :: h in live ==> h < |descs|
    {
      forall h | 0 <= h < |descs|
        ensures if h in live then live[h] == descs[h] else descs[h] == BLANK
      {
        assert h in live <==> h < |descs| && h !in freeList;
      }
      HeldIsLiveUse(descs, live, p);
      assert Held(descs, p) >= 0;
      forall h | h in live
        ensures h < |descs|
      {
        LiveDesc(descs, freeList, live, h);
      }
    }

    /** Write back descriptor h once the references of its changed fragment list are settled. */
    method Store(h: nat, d: Desc)
      requires poolSize == |descs| && ListsOk(descs, freeList, live) && h in live && h < |descs| && DescOk(d)
      requires forall p ::
        pageRefs[p] == others[p] + Held(descs, p) - PageUse(descs[h].frags, p) + PageUse(d.frags, p)
      modifies this`descs, this`live
      ensures Valid() && live == old(live)[h := d] && |descs| == |old(descs)|
    {
      StoreLists(descs, freeList, live, h, d);
      forall p { HeldUpdate(descs, h, d, p); }
      hide ListsOk, Held;
      descs := descs[h := d];
      live := live[h := d];
    }

    /** Assignments to metadata fields of a descriptor. */
    method SetMeta(h: nat, d: Desc)
      requires Valid() && h in live && d.frags == live[h].frags && d.len == live[h].len
      modifies this`descs, this`live
      ensures Valid() && live == old(live)[h := d]
    {
      assert DescOk(descs[h]);
      Store(h, d);
    }

    /** A new call of the ingress handler begins: nothing has failed in it yet. */
    ghost method StartCall()
      requires Valid()
      modifies this`failed
      ensures Valid() && !failed
    {
      failed := false;
    }

    /** rmnet_get_frag_descriptor */
    method Get() returns (r: Option<nat>)
      requires Valid()
      modifies this
      ensures Valid()
      ensures r.Some? ==>
        && r.value !in old(live) && live == old(live)[r.value := BLANK] && failed == old(failed)
      ensures r.None? ==> failed && live == old(live)
    {
      if freeList != [] {
        var h := freeList[0];
        TakeLists(descs, freeList, live);
        hide ListsOk, Held;
        freeList := freeList[1..];
        live := live[h := BLANK];
        return Some(h);
      }
      var ok: bool := *;
      if !ok {
        failed := true;
        return None;
      }
      forall p { OneMore(descs, p); }
      MoreLists(descs, freeList, live);
      hide ListsOk, Held;
      descs := descs + [BLANK];
      poolSize := poolSize + 1;
      live := live[|descs| - 1 := BLANK];
      r := Some(|descs| - 1);
    }

    /** put_page on the page of every fragment of a list being freed. */
    method PutPages(fs: seq<Frag>)
      requires forall p :: PageUse(fs, p) <= pageRefs[p]
      modifies this`pageRefs
      ensures forall p :: pageRefs[p] == old(pageRefs)[p] - PageUse(fs, p)
    {
      var rest := fs;
      while rest != []
        invariant forall p :: pageRefs[p] == old(pageRefs)[p] - PageUse(fs, p) + PageUse(rest, p)
        decreases |rest|
      {
        pageRefs := pageRefs - multiset{rest[0].page};
        rest := rest[1..];
      }
    }

    /** rmnet_recycle_frag_descriptor; h may already be on the free list. */
    method Recycle(h: nat)
      requires Valid() && (h in live || h in freeList)
      modifies this`descs, this`freeList, this`pageRefs, this`live
      ensures Valid() && |descs| == |old(descs)| && h in freeList
      ensures live == old(live) - {h}
      ensures |freeList| == if h in old(freeList) then |old(freeList)| else |old(freeList)| + 1
    {
      RecycleLists(descs, freeList, live, h);
      forall p { HeldWithout(descs, h, p); }
      ghost var ds := descs;
      hide ListsOk, Held, Unlink, PageUse;
      freeList := Unlink(freeList, h);
      PutPages(descs[h].frags);
      assert forall p :: pageRefs[p] == others[p] + Held(ds[h := BLANK], p);
      descs := descs[h := BLANK];
      freeList := freeList + [h];
      live := live - {h};
    }

    /** The list walk of rmnet_frag_pull: whole fragments go, the next one shrinks. */
    method PullFrags(fs: seq<Frag>, size: nat) returns (gs: seq<Frag>)
      requires forall p :: PageUse(fs, p) <= pageRefs[p]
      modifies this`pageRefs
      ensures gs == Drop(fs, size)
      ensures forall p :: pageRefs[p] == old(pageRefs)[p] - PageUse(fs, p) + PageUse(gs, p)
    {
      hide PageUse, Drop;
      gs := fs;
      var left: nat := size;
      while left != 0 && gs != []
        invariant Drop(gs, left) == Drop(fs, size)
        invariant forall p :: PageUse(gs, p) <= pageRefs[p]
        invariant forall p :: pageRefs[p] == old(pageRefs)[p] - PageUse(fs, p) + PageUse(gs, p)
        decreases |gs|
      {
        var f := gs[0];
        DropFirst(gs, left);
        if left < f.size {
          var g := Frag(f.page, f.off + left, f.size - left);
          gs := [g] + gs[1..];
          return;
        }
        pageRefs := pageRefs - multiset{f.page};
        gs := gs[1..];
        left := left - f.size;
      }
      DropNothing(gs, left);
    }

    /** The reverse list walk of rmnet_frag_trim. */
    method TrimFrags(fs: seq<Frag>, eat: nat) returns (gs: seq<Frag>)
      requires forall p :: PageUse(fs, p) <= pageRefs[p]
      modifies this`pageRefs
      ensures gs == Chop(fs, eat)
      ensures forall p :: pageRefs[p] == old(pageRefs)[p] - PageUse(fs, p) + PageUse(gs, p)
    {
      hide Flat, TotalSize;
      gs := fs;
      var left: nat := eat;
      while left != 0 && gs != []
        invariant Chop(gs, left) == Chop(fs, eat)
        invariant forall p :: PageUse(gs, p) <= pageRefs[p]
        invariant forall p :: pageRefs[p] == old(pageRefs)[p] - PageUse(fs, p) + PageUse(gs, p)
        decreases |gs|
      {
        var n := |gs| - 1;
        var f := gs[n];
        FlatSplit(mem, gs);
        if left < f.size {
          var g := Frag(f.page, f.off, f.size - left);
          FlatSnoc(mem, gs[..n], g);
          gs := gs[..n] + [g];
          return;
        }
        pageRefs := pageRefs - multiset{f.page};
        gs := gs[..n];
        left := left - f.size;
      }
    }

    /** rmnet_frag_pull */
    method Pull(h: nat, size: u32) returns (ok: bool)
      requires Valid() && h in live
      modifies this`descs, this`freeList, this`pageRefs, this`live
      ensures Valid()
      ensures ok == (size < old(live[h]).len)
      ensures ok ==> h in live
      ensures ok ==>
        && live == old(live)[h := old(live[h]).(frags := live[h].frags, len := old(live[h]).len - size)]
        && |Flat(mem, old(live[h]).frags)| == old(live[h]).len
        && Flat(mem, live[h].frags) == Flat(mem, old(live[h]).frags)[size..]
      ensures !ok ==> live == old(live) - {h} && h in freeList
      ensures |descs| == |old(descs)|
    {
      assert DescOk(descs[h]);
      if size >= descs[h].len {
        Recycle(h);
        return false;
      }
      forall p { HeldAtLeast(descs, h, p); }
      DropFlat(mem, descs[h].frags, size);
      hide ListsOk, Held, PageUse, Drop, Flat, TotalSize;
      var gs := PullFrags(descs[h].frags, size);
      var d := descs[h].(frags := gs, len := descs[h].len - size);
      Store(h, d);
      ok := true;
    }

    /** rmnet_frag_trim */
    method Trim(h: nat, size: u32) returns (ok: bool)
      requires Valid() && h in live
      modifies this`descs, this`freeList, this`pageRefs, this`live
      ensures Valid()
      ensures ok == (size != 0)
      ensures ok ==> h in live
      ensures ok ==>
        && var keep := Min(size, old(live[h]).len);
           && live == old(live)[h := old(live[h]).(frags := live[h].frags, len := keep)]
           && |Flat(mem, old(live[h]).frags)| == old(live[h]).len
           && Flat(mem, live[h].frags) == Flat(mem, old(live[h]).frags)[..keep]
      ensures !ok ==> live == old(live) - {h} && h in freeList
      ensures |descs| == |old(descs)|
    {
      if size == 0 {
        Recycle(h);
        return false;
      }
      ok := true;
      LiveDesc(descs, freeList, live, h);
      FlatLength(mem, descs[h].frags);
      if size >= descs[h].len {
        hide ListsOk, Held, Flat, TotalSize;
        ghost var b := Flat(mem, descs[h].frags);
        assert live[h := live[h]] == live && b[..|b|] == b;
        return;
      }
      var eat := descs[h].len - size;
      assert TotalSize(descs[h].frags) - eat == size;
      forall p { HeldAtLeast(descs, h, p); }
      ChopFlat(mem, descs[h].frags, eat);
      hide ListsOk, Held, PageUse, Chop, Flat, TotalSize;
      var gs := TrimFrags(descs[h].frags, eat);
      Store(h, descs[h].(frags := gs, len := size));
    }

    /** The range check shared by every access to [off, off + len), in 32-bit arithmetic. */
    predicate BadRange(h: nat, off: u32, len: u32)
      requires Valid() && h in live
      reads this
    {
      off > descs[h].len || len > descs[h].len || (off + len) % 0x1_0000_0000 > descs[h].len
    }

    /** The check is exact: the 32-bit sum cannot wrap. */
    lemma {:induction false} RangeExact(h: nat, off: u32, len: u32)
      requires Valid() && h in live
      ensures |Flat(mem, live[h].frags)| == live[h].len < MAX_LEN
      ensures BadRange(h, off, len) <==> off + len > |Flat(mem, live[h].frags)|
      ensures DescOk(live[h])
    {
      assert DescOk(descs[h]);
      FlatLength(mem, descs[h].frags);
    }

    /** rmnet_frag_copy_data */
    method CopyData(h: nat, off: u32, len: u32) returns (r: Option<seq<u8>>)
      requires Valid() && h in live
      ensures |Flat(mem, live[h].frags)| == live[h].len
      ensures var b := Flat(mem, live[h].frags);
        r == if off + len <= |b| then Some(b[off..off + len]) else None
    {
      RangeExact(h, off, len);
      if BadRange(h, off, len) {
        return None;
      }
      var buf := Collect(descs[h].frags, off, len);
      r := Some(buf);
    }

    /** The copy loop of rmnet_frag_copy_data. */
    method Collect(fs: seq<Frag>, off: nat, len: nat) returns (buf: seq<u8>)
      requires off + len <= TotalSize(fs)
      ensures |Flat(mem, fs)| == TotalSize(fs)
      ensures buf == Flat(mem, fs)[off..off + len]
    {
      hide Flat, Cut, TotalSize, FragBytes;
      var i: nat, skip: nat, left: nat := 0, off, len;
      buf := [];
      CutFlat(mem, fs, off, len);
      assert fs[i..] == fs;
      while left != 0 && i < |fs|
        invariant i <= |fs|
        invariant buf + Flat(mem, Cut(fs[i..], skip, left)) == Flat(mem, Cut(fs, off, len))
      {
        var f := fs[i];
        CutFlatStep(mem, fs, i, skip, left);
        if skip < f.size {
          var n := Min(left, f.size - skip);
          var bytes := FragBytes(mem, f)[skip..skip + n];
          SeqAssoc(buf, bytes, Flat(mem, Cut(fs[i + 1..], 0, left - n)));
          buf := buf + bytes;
          left := left - n;
          skip := 0;
        } else {
          skip := skip - f.size;
        }
        i := i + 1;
      }
      EmptyCut(mem, fs[i..], skip, left);
    }

    /** The search of rmnet_frag_header_ptr for a fragment that holds all of [off, off + len). */
    method FindLinear(fs: seq<Frag>, off: nat, len: nat) returns (r: Option<seq<u8>>)
      requires off + len <= TotalSize(fs)
      ensures |Flat(mem, fs)| == TotalSize(fs)
      ensures r.Some? ==> r.value == Flat(mem, fs)[off..off + len]
    {
      var i: nat, skip: nat := 0, off;
      CutFlat(mem, fs, off, len);
      while i < |fs|
        invariant i <= |fs|
        invariant skip + len <= TotalSize(fs[i..])
        invariant Flat(mem, Cut(fs[i..], skip, len)) == Flat(mem, Cut(fs, off, len))
      {
        var f := fs[i];
        assert fs[i..][1..] == fs[i + 1..];
        if skip < f.size {
          if skip + len <= f.size {
            FragSlice(mem, f, skip, len);
            if len != 0 {
              CutStep(fs, i, skip, len);
              assert Cut(fs[i + 1..], 0, 0) == [];
            }
            FlatSnoc(mem, [], Frag(f.page, f.off + skip, len));
            return Some(FragBytes(mem, f)[skip..skip + len]);
          }
          break;
        }
        skip := skip - f.size;
        i := i + 1;
      }
      r := None;
    }

    /** rmnet_frag_header_ptr: a pointer into one fragment, or a copy when the header spans several. */
    method HeaderPtr(h: nat, off: u32, len: u32) returns (r: Option<seq<u8>>)
      requires Valid() && h in live
      ensures |Flat(mem, live[h].frags)| == live[h].len
      ensures var b := Flat(mem, live[h].frags);
        r == if off + len <= |b| then Some(b[off..off + len]) else None
    {
      RangeExact(h, off, len);
      if BadRange(h, off, len) {
        return None;
      }
      r := FindLinear(descs[h].frags, off, len);
      if r.None? {
        r := CopyData(h, off, len);
      }
    }

    /** rmnet_frag_descriptor_add_frag */
    method AddFrag(h: nat, page: Page, off: nat, len: nat) returns (ok: bool)
      requires Valid() && h in live && live[h].len + len < MAX_LEN
      modifies this`descs, this`pageRefs, this`failed, this`live
      ensures Valid()
      ensures ok ==>
        && failed == old(failed)
        && live == old(live)[h := old(live[h]).(frags := old(live[h]).frags + [Frag(page, off, len)],
                                                 len := old(live[h]).len + len)]
      ensures !ok ==> failed && live == old(live)
    {
      ok := *;
      if !ok {
        failed := true;
        return;
      }
      var f := Frag(page, off, len);
      LiveDesc(descs, freeList, live, h);
      FlatSnoc(mem, descs[h].frags, f);
      hide ListsOk, Held, PageUse, TotalSize, Flat;
      var d := descs[h].(frags := descs[h].frags + [f], len := descs[h].len + len);
      assert DescOk(d);
      hide DescOk;
      pageRefs := pageRefs + multiset{page};
      Store(h, d);
    }

    /** The list walk of rmnet_frag_descriptor_add_frags_from. */
    method AddCut(to: nat, fs: seq<Frag>, off: nat, len: nat) returns (ok: bool)
      requires Valid() && to in live && off + len <= TotalSize(fs)
      requires live[to].len + len < MAX_LEN
      modifies this`descs, this`pageRefs, this`failed, this`live
      ensures Valid() && to in live && (old(failed) ==> failed)
      ensures live == old(live)[to := old(live[to]).(frags := live[to].frags, len := live[to].len)]
      ensures ok ==> failed == old(failed) && live[to].frags == old(live[to]).frags + Cut(fs, off, len)
      ensures ok ==> live[to].len == old(live[to]).len + len
      ensures !ok ==> failed
    {
      hide Valid;
      var i: nat, skip: nat, left: nat := 0, off, len;
      ghost var d := live[to];
      ok := true;
      assert fs[i..] == fs;
      while left != 0 && i < |fs|
        invariant Valid() && failed == old(failed)
        invariant to in live && live == old(live)[to := live[to]]
        invariant i <= |fs| && left <= len && Partly(d, live[to], Cut(fs, off, len), fs[i..], skip, left)
        invariant live[to].len + left == d.len + len
      {
        var f := fs[i];
        PartlyStep(d, live[to], Cut(fs, off, len), fs, i, skip, left);
        if skip < f.size {
          var n := Min(left, f.size - skip);
          ok := AddFrag(to, f.page, f.off + skip, n);
          if !ok {
            return;
          }
          left := left - n;
          skip := 0;
        } else {
          skip := skip - f.size;
        }
        i := i + 1;
      }
    }

    /** rmnet_frag_descriptor_add_frags_from */
    method AddFragsFrom(to: nat, from: nat, off: u32, len: u32) returns (ok: bool)
      requires Valid() && to in live && from in live && to != from
      requires live[to].len + live[from].len < MAX_LEN
      modifies this`descs, this`pageRefs, this`failed, this`live
      ensures Valid() && to in live && (old(failed) ==> failed)
      ensures live == old(live)[to := old(live[to]).(frags := live[to].frags, len := live[to].len)]
      ensures |Flat(mem, old(live[from]).frags)| == old(live[from]).len
      ensures ok ==>
        && failed == old(failed)
        && off + len <= |Flat(mem, old(live[from]).frags)|
        && live[to].len == old(live[to]).len + len
        && Flat(mem, live[to].frags) ==
             Flat(mem, old(live[to]).frags) + Flat(mem, old(live[from]).frags)[off..off + len]
      ensures !ok ==> failed || off + len > |Flat(mem, old(live[from]).frags)|
    {
      RangeExact(from, off, len);
      if BadRange(from, off, len) {
        return false;
      }
      CutFlat(mem, descs[from].frags, off, len);
      FlatAppend(mem, descs[to].frags, Cut(descs[from].frags, off, len));
      ok := AddCut(to, descs[from].frags, off, len);
    }
  }
}
