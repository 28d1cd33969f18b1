/** Page fragments and the flat byte string a list of them stands for. */
module Fragments {
  import opened Bytes

  type Page = nat

  /** Contents of every page: the byte at an offset of a page. */
  type Memory = (Page, int) -> u8

  datatype Frag = Frag(page: Page, off: nat, size: nat)

  function FragBytes(mem: Memory, f: Frag): (b: seq<u8>)
    ensures |b| == f.size
  {
    seq(f.size, i requires 0 <= i < f.size => mem(f.page, f.off + i))
  }

  function Flat(mem: Memory, fs: seq<Frag>): seq<u8> {
    if fs == [] then [] else FragBytes(mem, fs[0]) + Flat(mem, fs[1..])
  }

  function TotalSize(fs: seq<Frag>): nat {
    if fs == [] then 0 else fs[0].size + TotalSize(fs[1..])
  }

  /** How many of the fragments keep a reference to page p. */
  function PageUse(fs: seq<Frag>, p: Page): nat {
    if fs == [] then 0 else (if fs[0].page == p then 1 else 0) + PageUse(fs[1..], p)
  }

  lemma {:induction false} FlatAppend(mem: Memory, a: seq<Frag>, b: seq<Frag>)
    ensures Flat(mem, a + b) == Flat(mem, a) + Flat(mem, b)
    ensures TotalSize(a + b) == TotalSize(a) + TotalSize(b)
    ensures forall p :: PageUse(a + b, p) == PageUse(a, p) + PageUse(b, p)
  {
    if a == [] {
      assert a + b == b;
    } else {
      assert (a + b)[1..] == a[1..] + b;
      FlatAppend(mem, a[1..], b);
    }
  }

  lemma {:induction false} FlatSnoc(mem: Memory, a: seq<Frag>, f: Frag)
    ensures Flat(mem, a + [f]) == Flat(mem, a) + FragBytes(mem, f)
    ensures TotalSize(a + [f]) == TotalSize(a) + f.size
    ensures forall p :: PageUse(a + [f], p) == PageUse(a, p) + if f.page == p then 1 else 0
  {
    FlatAppend(mem, a, [f]);
    assert [f][1..] == [];
    assert Flat(mem, [f]) == FragBytes(mem, f);
    assert forall p :: PageUse([f], p) == if f.page == p then 1 else 0;
  }

  lemma EmptyFlat(mem: Memory)
    ensures Flat(mem, []) == []
  {
  }

  lemma {:induction false} FlatLength(mem: Memory, fs: seq<Frag>)
    ensures |Flat(mem, fs)| == TotalSize(fs)
  {
    if fs != [] {
      FlatLength(mem, fs[1..]);
    }
  }

  /** Narrowing a fragment narrows its bytes. */
  lemma {:induction false} FragSlice(mem: Memory, f: Frag, from: nat, size: nat)
    requires from + size <= f.size
    ensures FragBytes(mem, Frag(f.page, f.off + from, size)) == FragBytes(mem, f)[from..from + size]
  {
    var narrow := Frag(f.page, f.off + from, size);
    forall i | 0 <= i < size
      ensures FragBytes(mem, narrow)[i] == FragBytes(mem, f)[from..from + size][i]
    {
      assert narrow.off + i == f.off + (from + i);
    }
  }

  lemma {:induction false} FlatSplit(mem: Memory, fs: seq<Frag>)
    requires fs != []
    ensures Flat(mem, fs) == Flat(mem, fs[..|fs| - 1]) + FragBytes(mem, fs[|fs| - 1])
    ensures TotalSize(fs) == TotalSize(fs[..|fs| - 1]) + fs[|fs| - 1].size
    ensures forall p :: PageUse(fs, p) == PageUse(fs[..|fs| - 1], p) + if fs[|fs| - 1].page == p then 1 else 0
  {
    FlatSnoc(mem, fs[..|fs| - 1], fs[|fs| - 1]);
    assert fs[..|fs| - 1] + [fs[|fs| - 1]] == fs;
  }

  /** Fragments left after `n` bytes are pulled off the front. */
  function Drop(fs: seq<Frag>, n: nat): seq<Frag> {
    if fs == [] || n == 0 then fs
    else if n >= fs[0].size then Drop(fs[1..], n - fs[0].size)
    else [Frag(fs[0].page, fs[0].off + n, fs[0].size - n)] + fs[1..]
  }

  lemma {:induction false} DropFlat(mem: Memory, fs: seq<Frag>, n: nat)
    requires n <= TotalSize(fs)
    ensures |Flat(mem, fs)| == TotalSize(fs)
    ensures Flat(mem, Drop(fs, n)) == Flat(mem, fs)[n..]
    ensures TotalSize(Drop(fs, n)) == TotalSize(fs) - n
  {
    FlatLength(mem, fs);
    if fs == [] || n == 0 {
    } else if n >= fs[0].size {
      DropFlat(mem, fs[1..], n - fs[0].size);
    } else {
      FragSlice(mem, fs[0], n, fs[0].size - n);
      assert Drop(fs, n)[1..] == fs[1..];
    }
  }

  /** Fragments left after `n` bytes are chopped off the end. */
  function Chop(fs: seq<Frag>, n: nat): seq<Frag> {
    if fs == [] || n == 0 then fs
    else
      var last := |fs| - 1;
      if n >= fs[last].size then Chop(fs[..last], n - fs[last].size)
      else fs[..last] + [Frag(fs[last].page, fs[last].off, fs[last].size - n)]
  }

  lemma {:induction false} ChopFlat(mem: Memory, fs: seq<Frag>, n: nat)
    requires n <= TotalSize(fs)
    ensures |Flat(mem, fs)| == TotalSize(fs)
    ensures Flat(mem, Chop(fs, n)) == Flat(mem, fs)[..TotalSize(fs) - n]
    ensures TotalSize(Chop(fs, n)) == TotalSize(fs) - n
  {
    FlatLength(mem, fs);
    if fs == [] || n == 0 {
    } else {
      var last := |fs| - 1;
      FlatSplit(mem, fs);
      if n >= fs[last].size {
        ChopFlat(mem, fs[..last], n - fs[last].size);
      } else {
        var g := Frag(fs[last].page, fs[last].off, fs[last].size - n);
        FragSlice(mem, fs[last], 0, g.size);
        FlatSnoc(mem, fs[..last], g);
      }
    }
  }

  /** The fragments that cover `len` bytes from `off`, cut out of fs. */
  function Cut(fs: seq<Frag>, off: nat, len: nat): seq<Frag> {
    if fs == [] || len == 0 then []
    else if off < fs[0].size then
      var n := Min(len, fs[0].size - off);
      [Frag(fs[0].page, fs[0].off + off, n)] + Cut(fs[1..], 0, len - n)
    else Cut(fs[1..], off - fs[0].size, len)
  }

  /** One round of a loop that walks the fragments covered by a cut. */
  lemma {:induction false} CutStep(fs: seq<Frag>, i: nat, off: nat, len: nat)
    requires i < |fs| && len != 0
    ensures off >= fs[i].size ==> Cut(fs[i..], off, len) == Cut(fs[i + 1..], off - fs[i].size, len)
    ensures off < fs[i].size ==>
      var n := Min(len, fs[i].size - off);
      Cut(fs[i..], off, len) == [Frag(fs[i].page, fs[i].off + off, n)] + Cut(fs[i + 1..], 0, len - n)
    ensures TotalSize(fs[i..]) == fs[i].size + TotalSize(fs[i + 1..])
  {
    assert fs[i..][1..] == fs[i + 1..];
  }

  /** What that round means for the bytes of the cut. */
  lemma {:induction false} CutFlatStep(mem: Memory, fs: seq<Frag>, i: nat, off: nat, len: nat)
    requires i < |fs| && len != 0
    ensures off >= fs[i].size ==>
      Flat(mem, Cut(fs[i..], off, len)) == Flat(mem, Cut(fs[i + 1..], off - fs[i].size, len))
    ensures off < fs[i].size ==>
      var n := Min(len, fs[i].size - off);
      Flat(mem, Cut(fs[i..], off, len)) ==
        FragBytes(mem, fs[i])[off..off + n] + Flat(mem, Cut(fs[i + 1..], 0, len - n))
  {
    CutStep(fs, i, off, len);
    hide Cut, Flat, FragBytes, TotalSize;
    if off < fs[i].size {
      var n := Min(len, fs[i].size - off);
      FlatCons(mem, Frag(fs[i].page, fs[i].off + off, n), Cut(fs[i + 1..], 0, len - n));
      FragSlice(mem, fs[i], off, n);
    }
  }

  lemma EmptyCut(mem: Memory, fs: seq<Frag>, off: nat, len: nat)
    requires fs == [] || len == 0
    ensures Flat(mem, Cut(fs, off, len)) == []
  {
  }

  lemma SeqAssoc(a: seq<u8>, b: seq<u8>, c: seq<u8>)
    ensures a + (b + c) == (a + b) + c
  {
  }

  /** Cutting fragments is slicing bytes. */
  lemma {:induction false} CutFlat(mem: Memory, fs: seq<Frag>, off: nat, len: nat)
    requires off + len <= TotalSize(fs)
    ensures |Flat(mem, fs)| == TotalSize(fs)
    ensures Flat(mem, Cut(fs, off, len)) == Flat(mem, fs)[off..off + len]
    ensures TotalSize(Cut(fs, off, len)) == len
    decreases |fs|
  {
    FlatLength(mem, fs);
    hide Cut, Flat, FragBytes;
    if fs == [] || len == 0 {
      CutNothing(mem, fs, off, len);
    } else if off < fs[0].size {
      CutFlat(mem, fs[1..], 0, len - Min(len, fs[0].size - off));
      CutNear(mem, fs, off, len);
    } else {
      CutFlat(mem, fs[1..], off - fs[0].size, len);
      CutFar(mem, fs, off, len);
    }
  }

  /** The cut starts in the first fragment. */
  lemma {:induction false} CutNear(mem: Memory, fs: seq<Frag>, off: nat, len: nat)
    requires fs != [] && len != 0 && off < fs[0].size && off + len <= |Flat(mem, fs)|
    requires var rest := len - Min(len, fs[0].size - off);
      && rest <= |Flat(mem, fs[1..])| && Flat(mem, Cut(fs[1..], 0, rest)) == Flat(mem, fs[1..])[0..0 + rest]
      && TotalSize(Cut(fs[1..], 0, rest)) == rest
    ensures Flat(mem, Cut(fs, off, len)) == Flat(mem, fs)[off..off + len] && TotalSize(Cut(fs, off, len)) == len
  {
    var n := Min(len, fs[0].size - off);
    FlatFirst(mem, fs);
    CutStep(fs, 0, off, len);
    assert fs[0..] == fs;
    FlatCons(mem, Frag(fs[0].page, fs[0].off + off, n), Cut(fs[1..], 0, len - n));
    FragSlice(mem, fs[0], off, n);
    hide Cut, Flat, TotalSize, FragBytes;
    SliceAcross(FragBytes(mem, fs[0]), Flat(mem, fs[1..]), off, n, len, Flat(mem, Cut(fs[1..], 0, len - n)));
  }

  /** The cut starts behind it. */
  lemma {:induction false} CutFar(mem: Memory, fs: seq<Frag>, off: nat, len: nat)
    requires fs != [] && len != 0 && off >= fs[0].size && off + len <= |Flat(mem, fs)|
    requires var skip := off - fs[0].size;
      && skip + len <= |Flat(mem, fs[1..])|
      && Flat(mem, Cut(fs[1..], skip, len)) == Flat(mem, fs[1..])[skip..skip + len]
      && TotalSize(Cut(fs[1..], skip, len)) == len
    ensures Flat(mem, Cut(fs, off, len)) == Flat(mem, fs)[off..off + len] && TotalSize(Cut(fs, off, len)) == len
  {
    FlatFirst(mem, fs);
    CutStep(fs, 0, off, len);
    assert fs[0..] == fs;
    hide Cut, Flat, TotalSize, FragBytes;
    SliceBehind(FragBytes(mem, fs[0]), Flat(mem, fs[1..]), off, len);
  }

  lemma FlatFirst(mem: Memory, fs: seq<Frag>)
    requires fs != []
    ensures Flat(mem, fs) == FragBytes(mem, fs[0]) + Flat(mem, fs[1..])
    ensures TotalSize(fs) == fs[0].size + TotalSize(fs[1..])
  {
  }

  lemma {:induction false} FlatCons(mem: Memory, f: Frag, fs: seq<Frag>)
    ensures Flat(mem, [f] + fs) == FragBytes(mem, f) + Flat(mem, fs)
    ensures TotalSize([f] + fs) == f.size + TotalSize(fs)
  {
    assert ([f] + fs)[1..] == fs;
  }

  lemma CutNothing(mem: Memory, fs: seq<Frag>, off: nat, len: nat)
    requires off + len <= TotalSize(fs) && (fs == [] || len == 0)
    ensures Cut(fs, off, len) == [] && Flat(mem, []) == [] && TotalSize([]) == len
  {
  }

  lemma SliceAcross(a: seq<u8>, b: seq<u8>, off: nat, n: nat, len: nat, c: seq<u8>)
    requires off < |a| && n == Min(len, |a| - off) && off + len <= |a| + |b| && c == b[0..0 + (len - n)]
    ensures a[off..off + n] + c == (a + b)[off..off + len]
  {
  }

  lemma SliceBehind(a: seq<u8>, b: seq<u8>, off: nat, len: nat)
    requires |a| <= off && off + len <= |a| + |b|
    ensures b[off - |a|..off - |a| + len] == (a + b)[off..off + len]
  {
  }
}
