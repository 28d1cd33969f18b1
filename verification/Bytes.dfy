/** Machine integers and byte strings shared by the model. */
module Bytes {
  type u8 = x: int | 0 <= x < 0x100
  type u16 = x: int | 0 <= x < 0x1_0000
  type u32 = x: int | 0 <= x < 0x1_0000_0000

  datatype Option<+T> = None | Some(value: T)

  /** ntohs of the two bytes at `off`. */
  function Be16(b: seq<u8>, off: nat): u16
    requires off + 2 <= |b|
  {
    var hi: int, lo: int := b[off], b[off + 1];
    hi * 0x100 + lo
  }

  /** ntohl of the four bytes at `off`. */
  function Be32(b: seq<u8>, off: nat): u32
    requires off + 4 <= |b|
  {
    var hi: int, lo: int := Be16(b, off), Be16(b, off + 2);
    hi * 0x1_0000 + lo
  }

  /** htons and htonl, as bytes. */
  function Short(v: u16): seq<u8> { [v / 0x100, v % 0x100] }

  function Long(v: u32): seq<u8> { Short(v / 0x1_0000) + Short(v % 0x1_0000) }

  lemma {:induction false} ReadBack(v: u32)
    ensures |Long(v)| == 4 && Be32(Long(v), 0) == v
  {
    var hi, lo := v / 0x1_0000, v % 0x1_0000;
    assert v == 0x1_0000 * hi + lo;
    assert Be16(Short(hi), 0) == hi && Be16(Short(lo), 0) == lo;
  }

  function Min(a: int, b: int): int { if a <= b then a else b }

  function Max(a: int, b: int): int { if a <= b then b else a }

  /** n * size, unfolded one addition at a time. */
  function Times(size: nat, n: nat): nat {
    if n == 0 then 0 else Times(size, n - 1) + size
  }

  lemma {:induction false} TimesIsProduct(size: nat, n: nat)
    ensures Times(size, n) == size * n
  {
    if n != 0 {
      TimesIsProduct(size, n - 1);
    }
  }

  /** All strings of `parts`, one after the other. */
  function Join(parts: seq<seq<u8>>): seq<u8> {
    if parts == [] then [] else parts[0] + Join(parts[1..])
  }

  lemma {:induction false} JoinCons(x: seq<u8>, rest: seq<seq<u8>>)
    ensures Join([x] + rest) == x + Join(rest)
  {
    assert ([x] + rest)[1..] == rest;
  }

  lemma {:induction false} JoinAppend(a: seq<seq<u8>>, b: seq<seq<u8>>)
    ensures Join(a + b) == Join(a) + Join(b)
  {
    if a == [] {
      assert a + b == b;
    } else {
      assert (a + b)[1..] == a[1..] + b;
      JoinAppend(a[1..], b);
    }
  }
}
