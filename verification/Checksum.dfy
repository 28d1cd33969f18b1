/** Downlink checksum validation from the MAP trailer, against one's-complement arithmetic modulo 65535. */
module Checksum {
  import opened Bytes

  const M := 65535
  const PROTO_TCP: u8 := 6
  const PROTO_UDP: u8 := 17

  /** Equal modulo 65535, as one's-complement values. */
  predicate Cong(a: int, b: int) { (a - b) % M == 0 }

  lemma CongChain(a: int, b: int, c: int)
    requires Cong(a, b) && Cong(b, c)
    ensures Cong(a, c) && Cong(b, a)
  {
  }

  lemma CongAdd(a: int, b: int, c: int, d: int)
    requires Cong(a, b) && Cong(c, d)
    ensures Cong(a + c, b + d) && Cong(a - c, b - d)
  {
    var p, q := (a - b) / M, (c - d) / M;
    assert a - b == M * p && c - d == M * q;
    assert (a + c) - (b + d) == M * (p + q) && (a - c) - (b - d) == M * (p - q);
  }

  lemma {:induction false} CongShift(a: int, b: int)
    requires Cong(a, b)
    ensures Cong(0x100 * a, 0x100 * b)
  {
    var q := (a - b) / M;
    assert a - b == M * q;
    assert 0x100 * a - 0x100 * b == M * (0x100 * q);
  }

  /** One's-complement addition as csum16_add does it, with the end-around carry found by comparing. */
  function Add(a: u16, b: u16): (r: u16)
    ensures Cong(r, a + b)
    ensures r == 0 <==> a == 0 && b == 0
  {
    var s := (a + b) % 0x1_0000;
    (s + if s < b then 1 else 0) % 0x1_0000
  }

  function Not(a: u16): u16 { 0xFFFF - a }

  /** csum16_sub */
  function Sub(a: u16, b: u16): u16 { Add(a, Not(b)) }

  /** End-around folding of a wide sum: 0 only for the sum 0. */
  function Fold(n: nat): (r: u16)
    ensures Cong(r, n)
    ensures r == 0 <==> n == 0
  {
    if n == 0 then 0 else 1 + (n - 1) % M
  }

  /** Sum of the big-endian words of b, an odd last byte padded with zero (RFC 1071). */
  function WordSum(b: seq<u8>): nat {
    if b == [] then 0
    else if |b| == 1 then
      var hi: int := b[0];
      hi * 0x100
    else
      var w: int := Be16(b, 0);
      w + WordSum(b[2..])
  }

  /** ntohs or htons of a 16-bit value on a little-endian host. */
  function Swap(a: u16): (r: u16)
    ensures Cong(r, 0x100 * a) && (r == 0 <==> a == 0)
  {
    a % 0x100 * 0x100 + a / 0x100
  }

  /** Two nonzero 16-bit values in the same residue class are equal. */
  lemma SameResidue(a: u16, b: u16)
    requires Cong(a, b) && (a == 0 <==> b == 0)
    ensures a == b
  {
  }

  lemma {:induction false} SwapOfSum(a: u16, b: u16, c: u16)
    requires Cong(c, a + b)
    ensures Cong(Swap(c), 0x100 * (a + b))
  {
    hide Cong, Swap;
    CongShift(c, a + b);
    CongChain(Swap(c), 0x100 * c, 0x100 * (a + b));
  }

  lemma {:induction false} SumOfSwaps(a: u16, b: u16, p: u16, q: u16, y: u16)
    requires Cong(p, 0x100 * a) && Cong(q, 0x100 * b) && Cong(y, p + q)
    ensures Cong(0x100 * (a + b), y)
  {
    hide Cong;
    CongAdd(p, 0x100 * a, q, 0x100 * b);
    CongChain(y, p + q, 0x100 * a + 0x100 * b);
    assert 0x100 * a + 0x100 * b == 0x100 * (a + b);
    CongSym(y, 0x100 * (a + b));
  }

  /** One's-complement addition does not depend on byte order. */
  lemma {:induction false} SwapAdd(a: u16, b: u16)
    ensures Swap(Add(a, b)) == Add(Swap(a), Swap(b))
  {
    hide Cong, Swap, Add;
    var x, y := Swap(Add(a, b)), Add(Swap(a), Swap(b));
    SwapOfSum(a, b, Add(a, b));
    SumOfSwaps(a, b, Swap(a), Swap(b), y);
    CongChain(x, 0x100 * (a + b), y);
    SameResidue(x, y);
  }

  lemma CongSym(a: int, b: int)
    requires Cong(a, b)
    ensures Cong(b, a)
  {
  }

  lemma {:induction false} WordSumAppend(a: seq<u8>, b: seq<u8>)
    requires |a| % 2 == 0
    ensures WordSum(a + b) == WordSum(a) + WordSum(b)
  {
    if a == [] {
      assert a + b == b;
    } else {
      assert (a + b)[2..] == a[2..] + b;
      WordSumAppend(a[2..], b);
    }
  }

  function Put16(b: seq<u8>, k: nat, v: u16): seq<u8>
    requires k + 2 <= |b|
  {
    b[k := v / 0x100][k + 1 := v % 0x100]
  }

  /** Writing an aligned word changes the sum by the difference of the words. */
  lemma {:induction false} WordSumPut(b: seq<u8>, k: nat, v: u16)
    requires k + 2 <= |b| && k % 2 == 0
    ensures WordSum(Put16(b, k, v)) == WordSum(b) - Be16(b, k) + v
    ensures Be16(Put16(b, k, v), k) == v
  {
    var c := Put16(b, k, v);
    if k == 0 {
      assert c[2..] == b[2..];
    } else {
      assert c[2..] == Put16(b[2..], k - 2, v);
      assert Be16(b[2..], k - 2) == Be16(b, k);
      WordSumPut(b[2..], k - 2, v);
    }
  }

  /** Offset of the checksum field in the transport header, where the driver knows it. */
  function CsumOffset(proto: u8): Option<nat> {
    if proto == PROTO_TCP then Some(16) else if proto == PROTO_UDP then Some(6) else None
  }

  datatype Verdict = Ok | Skipped | Fragmented | BadTransport | Failed

  /** The tail of both validators: compare the field with the checksum recomputed without it. */
  function Compare(proto: u8, payloadSum: u16, pseudo: u16, field: u16): Verdict {
    var temp := Not(Sub(Add(payloadSum, pseudo), field));
    var final :=
      if temp == 0 && (proto == PROTO_UDP || (proto == PROTO_TCP && field == 0xFFFF)) then 0xFFFF else temp;
    if final == field then Ok else Failed
  }

  /** The comparison is the RFC 1071 check, except that UDP never accepts a zero field. */
  lemma {:induction false} CompareExact(proto: u8, payloadSum: u16, pseudo: u16, field: u16)
    requires payloadSum != 0 && CsumOffset(proto).Some?
    ensures Compare(proto, payloadSum, pseudo, field) == Ok
       <==> (payloadSum + pseudo) % M == 0 && !(proto == PROTO_UDP && field == 0)
  {
    var s := Add(payloadSum, pseudo);
    var d := Sub(s, field);
    assert Cong(d, s + Not(field)) && d != 0;
    assert Cong(s, payloadSum + pseudo);
    hide Add, Sub;
  }

  /** Pseudo-header sum as the kernel adds it up: the address words, the protocol and the upper-layer length. */
  function Pseudo(addrs: seq<u8>, proto: u8, len: nat): nat {
    WordSum(addrs) + proto + len
  }

  function Ihl(p: seq<u8>): nat requires |p| >= 20 { p[0] % 16 * 4 }

  function Pseudo4(p: seq<u8>): nat requires |p| >= 20 {
    Pseudo(p[12..20], p[9], (Be16(p, 2) - Ihl(p)) % 0x1_0000_0000)
  }

  function Transport4(p: seq<u8>): seq<u8> requires |p| >= 20 && Ihl(p) <= |p| { p[Ihl(p)..] }

  predicate IsFragment(p: seq<u8>) requires |p| >= 20 { Be16(p, 6) / 0x2000 % 2 == 1 || Be16(p, 6) % 0x2000 > 0 }

  /** The packet reaches past its checksum field. */
  predicate Reaches(transport: seq<u8>, proto: u8) {
    CsumOffset(proto).Some? ==> |transport| >= CsumOffset(proto).value + 2
  }

  /** rmnet_map_ipv4_dl_csum_trailer: `trailer` is the checksum field of the trailer in host order. */
  function ValidateV4(p: seq<u8>, trailer: u16): Verdict
    requires |p| >= 20 && Ihl(p) <= |p| && Reaches(Transport4(p), p[9])
  {
    if IsFragment(p) then Fragmented
    else if CsumOffset(p[9]).None? then BadTransport
    else
      var field := Be16(Transport4(p), CsumOffset(p[9]).value);
      if field == 0 && p[9] == PROTO_UDP then Skipped
      else
        // The header sum is used as ip_fast_csum leaves it, in network order.
        var headerSum := Swap(Fold(WordSum(p[..Ihl(p)])));
        Compare(p[9], Sub(Not(trailer), headerSum), Fold(Pseudo4(p)), field)
  }

  /** The trailer holds the complemented one's-complement sum of the whole packet. */
  predicate TrailerOf(p: seq<u8>, trailer: u16) { trailer == Not(Fold(WordSum(p))) }

  predicate HeaderValid(p: seq<u8>) requires |p| >= 20 {
    20 <= Ihl(p) <= |p| && Ihl(p) <= Be16(p, 2) && Fold(WordSum(p[..Ihl(p)])) == 0xFFFF
  }

  /** The pseudo-header of RFC 768 and RFC 793: both addresses, a zero byte, the protocol and the transport length. */
  function PseudoHeader4(p: seq<u8>): seq<u8> requires |p| >= 20 && Ihl(p) <= Be16(p, 2) {
    p[12..20] + [0, p[9]] + Short(Be16(p, 2) - Ihl(p))
  }

  /** The transport checksum of an IPv4 packet is right: pseudo-header and segment sum to zero. */
  predicate Correct4(p: seq<u8>) requires |p| >= 20 && Ihl(p) <= |p| && Ihl(p) <= Be16(p, 2) {
    WordSum(PseudoHeader4(p) + Transport4(p)) % M == 0
  }

  /** The kernel's sum is that of the pseudo-header's bytes. */
  lemma {:induction false} PseudoBytes4(p: seq<u8>)
    requires |p| >= 20 && Ihl(p) <= |p| && Ihl(p) <= Be16(p, 2)
    ensures WordSum(PseudoHeader4(p)) == Pseudo4(p)
    ensures Correct4(p) <==> (WordSum(Transport4(p)) + Pseudo4(p)) % M == 0
  {
    var addrs, len := p[12..20], Short(Be16(p, 2) - Ihl(p));
    hide WordSum, Transport4;
    WordSumWord(addrs, 0, p[9]);
    WordSumWord(addrs + [0, p[9]], len[0], len[1]);
    assert |PseudoHeader4(p)| == 12;
    WordSumAppend(PseudoHeader4(p), Transport4(p));
  }

  lemma {:induction false} WordSumWord(b: seq<u8>, hi: u8, lo: u8)
    requires |b| % 2 == 0
    ensures WordSum(b + [hi, lo]) == WordSum(b) + 0x100 * hi + lo
  {
    assert [hi, lo][2..] == [];
    WordSumAppend(b, [hi, lo]);
  }

  lemma NonzeroSum(b: seq<u8>)
    requires |b| >= 2 && b[0] != 0
    ensures WordSum(b) != 0
  {
  }

  /** IPv4 accepts exactly the packets with a correct transport checksum and UDP packets sent without one. */
  lemma {:induction false} ValidateV4Exact(p: seq<u8>, trailer: u16)
    requires |p| >= 20 && HeaderValid(p) && Reaches(Transport4(p), p[9]) && TrailerOf(p, trailer)
    requires !IsFragment(p) && CsumOffset(p[9]).Some?
    ensures var noCsum := p[9] == PROTO_UDP && Be16(Transport4(p), 6) == 0;
      && (ValidateV4(p, trailer) == Skipped <==> noCsum)
      && (ValidateV4(p, trailer) == Ok <==> Correct4(p) && !noCsum)
  {
    var head, tail := p[..Ihl(p)], Transport4(p);
    assert p == head + tail;
    WordSumAppend(head, tail);
    var n, pseudo := Fold(WordSum(p)), Fold(Pseudo4(p));
    SubFull(n);
    PseudoBytes4(p);
    hide Add, Sub, Fold, Swap, WordSum, Compare, Cong, Pseudo, Correct4;
    CompareExact(p[9], n, pseudo, Be16(tail, CsumOffset(p[9]).value));
    SumsTo(WordSum(head), WordSum(tail), Pseudo4(p));
  }

  lemma SubFull(n: u16)
    ensures Sub(n, Swap(0xFFFF)) == n && Not(Not(n)) == n
  {
  }

  /** A header that sums to 0xFFFF contributes nothing. */
  lemma {:induction false} SumsTo(head: nat, tail: nat, pseudo: nat)
    requires Fold(head) == 0xFFFF
    ensures head > 0 && Fold(head + tail) != 0
    ensures (Fold(head + tail) + Fold(pseudo)) % M == 0 <==> (tail + pseudo) % M == 0
  {
    var n: int, h: int, p: int := Fold(head + tail), Fold(head), Fold(pseudo);
    assert Cong(n, head + tail) && Cong(h, head) && Cong(p, pseudo) && Cong(h, 0);
    hide Fold, Cong;
    CongAdd(n, head + tail, p, pseudo);
    CongSym(h, head);
    CongChain(head, h, 0);
    CongAdd(head, 0, tail + pseudo, tail + pseudo) by { CongSelf(tail + pseudo); }
    CongChain(n + p, head + tail + pseudo, tail + pseudo);
    CongZero(n + p, tail + pseudo);
  }

  lemma CongSelf(a: int)
    ensures Cong(a, a)
  {
  }

  function Transport6(p: seq<u8>): seq<u8> requires |p| >= 40 { p[40..] }

  /** Upper-layer length used in the pseudo header: the UDP length field, or the IPv6 payload length for TCP. */
  function UpperLength(p: seq<u8>): u16
    requires |p| >= 40 && (p[6] == PROTO_UDP ==> |p| >= 46)
  {
    if p[6] == PROTO_UDP then Be16(p, 44) else Be16(p, 4)
  }

  function Pseudo6(p: seq<u8>): nat
    requires |p| >= 40 && (p[6] == PROTO_UDP ==> |p| >= 46)
  {
    Pseudo(p[8..40], p[6], UpperLength(p))
  }

  /** rmnet_map_ipv6_dl_csum_trailer */
  function ValidateV6(p: seq<u8>, trailer: u16): Verdict
    requires |p| >= 40 && Reaches(Transport6(p), p[6])
  {
    if CsumOffset(p[6]).None? then BadTransport
    else
      var field := Be16(Transport6(p), CsumOffset(p[6]).value);
      var headerSum := Fold(WordSum(p[..40]));
      Compare(p[6], Sub(Not(trailer), headerSum), Fold(Pseudo6(p)), field)
  }

  /** The pseudo-header of section 8.1 of RFC 2460: addresses, the length in four bytes, three zero bytes, the type. */
  function PseudoHeader6(p: seq<u8>): seq<u8>
    requires |p| >= 40 && (p[6] == PROTO_UDP ==> |p| >= 46)
  {
    p[8..40] + Long(UpperLength(p)) + [0, 0, 0, p[6]]
  }

  predicate Correct6(p: seq<u8>)
    requires |p| >= 40 && (p[6] == PROTO_UDP ==> |p| >= 46)
  {
    WordSum(PseudoHeader6(p) + Transport6(p)) % M == 0
  }

  lemma {:induction false} PseudoBytes6(p: seq<u8>)
    requires |p| >= 40 && (p[6] == PROTO_UDP ==> |p| >= 46)
    ensures WordSum(PseudoHeader6(p)) == Pseudo6(p)
    ensures Correct6(p) <==> (WordSum(Transport6(p)) + Pseudo6(p)) % M == 0
  {
    PseudoTail(p[8..40], UpperLength(p), p[6]);
    assert |PseudoHeader6(p)| == 40;
    hide WordSum, Transport6, PseudoHeader6;
    WordSumAppend(PseudoHeader6(p), Transport6(p));
  }

  lemma {:induction false} PseudoTail(addrs: seq<u8>, len: u16, proto: u8)
    requires |addrs| % 2 == 0
    ensures WordSum(addrs + Long(len) + [0, 0, 0, proto]) == WordSum(addrs) + proto + len
  {
    var w := Short(len);
    hide WordSum;
    WordSumWord(addrs, 0, 0);
    WordSumWord(addrs + [0, 0], w[0], w[1]);
    WordSumWord(addrs + [0, 0] + [w[0], w[1]], 0, 0);
    WordSumWord(addrs + [0, 0] + [w[0], w[1]] + [0, 0], 0, proto);
    assert Long(len) == [0, 0, w[0], w[1]];
    Paired(addrs, w[0], w[1], proto);
  }

  lemma Paired(a: seq<u8>, x: u8, y: u8, z: u8)
    ensures a + [0, 0, x, y] + [0, 0, 0, z] == a + [0, 0] + [x, y] + [0, 0] + [0, z]
  {
  }

  /** IPv6 accepts exactly the packets with a correct transport checksum, and never UDP without one. */
  lemma {:induction false} ValidateV6Exact(p: seq<u8>, trailer: u16)
    requires |p| >= 40 && p[0] != 0 && Reaches(Transport6(p), p[6]) && TrailerOf(p, trailer) && CsumOffset(p[6]).Some?
    ensures ValidateV6(p, trailer) == Ok
       <==> Correct6(p) && !(p[6] == PROTO_UDP && Be16(Transport6(p), 6) == 0)
  {
    var head, tail := p[..40], Transport6(p);
    assert p == head + tail;
    WordSumAppend(head, tail);
    NonzeroSum(p);
    var n, h, pseudo := Fold(WordSum(p)), Fold(WordSum(head)), Fold(Pseudo6(p));
    var s := Sub(n, h);
    assert Not(trailer) == n;
    PseudoBytes6(p);
    hide Add, Fold, WordSum, Compare, Cong, Pseudo, Correct6;
    SubHeader(WordSum(head), WordSum(tail), Pseudo6(p));
    CompareExact(p[6], s, pseudo, Be16(tail, CsumOffset(p[6]).value));
  }

  lemma CongZero(a: int, b: int)
    requires Cong(a, b)
    ensures a % M == 0 <==> b % M == 0
  {
    var p := (a - b) / M;
    assert a - b == M * p;
    if b % M == 0 {
      assert a == M * (p + b / M);
    }
    if a % M == 0 {
      assert b == M * (a / M - p);
    }
  }

  /** Taking the header sum out of the packet sum leaves the transport sum. */
  lemma {:induction false} SubHeader(head: nat, tail: nat, pseudo: nat)
    requires head + tail > 0
    ensures Sub(Fold(head + tail), Fold(head)) != 0
    ensures (Sub(Fold(head + tail), Fold(head)) + Fold(pseudo)) % M == 0 <==> (tail + pseudo) % M == 0
  {
    var n: int, h: int, p: int := Fold(head + tail), Fold(head), Fold(pseudo);
    var d: int := Sub(Fold(head + tail), Fold(head));
    assert Cong(d, n + (M - h)) && n != 0;
    assert Cong(n, head + tail) && Cong(h, head) && Cong(p, pseudo);
    hide Fold, Add, Sub;
    CongAdd(n, head + tail, h, head);
    assert Cong(d, n - h);
    hide Cong;
    CongChain(d, n - h, tail);
    CongAdd(d, tail, p, pseudo);
    CongZero(d + p, tail + pseudo);
  }

  /**
   * The field written for a segment whose checksum is known to be bad: seed it with the pseudo-header sum, compute the
   * checksum, and add one; all in network byte order.
   */
  function Corrupted(transport: seq<u8>, k: nat, pseudo: nat): u16
    requires k + 2 <= |transport|
  {
    var seeded := Put16(transport, k, Fold(pseudo));
    Swap(Add(Swap(Not(Fold(WordSum(seeded)))), Swap(1)))
  }

  /** The corrupted field is never zero, and a segment that carries it sums to one, so it is never correct. */
  lemma {:induction false} CorruptedRejected(transport: seq<u8>, k: nat, pseudo: nat)
    requires k + 2 <= |transport| && k % 2 == 0 && pseudo > 0
    ensures var c := Corrupted(transport, k, pseudo);
      c != 0 && (WordSum(Put16(transport, k, c)) + pseudo) % M == 1
  {
    var f := Fold(pseudo);
    var seeded := Put16(transport, k, f);
    WordSumPut(transport, k, f);
    var n := WordSum(seeded);
    var x := Not(Fold(n));
    SwapAdd(x, 1);
    SwapTwice(Add(x, 1));
    var c := Corrupted(transport, k, pseudo);
    WordSumPut(transport, k, c);
    hide Add, Fold, Swap, WordSum, Cong, Put16;
    OneTooMany(WordSum(transport) - Be16(transport, k), pseudo);
  }

  /** Complementing a sum and adding one, put back into the sum, gives one. */
  lemma {:induction false} OneTooMany(rest: int, pseudo: nat)
    requires rest + Fold(pseudo) >= 0 && pseudo > 0
    ensures var c := Add(Not(Fold(rest + Fold(pseudo))), 1);
      c != 0 && (rest + c + pseudo) % M == 1
  {
    var f: int, x: int := Fold(pseudo), Not(Fold(rest + Fold(pseudo)));
    var c: int := Add(x, 1);
    assert Cong(f, pseudo) && Cong(M - x, rest + f) && Cong(c, x + 1);
    hide Add, Fold, Not;
    var p, q, t := (f - pseudo) / M, (M - x - (rest + f)) / M, (c - (x + 1)) / M;
    assert f - pseudo == M * p && M - x - (rest + f) == M * q && c - (x + 1) == M * t;
    assert rest + c + pseudo == 1 + M * (1 + t - q - p);
  }

  /** Packet p with the transport checksum field, `k` bytes into the transport header at `at`, set to v. */
  function WithField(p: seq<u8>, at: nat, k: nat, v: u16): seq<u8>
    requires at + k + 2 <= |p|
  {
    p[..at] + Put16(p[at..], k, v)
  }

  lemma {:induction false} WithFieldIs(p: seq<u8>, at: nat, k: nat, v: u16)
    requires at + k + 2 <= |p|
    ensures var q := WithField(p, at, k, v);
      && |q| == |p| && q[..at] == p[..at] && q[at..] == Put16(p[at..], k, v)
      && (forall i :: 0 <= i < at + k ==> q[i] == p[i])
      && Be16(q[at..], k) == v
  {
    var t := Put16(p[at..], k, v);
    assert t[k] == v / 0x100 && t[k + 1] == v % 0x100;
  }

  /** The IPv4 validator fails every packet marked bad this way, whatever it carries. */
  lemma {:induction false} CorruptedFailsV4(p: seq<u8>, trailer: u16)
    requires |p| >= 20 && HeaderValid(p) && !IsFragment(p) && CsumOffset(p[9]).Some? && Reaches(Transport4(p), p[9])
    ensures var k := CsumOffset(p[9]).value;
      var q := WithField(p, Ihl(p), k, Corrupted(Transport4(p), k, Pseudo4(p)));
      && |q| >= 20 && Ihl(q) <= |q| && q[9] == p[9] && Reaches(Transport4(q), q[9])
      && (TrailerOf(q, trailer) ==> ValidateV4(q, trailer) == Failed)
  {
    hide WordSum, Put16, Corrupted, ValidateV4, Fold;
    var k := CsumOffset(p[9]).value;
    var c := Corrupted(Transport4(p), k, Pseudo4(p));
    var q := WithField(p, Ihl(p), k, c);
    WithFieldIs(p, Ihl(p), k, c);
    CorruptedRejected(Transport4(p), k, Pseudo4(p));
    assert q[12..20] == p[12..20] && Be16(q, 2) == Be16(p, 2) && Be16(q, 6) == Be16(p, 6);
    if TrailerOf(q, trailer) {
      PseudoBytes4(q);
      ValidateV4Exact(q, trailer);
      V4Verdicts(q, trailer);
    }
  }

  lemma {:induction false} V4Verdicts(p: seq<u8>, trailer: u16)
    requires |p| >= 20 && Ihl(p) <= |p| && Reaches(Transport4(p), p[9]) && !IsFragment(p) && CsumOffset(p[9]).Some?
    ensures ValidateV4(p, trailer) in {Ok, Skipped, Failed}
  {
    hide WordSum, Fold, Swap, Sub, Pseudo;
  }

  /** So does the IPv6 validator. */
  lemma {:induction false} CorruptedFailsV6(p: seq<u8>, trailer: u16)
    requires |p| >= 40 && p[0] != 0 && CsumOffset(p[6]).Some? && Reaches(Transport6(p), p[6])
    ensures var k := CsumOffset(p[6]).value;
      var q := WithField(p, 40, k, Corrupted(Transport6(p), k, Pseudo6(p)));
      && |q| >= 40 && q[6] == p[6] && Reaches(Transport6(q), q[6])
      && (TrailerOf(q, trailer) ==> ValidateV6(q, trailer) == Failed)
  {
    hide WordSum, Put16, Corrupted, Fold, Swap, Sub;
    var k := CsumOffset(p[6]).value;
    var pseudo := Pseudo6(p);
    var c := Corrupted(Transport6(p), k, pseudo);
    var q := WithField(p, 40, k, c);
    WithFieldIs(p, 40, k, c);
    CorruptedRejected(Transport6(p), k, pseudo);
    assert q[8..40] == p[8..40] && UpperLength(q) == UpperLength(p);
    if TrailerOf(q, trailer) {
      PseudoBytes6(q);
      ValidateV6Exact(q, trailer);
    }
  }

  lemma {:induction false} SwapTwice(a: u16)
    ensures Swap(Swap(a)) == a
  {
    var hi: int, lo: int := a / 0x100, a % 0x100;
    var s: int := Swap(a);
    assert s == lo * 0x100 + hi && 0 <= hi < 0x100;
    assert s / 0x100 == lo && s % 0x100 == hi;
  }
}
