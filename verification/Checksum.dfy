/**
 * The Internet checksum (RFC 1071) as ICMP, IP and TCP compute it: 16-bit words are
 * added up in 32 bits and the carries folded in afterwards.
 */
module Checksum {
  import opened Basics

  const U16 := 0x1_0000
  const U32 := 0x1_0000_0000

  function Pair(lo: int, hi: int): int {
    lo + 256 * hi
  }

  /** The little-endian 16-bit words of the data added up; an odd last byte counts as a low byte. */
  function Sum(d: seq<Byte>): nat {
    if |d| == 0 then 0 else if |d| == 1 then d[0] else Pair(d[0], d[1]) + Sum(d[2..])
  }

  /** The one's complement sum of words that add up to `s`: carries folded in until none is left. */
  function Folded(s: nat): nat {
    if s < U16 then s else Folded(s % U16 + s / U16)
  }

  /** The fold in closed form: the remainder modulo 65535, with 65535 for a non-zero multiple of it. */
  function Residue(s: nat): (r: nat)
    ensures r <= 0xFFFF && (r == 0 <==> s == 0)
  {
    if s == 0 then 0 else 1 + (s - 1) % 0xFFFF
  }

  lemma {:induction false} ResidueStep(s: nat)
    ensures Residue(s % U16 + s / U16) == Residue(s)
  {
    var h, l := s / U16, s % U16;
    assert s == h * 0xFFFF + (h + l);
    if s > 0 {
      assert h + l > 0;
      Remove(h + l - 1, h);
    }
  }

  lemma {:induction false} Remove(a: nat, k: nat)
    ensures (k * 0xFFFF + a) % 0xFFFF == a % 0xFFFF
  {
  }

  lemma {:induction false} FoldedIsResidue(s: nat)
    ensures Folded(s) == Residue(s)
  {
    if s >= U16 {
      ResidueStep(s);
      FoldedIsResidue(s % U16 + s / U16);
    }
  }

  /** Two steps fold every 32-bit sum completely. */
  lemma {:induction false} TwoSteps(s: nat)
    requires s < U32
    ensures var t := s / U16 + s % U16; (t + t / U16) % U16 == Folded(s)
  {
    var t := s / U16 + s % U16;
    ResidueStep(s);
    FoldedIsResidue(s);
    if t >= U16 {
      assert t / U16 == 1 && t % U16 == t - U16;
      ResidueStep(t);
    }
  }

  /** The checksum of a sum. */
  function Complement(s: nat): (c: nat)
    ensures c <= 0xFFFF
  {
    FoldedIsResidue(s);
    0xFFFF - Folded(s)
  }

  // ----- adding up in 32 bits

  /** The low 32 bits. */
  function Low(s: nat): (l: nat)
    ensures l < U32
  {
    s % U32
  }

  lemma {:induction false} WrapAdd(t: nat, w: nat)
    ensures Low(Low(t) + w) == Low(t + w)
  {
  }

  lemma {:induction false} LowOf(s: nat)
    requires s < U32
    ensures Low(s) == s
  {
  }

  /** The low 32 bits of the sum, by the loops of the code. */
  method AddWords(d: seq<Byte>, init: nat, ghost before: nat) returns (s: nat)
    requires init == Low(before)
    ensures s == Low(before + Sum(d))
  {
    hide Low;
    s := init;
    var p, len := 0, |d|;
    ghost var t: nat := before;
    while len > 1
      invariant 0 <= t && 0 <= p <= |d| && len == |d| - p && s == Low(t) && t + Sum(d[p..]) == before + Sum(d)
      decreases len
    {
      assert d[p..][2..] == d[p + 2..];
      WrapAdd(t, Pair(d[p], d[p + 1]));
      s := Low(s + Pair(d[p], d[p + 1]));
      t := t + Pair(d[p], d[p + 1]);
      p := p + 2;
      len := len - 2;
    }
    if len == 1 {
      WrapAdd(t, d[p]);
      s := Low(s + d[p]);
    }
  }

  /** ICMP: two steps of folding. */
  method Icmp(d: seq<Byte>) returns (c: nat)
    ensures c == Complement(Low(Sum(d)))
  {
    hide Sum, Folded;
    LowOf(0);
    var s := AddWords(d, 0, 0);
    TwoSteps(s);
    s := s / U16 + s % U16;
    s := s + s / U16;
    c := 0xFFFF - s % U16;
  }

  /** IP: a header of twenty bytes, folded by a loop. */
  method Ip(d: seq<Byte>) returns (c: nat)
    requires |d| >= 20
    ensures c == Complement(Sum(d[..20]))
  {
    hide Sum, Low;
    LowOf(0);
    var s := AddWords(d[..20], 0, 0);
    SumFits(d[..20]);
    LowOf(Sum(d[..20]));
    ghost var all := s;
    while s / U16 != 0
      invariant s >= 0 && Folded(s) == Folded(all)
      decreases s
    {
      Shrinks(s);
      s := s % U16 + s / U16;
    }
    c := 0xFFFF - s;
  }

  lemma {:induction false} Shrinks(s: nat)
    requires s / U16 != 0
    ensures s >= U16 && s % U16 + s / U16 < s
  {
  }

  const IP_P_TCP := 6

  /** The pseudo-header: addresses, a zero byte, the protocol, and the length in network order. */
  function Pseudo(sip: seq<Byte>, dip: seq<Byte>, len: nat): (h: seq<Byte>)
    requires |sip| == 4 && |dip| == 4
    ensures |h| == 12
  {
    sip + dip + [0, IP_P_TCP, len / 256 % 256, len % 256]
  }

  /** What the pseudo-header adds: both addresses as two words each, protocol 6 in an upper byte, and the
      length with its bytes swapped. */
  lemma {:induction false} PseudoSum(sip: seq<Byte>, dip: seq<Byte>, len: nat)
    requires |sip| == 4 && |dip| == 4
    ensures Sum(Pseudo(sip, dip, len)) ==
              (sip[0] + 256 * sip[1]) + (sip[2] + 256 * sip[3]) + (dip[0] + 256 * dip[1]) + (dip[2] + 256 * dip[3])
              + 6 * 256 + (len / 256 % 256 + 256 * (len % 256))
  {
    var h := Pseudo(sip, dip, len);
    assert h[..4] == sip && h[4..8] == dip && h[8..] == [0, IP_P_TCP, len / 256 % 256, len % 256];
    assert Sum(h[10..]) == len / 256 % 256 + 256 * (len % 256);
    assert h[8..][2..] == h[10..] && h[6..][2..] == h[8..] && h[4..][2..] == h[6..] && h[2..][2..] == h[4..];
    assert Sum(h[8..]) == 6 * 256 + Sum(h[10..]);
    assert Sum(h[4..]) == (dip[0] + 256 * dip[1]) + (dip[2] + 256 * dip[3]) + Sum(h[8..]);
  }

  /** TCP: the segment and the pseudo-header, two steps of folding. */
  method Tcp(d: seq<Byte>, sip: seq<Byte>, dip: seq<Byte>) returns (c: nat)
    requires |sip| == 4 && |dip| == 4
    ensures c == Complement(Low(Sum(d) + Sum(Pseudo(sip, dip, |d|))))
  {
    hide Sum, Folded, Low, Pseudo;
    LowOf(0);
    var s := AddWords(d, 0, 0);
    s := AddWords(Pseudo(sip, dip, |d|), s, Sum(d));
    TwoSteps(s);
    s := s / U16 + s % U16;
    s := s + s / U16;
    c := 0xFFFF - s % U16;
  }

  // ----- byte order

  /** The sum of the words in network order, as RFC 1071 has it. */
  function NetworkSum(d: seq<Byte>): nat {
    if |d| == 0 then 0 else if |d| == 1 then 256 * d[0] else Pair(d[1], d[0]) + NetworkSum(d[2..])
  }

  function Swap(v: nat): nat
    requires v <= 0xFFFF
  {
    v / 256 + 256 * (v % 256)
  }

  /** In network order the sum is 256 times as much, but for multiples of 65535. */
  lemma {:induction false} NetworkScales(d: seq<Byte>) returns (k: nat)
    ensures NetworkSum(d) + k * 0xFFFF == 256 * Sum(d)
    ensures NetworkSum(d) == 0 <==> Sum(d) == 0
  {
    k := 0;
    if |d| > 1 {
      var j := NetworkScales(d[2..]);
      k := j + d[1];
    }
  }

  lemma {:induction false} ResidueOf(s: nat, k: nat)
    requires s > 0
    ensures Residue(s + k * 0xFFFF) == Residue(s)
  {
    Remove(s - 1, k);
  }

  lemma {:induction false} SwapScales(r: nat)
    requires 0 < r <= 0xFFFF
    ensures Residue(256 * r) == Swap(r)
  {
    var h, l := r / 256, r % 256;
    assert 256 * r == Swap(r) + h * 0xFFFF && 0 < Swap(r) <= 0xFFFF;
    ResidueOf(Swap(r), h);
    ResidueSmall(Swap(r));
  }

  lemma {:induction false} ResidueSmall(r: nat)
    requires r <= 0xFFFF
    ensures Residue(r) == r
  {
  }

  lemma {:induction false} ResidueScales(s: nat)
    ensures Residue(256 * s) == Swap(Residue(s))
  {
    hide Swap;
    NothingLeft();
    if s > 0 {
      var q, r := (s - 1) / 0xFFFF, Residue(s);
      assert s == r + q * 0xFFFF;
      hide Residue;
      ResidueOf(256 * r, 256 * q);
      SwapScales(r);
    }
  }

  /** The checksum, whose bytes the code stores as it computed them, is the one of RFC 1071 in network order. */
  lemma {:induction false} NetworkOrder(d: seq<Byte>)
    ensures Complement(NetworkSum(d)) == Swap(Complement(Sum(d)))
  {
    hide Residue, Sum, NetworkSum, Folded;
    FoldedIsResidue(NetworkSum(d));
    FoldedIsResidue(Sum(d));
    var k := NetworkScales(d);
    ResidueScales(Sum(d));
    if NetworkSum(d) > 0 {
      ResidueOf(NetworkSum(d), k);
    } else {
      NothingLeft();
    }
    SwapComplement(Residue(Sum(d)));
  }

  lemma {:induction false} NothingLeft()
    ensures Residue(0) == 0 && Swap(0) == 0
  {
  }

  lemma {:induction false} SwapComplement(r: nat)
    requires r <= 0xFFFF
    ensures 0xFFFF - Swap(r) == Swap(0xFFFF - r)
  {
    var h, l := r / 256, r % 256;
    assert 0xFFFF - r == 256 * (255 - h) + (255 - l);
  }

  // ----- verifying

  /** At most 65537 words add up to a 32-bit number. */
  lemma {:induction false} SumFits(d: seq<Byte>)
    ensures Sum(d) <= (|d| + 1) / 2 * 0xFFFF
    ensures |d| <= 131074 ==> Sum(d) < U32
  {
    if |d| > 1 {
      SumFits(d[2..]);
    }
  }

  function WordAt(d: seq<Byte>, k: nat): nat
    requires 2 * k + 1 < |d|
  {
    Pair(d[2 * k], d[2 * k + 1])
  }

  /** The data with `v` stored in word `k`. */
  function Store(d: seq<Byte>, k: nat, v: nat): seq<Byte>
    requires 2 * k + 1 < |d| && v < U16
  {
    d[..2 * k] + [v % 256, v / 256] + d[2 * k + 2..]
  }

  lemma {:induction false} StoreSum(d: seq<Byte>, k: nat, v: nat)
    requires 2 * k + 1 < |d| && v < U16
    ensures Sum(Store(d, k, v)) == Sum(d) - WordAt(d, k) + v
    decreases k
  {
    var e := Store(d, k, v);
    if k == 0 {
      assert e[2..] == d[2..];
      assert Pair(e[0], e[1]) == v;
    } else {
      assert e[2..] == Store(d[2..], k - 1, v);
      StoreSum(d[2..], k - 1, v);
      assert WordAt(d[2..], k - 1) == WordAt(d, k);
    }
  }

  /** Adding the complement of a sum makes its own complement zero. */
  lemma {:induction false} ComplementCancels(s: nat)
    ensures Complement(s + Complement(s)) == 0
  {
    hide Folded;
    FoldedIsResidue(s);
    FoldedIsResidue(s + Complement(s));
    if s > 0 {
      var q := (s - 1) / 0xFFFF;
      assert s - 1 == q * 0xFFFF + (s - 1) % 0xFFFF;
      assert s + Complement(s) == (q + 1) * 0xFFFF;
      Remove(0xFFFE, q);
    }
  }

  /** A checksum stored in the zeroed field makes the recomputed checksum zero; `extra` is the
      sum of a pseudo-header. */
  lemma {:induction false} StoredVerifies(d: seq<Byte>, k: nat, extra: nat)
    requires 2 * k + 1 < |d| && WordAt(d, k) == 0 && Sum(d) + extra + 0xFFFF < U32
    ensures var c := Complement(Low(Sum(d) + extra)); Complement(Low(Sum(Store(d, k, c)) + extra)) == 0
  {
    hide Sum, Complement, Store, WordAt, Low;
    LowOf(Sum(d) + extra);
    var c := Complement(Sum(d) + extra);
    LowOf(Sum(d) + extra + c);
    StoreSum(d, k, c);
    ComplementCancels(Sum(d) + extra);
  }

  /** The bound of `StoredVerifies` holds for at most 65537 words, the pseudo-header included. */
  lemma {:induction false} RoomForChecksum(d: seq<Byte>, k: nat, extra: nat, words: nat)
    requires 2 * k + 1 < |d| && WordAt(d, k) == 0
    requires extra <= words * 0xFFFF && (|d| + 1) / 2 + words <= 65537
    ensures Sum(d) + extra + 0xFFFF < U32
  {
    hide Sum;
    StoreSum(d, k, 0xFFFF);
    SumFits(Store(d, k, 0xFFFF));
  }

  /** Sender and receiver of a TCP segment agree. */
  method TcpVerifies(d: seq<Byte>, k: nat, sip: seq<Byte>, dip: seq<Byte>) returns (c: nat, again: nat)
    requires |sip| == 4 && |dip| == 4 && 2 * k + 1 < |d| && WordAt(d, k) == 0
    requires (|d| + 1) / 2 + 6 <= 65537
    ensures c <= 0xFFFF && again == 0
  {
    hide Sum, Complement, WordAt, Low, Pseudo;
    var extra := Pseudo(sip, dip, |d|);
    SumFits(extra);
    c := Tcp(d, sip, dip);
    RoomForChecksum(d, k, Sum(extra), 6);
    StoredVerifies(d, k, Sum(extra));
    assert |Store(d, k, c)| == |d|;
    again := Tcp(Store(d, k, c), sip, dip);
  }

  method IcmpVerifies(d: seq<Byte>, k: nat) returns (c: nat, again: nat)
    requires 2 * k + 1 < |d| && WordAt(d, k) == 0 && (|d| + 1) / 2 <= 65537
    ensures c <= 0xFFFF && again == 0
  {
    hide Sum, Complement, WordAt, Low;
    c := Icmp(d);
    RoomForChecksum(d, k, 0, 0);
    StoredVerifies(d, k, 0);
    again := Icmp(Store(d, k, c));
  }

  method IpVerifies(d: seq<Byte>, k: nat) returns (c: nat, again: nat)
    requires |d| == 20 && k < 10 && WordAt(d, k) == 0
    ensures c <= 0xFFFF && again == 0
  {
    hide Sum, Complement, WordAt, Low;
    c := Ip(d);
    assert d[..20] == d;
    RoomForChecksum(d, k, 0, 0);
    StoredVerifies(d, k, 0);
    LowOf(Sum(d));
    var e := Store(d, k, c);
    assert e[..20] == e;
    SumFits(e);
    LowOf(Sum(e));
    again := Ip(e);
  }
}
