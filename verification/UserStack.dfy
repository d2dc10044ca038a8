/** Bytes, words and strings in user memory, as far as building and reading the
    initial stack needs them. An address is an index into the memory. */
module UserStack {
  import opened Basics

  type Memory = seq<Byte>

  /** A C string, without its terminator. */
  type CString = s: seq<Byte> | forall c <- s :: c != 0

  const WORD: nat := 0x1_0000_0000_0000_0000

  // ----- stretches of memory

  /** The bytes `bs` stand at address `a`. */
  predicate At(m: Memory, a: nat, bs: seq<Byte>) {
    a + |bs| <= |m| && m[a..a + |bs|] == bs
  }

  function Write(m: Memory, a: nat, bs: seq<Byte>): Memory
    requires a + |bs| <= |m|
  {
    m[..a] + bs + m[a + |bs|..]
  }

  /** Nothing changed outside [lo, hi). */
  ghost predicate Within(m: Memory, m': Memory, lo: nat, hi: nat) {
    |m'| == |m| && forall i :: 0 <= i < |m| && !(lo <= i < hi) ==> m'[i] == m[i]
  }

  lemma {:induction false} WriteAt(m: Memory, a: nat, bs: seq<Byte>)
    requires a + |bs| <= |m|
    ensures At(Write(m, a, bs), a, bs)
    ensures Within(m, Write(m, a, bs), a, a + |bs|)
  {
  }

  lemma {:induction false} AtKept(m: Memory, m': Memory, lo: nat, hi: nat, a: nat, bs: seq<Byte>)
    requires At(m, a, bs) && Within(m, m', lo, hi) && (a + |bs| <= lo || hi <= a)
    ensures At(m', a, bs)
  {
  }

  lemma {:induction false} AtSplit(m: Memory, a: nat, x: seq<Byte>, y: seq<Byte>)
    ensures At(m, a, x + y) <==> At(m, a, x) && At(m, a + |x|, y)
  {
    if a + |x| + |y| <= |m| {
      assert m[a..a + |x| + |y|] == m[a..a + |x|] + m[a + |x|..a + |x| + |y|];
      if At(m, a, x + y) {
        assert m[a..a + |x|] == (x + y)[..|x|] == x;
        assert m[a + |x|..a + |x| + |y|] == (x + y)[|x|..] == y;
      }
    }
  }

  // ----- little-endian words

  function Encode(v: nat, n: nat): (bs: seq<Byte>)
    ensures |bs| == n
  {
    if n == 0 then [] else [v % 256] + Encode(v / 256, n - 1)
  }

  function Decode(bs: seq<Byte>): nat {
    if bs == [] then 0 else bs[0] + 256 * Decode(bs[1..])
  }

  lemma {:induction false} EncodeRoundTrip(v: nat, n: nat)
    requires v < Pow256(n)
    ensures Decode(Encode(v, n)) == v
  {
    if n > 0 {
      EncodeRoundTrip(v / 256, n - 1);
      assert Encode(v, n)[1..] == Encode(v / 256, n - 1);
    }
  }

  /** The bytes stand from the least significant one up. */
  lemma {:induction false} EncodeByte(v: nat, n: nat, i: nat)
    requires i < n
    ensures Encode(v, n)[i] == v / Pow256(i) % 256
  {
    if i > 0 {
      EncodeByte(v / 256, n - 1, i - 1);
      DivDiv(v, 256, Pow256(i - 1));
    }
  }

  function Word(v: nat): (bs: seq<Byte>)
    ensures |bs| == 8
  {
    Encode(v, 8)
  }

  function Load(m: Memory, a: nat): nat
    requires a + 8 <= |m|
  {
    Decode(m[a..a + 8])
  }

  lemma {:induction false} LoadStored(m: Memory, a: nat, v: nat)
    requires At(m, a, Word(v)) && v < WORD
    ensures Load(m, a) == v
  {
    assert Pow256(2) == 0x1_0000 && Pow256(4) == 0x1_0000_0000;
    assert Pow256(6) == 0x1_0000_0000_0000 && Pow256(8) == WORD;
    EncodeRoundTrip(v, 8);
  }

  function Words(vs: seq<nat>): (bs: seq<Byte>)
    ensures |bs| == 8 * |vs|
  {
    if vs == [] then [] else Word(vs[0]) + Words(vs[1..])
  }

  lemma {:induction false} WordsSplit(x: seq<nat>, y: seq<nat>)
    ensures Words(x + y) == Words(x) + Words(y)
  {
    if x == [] {
      assert x + y == y;
    } else {
      assert (x + y)[1..] == x[1..] + y;
      WordsSplit(x[1..], y);
    }
  }

  /** Reading entry `i` of a table of words. */
  lemma {:induction false} LoadWords(m: Memory, a: nat, vs: seq<nat>, i: nat)
    requires At(m, a, Words(vs)) && i < |vs| && vs[i] < WORD
    ensures a + 8 * i + 8 <= |m| && Load(m, a + 8 * i) == vs[i]
  {
    hide At, Word, Words, Load;
    assert vs == vs[..i] + ([vs[i]] + vs[i + 1..]);
    WordsSplit(vs[..i], [vs[i]] + vs[i + 1..]);
    WordsSplit([vs[i]], vs[i + 1..]);
    OneWord(vs[i]);
    AtSplit(m, a, Words(vs[..i]), Words([vs[i]] + vs[i + 1..]));
    AtSplit(m, a + 8 * i, Word(vs[i]), Words(vs[i + 1..]));
    AtBounds(m, a + 8 * i, Word(vs[i]));
    LoadStored(m, a + 8 * i, vs[i]);
  }

  lemma {:induction false} OneWord(v: nat)
    ensures Words([v]) == Word(v)
  {
    assert [v][1..] == [];
  }

  lemma {:induction false} AtBounds(m: Memory, a: nat, bs: seq<Byte>)
    requires At(m, a, bs)
    ensures a + |bs| <= |m|
  {
  }

  // ----- strings

  /** The string at address `a`, up to its terminator or the end of memory. */
  function ReadString(m: Memory, a: nat): (s: seq<Byte>)
    decreases |m| - a
  {
    if a >= |m| || m[a] == 0 then [] else [m[a]] + ReadString(m, a + 1)
  }

  function Terminated(s: CString): seq<Byte> {
    s + [0]
  }

  lemma {:induction false} ReadStored(m: Memory, a: nat, s: CString)
    requires At(m, a, Terminated(s))
    ensures ReadString(m, a) == s
    decreases s
  {
    assert m[a..a + |s| + 1] == s + [0];
    if s == [] {
      assert m[a] == (s + [0])[0];
    } else {
      assert m[a] == s[0];
      assert Terminated(s) == [s[0]] + Terminated(s[1..]);
      AtSplit(m, a, [s[0]], Terminated(s[1..]));
      ReadStored(m, a + 1, s[1..]);
    }
  }

  function TotalLen(arr: seq<CString>): nat {
    if arr == [] then 0 else |arr[0]| + 1 + TotalLen(arr[1..])
  }

  /** The strings one after the other, each with its terminator. */
  function Flat(arr: seq<CString>): (bs: seq<Byte>)
    ensures |bs| == TotalLen(arr)
  {
    if arr == [] then [] else Terminated(arr[0]) + Flat(arr[1..])
  }

  /** The addresses of the strings of `arr` laid out from `p` on. */
  function Addresses(p: nat, arr: seq<CString>): (vs: seq<nat>)
    ensures |vs| == |arr|
    decreases arr
  {
    if arr == [] then [] else [p] + Addresses(p + |arr[0]| + 1, arr[1..])
  }

  lemma {:induction false} FlatSnoc(p: nat, arr: seq<CString>, s: CString)
    ensures Flat(arr + [s]) == Flat(arr) + Terminated(s)
    ensures TotalLen(arr + [s]) == TotalLen(arr) + |s| + 1
    ensures Addresses(p, arr + [s]) == Addresses(p, arr) + [p + TotalLen(arr)]
  {
    FlatOnly(arr, s);
    AddressesSnoc(p, arr, s);
  }

  lemma {:induction false} FlatOnly(arr: seq<CString>, s: CString)
    ensures Flat(arr + [s]) == Flat(arr) + Terminated(s)
    decreases arr
  {
    hide Terminated;
    if arr == [] {
      assert arr + [s] == [s] && [s][1..] == [];
    } else {
      assert (arr + [s])[1..] == arr[1..] + [s];
      FlatOnly(arr[1..], s);
    }
  }

  lemma {:induction false} AddressesSnoc(p: nat, arr: seq<CString>, s: CString)
    ensures TotalLen(arr + [s]) == TotalLen(arr) + |s| + 1
    ensures Addresses(p, arr + [s]) == Addresses(p, arr) + [p + TotalLen(arr)]
    decreases arr
  {
    hide Flat;
    if arr == [] {
      assert arr + [s] == [s] && [s][1..] == [];
    } else {
      assert (arr + [s])[1..] == arr[1..] + [s];
      AddressesSnoc(p + |arr[0]| + 1, arr[1..], s);
    }
  }

  /** String `i` of a flat layout starts at its address, which lies inside it. */
  lemma {:induction false} FlatAt(m: Memory, p: nat, arr: seq<CString>, i: nat)
    requires At(m, p, Flat(arr)) && i < |arr|
    ensures At(m, Addresses(p, arr)[i], Terminated(arr[i]))
    ensures p <= Addresses(p, arr)[i] && Addresses(p, arr)[i] + |arr[i]| + 1 <= p + TotalLen(arr)
    decreases arr
  {
    AtSplit(m, p, Terminated(arr[0]), Flat(arr[1..]));
    if i > 0 {
      FlatAt(m, p + |arr[0]| + 1, arr[1..], i - 1);
    }
  }
}
