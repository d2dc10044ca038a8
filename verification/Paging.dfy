/** Four-level paging as in section 4.5 of the Intel SDM, volume 3A, with the
    entry format and the address arithmetic of src/kernel/mm/map.c. */
module Paging {
  import opened Basics

  /** A 64-bit entry, split into its fields: the address bits (everything above
      bit 10), present, read/write, user, the page-size bit, and the remaining
      flag bits. */
  datatype Entry = Entry(addr: nat, p: bool, rw: bool, us: bool, ps: bool, other: nat)

  const ZERO := Entry(0, false, false, false, false, 0)

  /** Physical memory as the paging hardware sees it: frame address to table. */
  type Memory = m: map<nat, seq<Entry>> | forall f <- m :: |m[f]| == 512

  const R: nat := 511

  // ----- addresses

  /** `n >> (9 * lv)`. */
  function Shr9(n: nat, lv: nat): nat {
    if lv == 0 then n else Shr9(n / 512, lv - 1)
  }

  /** `(v >> (lv * 9 + 12)) & 0x1FF`: the index at level `lv`, 3 being the root. */
  function Idx(v: nat, lv: nat): nat {
    Shr9(v / 0x1000, lv) % 512
  }

  function PathOf(v: nat): (d: seq<nat>)
    ensures |d| == 4 && Indices(d)
  {
    [Idx(v, 3), Idx(v, 2), Idx(v, 1), Idx(v, 0)]
  }

  /** A canonical address from its four indices. */
  function Vrt(a: nat, b: nat, c: nat, d: nat): nat {
    (if a > 255 then 0xFFFF_0000_0000_0000 else 0) +
    a * 0x80_0000_0000 + b * 0x4000_0000 + c * 0x20_0000 + d * 0x1000
  }

  lemma {:induction false} Unshift(n: nat, q: nat, r: nat)
    requires n == q * 512 + r && r < 512
    ensures n / 512 == q && n % 512 == r
  {
  }

  lemma {:induction false} ShrSteps(n: nat)
    ensures Shr9(n, 0) == n && Shr9(n, 1) == n / 512
    ensures Shr9(n, 2) == n / 512 / 512 && Shr9(n, 3) == n / 512 / 512 / 512
  {
    var q1 := n / 512;
    var q2 := q1 / 512;
    assert Shr9(n, 1) == Shr9(q1, 0);
    assert Shr9(n, 2) == Shr9(q1, 1) == Shr9(q2, 0);
    assert Shr9(n, 3) == Shr9(q1, 2) == Shr9(q2, 1) == Shr9(q2 / 512, 0);
  }

  lemma {:induction false} VrtPath(a: nat, b: nat, c: nat, d: nat)
    requires a < 512 && b < 512 && c < 512 && d < 512
    ensures PathOf(Vrt(a, b, c, d)) == [a, b, c, d]
  {
    hide Shr9;
    var top := if a > 255 then 0xFFFF else 0;
    var x3 := top * 512 + a;
    var x2 := x3 * 512 + b;
    var x1 := x2 * 512 + c;
    var x0 := x1 * 512 + d;
    assert Vrt(a, b, c, d) == x0 * 0x1000;
    Unshift(x0, x1, d);
    Unshift(x1, x2, c);
    Unshift(x2, x3, b);
    Unshift(x3, top, a);
    ShrSteps(x0);
  }

  /** The indices are bits 47 to 39, 38 to 30, 29 to 21 and 20 to 12 of the address. */
  lemma {:induction false} PathBits(v: nat)
    ensures PathOf(v) == [v / 0x80_0000_0000 % 512, v / 0x4000_0000 % 512, v / 0x20_0000 % 512, v / 0x1000 % 512]
  {
    hide Shr9;
    ShrSteps(v / 0x1000);
    DivDiv(v, 0x1000, 512);
    DivDiv(v, 0x20_0000, 512);
    DivDiv(v, 0x4000_0000, 512);
  }

  /** The virtual page number: the 36 translated bits above the page offset. */
  function Page(v: nat): nat {
    v / 0x1000 % 0x10_0000_0000
  }

  function Digits(p: nat): seq<nat> {
    [Shr9(p, 3) % 512, Shr9(p, 2) % 512, Shr9(p, 1) % 512, p % 512]
  }

  function Number(d: seq<nat>): nat
    requires |d| == 4
  {
    ((d[0] * 512 + d[1]) * 512 + d[2]) * 512 + d[3]
  }

  predicate Indices(d: seq<nat>) {
    forall i :: 0 <= i < |d| ==> d[i] < 512
  }

  lemma {:induction false} DigitsNumber(p: nat)
    requires p < 0x10_0000_0000
    ensures Number(Digits(p)) == p && Indices(Digits(p))
    ensures Digits(p)[0] < R <==> p < R * 0x800_0000
  {
    hide Shr9;
    var q1 := p / 512;
    var q2 := q1 / 512;
    var q3 := q2 / 512;
    ShrSteps(p);
    assert q3 < 512 && q3 % 512 == q3;
    assert Digits(p) == [q3, q2 % 512, q1 % 512, p % 512];
    assert p == q1 * 512 + p % 512 && q1 == q2 * 512 + q1 % 512 && q2 == q3 * 512 + q2 % 512;
  }

  /** Bits above the translated ones do not reach the lower indices. */
  lemma {:induction false} DropHigh(n: nat, h: nat, p: nat, k: nat)
    requires n == h * k * 512 + p
    ensures n / 512 == h * k + p / 512 && n % 512 == p % 512
  {
    Unshift(n, h * k + p / 512, p % 512);
  }

  lemma {:induction false} PathIsDigits(v: nat)
    ensures PathOf(v) == Digits(Page(v))
    ensures Page(v) < 0x10_0000_0000
  {
    hide Shr9;
    var n := v / 0x1000;
    var h, p := n / 0x10_0000_0000, n % 0x10_0000_0000;
    var p1 := p / 512;
    var p2 := p1 / 512;
    var p3 := p2 / 512;
    DropHigh(n, h, p, 0x800_0000);
    DropHigh(h * 0x800_0000 + p1, h, p1, 0x4_0000);
    DropHigh(h * 0x4_0000 + p2, h, p2, 0x200);
    DropHigh(h * 0x200 + p3, h, p3, 1);
    ShrSteps(n);
    ShrSteps(p);
    assert n / 512 == h * 0x800_0000 + p1;
    assert n / 512 / 512 == h * 0x4_0000 + p2;
    assert n / 512 / 512 / 512 == h * 0x200 + p3;
    assert Digits(p) == [p3 % 512, p2 % 512, p1 % 512, p % 512];
  }

  lemma {:induction false} NextPage(v: nat)
    requires Page(v) + 1 < 0x10_0000_0000
    ensures Page((v + 0x1000) % 0x1_0000_0000_0000_0000) == Page(v) + 1
  {
    var n, off := v / 0x1000, v % 0x1000;
    var h, p := n / 0x10_0000_0000, n % 0x10_0000_0000;
    var v' := (v + 0x1000) % 0x1_0000_0000_0000_0000;
    var g := (v + 0x1000) / 0x1_0000_0000_0000_0000;
    assert v' == (h * 0x10_0000_0000 + p + 1) * 0x1000 + off - g * 0x1_0000_0000_0000_0000;
    assert v' / 0x1000 == h * 0x10_0000_0000 + p + 1 - g * 0x10_0000_0000_0000;
    assert v' / 0x1000 == (h - g * 0x1_0000) * 0x10_0000_0000 + (p + 1);
  }

  // ----- walking the tables

  /** The frame reached from frame `f` by following `path` through present entries. */
  function Follow(m: Memory, f: nat, path: seq<nat>): Option<nat>
    requires Indices(path)
    decreases path
  {
    if path == [] then Some(f)
    else if f in m && m[f][path[0]].p then Follow(m, m[f][path[0]].addr, path[1..])
    else None
  }

  lemma {:induction false} FollowSplit(m: Memory, f: nat, a: seq<nat>, b: seq<nat>)
    requires Indices(a) && Indices(b)
    ensures Indices(a + b)
    ensures Follow(m, f, a + b) ==
              match Follow(m, f, a) { case None => None case Some(g) => Follow(m, g, b) }
    decreases a
  {
    if a == [] {
      assert a + b == b;
    } else {
      assert (a + b)[1..] == a[1..] + b;
      if f in m && m[f][a[0]].p {
        FollowSplit(m, m[f][a[0]].addr, a[1..], b);
      }
    }
  }

  lemma {:induction false} FollowSnoc(m: Memory, f: nat, q: seq<nat>)
    requires q != [] && Indices(q)
    ensures Follow(m, f, q) ==
              match Follow(m, f, q[..|q| - 1])
              case None => None
              case Some(g) =>
                if g in m && m[g][q[|q| - 1]].p then Some(m[g][q[|q| - 1]].addr) else None
  {
    var a, b := q[..|q| - 1], [q[|q| - 1]];
    assert q == a + b;
    FollowSplit(m, f, a, b);
    assert b[1..] == [];
  }

  /** The recursive slot of the root table points back to the root. */
  ghost predicate Recursive(m: Memory, root: nat) {
    root in m && m[root][R].p && m[root][R].addr == root
  }

  lemma {:induction false} SelfLoop(m: Memory, root: nat, q: seq<nat>)
    requires Recursive(m, root) && Indices(q)
    ensures Indices([R] + q)
    ensures Follow(m, root, [R] + q) == Follow(m, root, q)
  {
    assert ([R] + q)[1..] == q;
  }

  /** The virtual address of the table that holds the level-`lv` entry of `v`. */
  function EntryGet(v: nat, lv: nat): nat
    requires lv <= 3
  {
    if lv == 3 then Vrt(R, R, R, R)
    else if lv == 2 then Vrt(R, R, R, Idx(v, 3))
    else if lv == 1 then Vrt(R, R, Idx(v, 3), Idx(v, 2))
    else Vrt(R, Idx(v, 3), Idx(v, 2), Idx(v, 1))
  }

  /** Translating the recursive address reaches exactly the table frame that a
      direct walk of `v` reaches at the same level. */
  lemma {:induction false} RecursiveReaches(m: Memory, root: nat, v: nat, lv: nat)
    requires Recursive(m, root) && lv <= 3
    ensures Follow(m, root, PathOf(EntryGet(v, lv))) == Follow(m, root, PathOf(v)[..3 - lv])
  {
    hide Idx, Vrt, PathOf, Follow;
    PathIsDigits(v);
    DigitsNumber(Page(v));
    var d := Digits(Page(v));
    PathParts(v);
    var q := d[..3 - lv];
    SelfLoop(m, root, q);
    if lv == 0 {
      VrtPath(R, d[0], d[1], d[2]);
      assert [R] + q == [R, d[0], d[1], d[2]];
    } else {
      SelfLoop(m, root, [R] + q);
      if lv == 1 {
        VrtPath(R, R, d[0], d[1]);
        assert [R] + ([R] + q) == [R, R, d[0], d[1]];
      } else {
        SelfLoop(m, root, [R] + ([R] + q));
        if lv == 2 {
          VrtPath(R, R, R, d[0]);
          assert [R] + ([R] + ([R] + q)) == [R, R, R, d[0]];
        } else {
          SelfLoop(m, root, [R] + ([R] + ([R] + q)));
          VrtPath(R, R, R, R);
          assert [R] + ([R] + ([R] + ([R] + q))) == [R, R, R, R];
        }
      }
    }
  }

  lemma {:induction false} PathParts(v: nat)
    ensures PathOf(v) == [Idx(v, 3), Idx(v, 2), Idx(v, 1), Idx(v, 0)]
  {
  }

  ghost predicate SameStep(m: Memory, m': Memory, g: nat, i: nat)
    requires i < 512
  {
    && (g in m && m[g][i].p <==> g in m' && m'[g][i].p)
    && (g in m && m[g][i].p && g in m' && m'[g][i].p ==> m[g][i].addr == m'[g][i].addr)
  }

  /** Two memories that agree on every step along a path follow it alike. */
  lemma {:induction false} FollowAgree(m: Memory, m': Memory, root: nat, q: seq<nat>)
    requires Indices(q)
    requires forall k :: 0 <= k < |q| && Follow(m, root, q[..k]).Some? ==>
               SameStep(m, m', Follow(m, root, q[..k]).value, q[k])
    ensures Follow(m', root, q) == Follow(m, root, q)
    decreases |q|
  {
    if q != [] {
      var a := q[..|q| - 1];
      forall k | 0 <= k < |a| && Follow(m, root, a[..k]).Some?
        ensures SameStep(m, m', Follow(m, root, a[..k]).value, a[k])
      {
        assert a[..k] == q[..k];
      }
      FollowAgree(m, m', root, a);
      FollowSnoc(m, root, q);
      FollowSnoc(m', root, q);
    }
  }

  // ----- address spaces

  /** Paths from the root to a table, outside the recursive slot. */
  ghost predicate TablePath(q: seq<nat>) {
    |q| <= 3 && Indices(q) && (q != [] ==> q[0] != R)
  }

  /** Paths from the root to a page, outside the recursive slot. */
  ghost predicate PagePath(d: seq<nat>) {
    |d| == 4 && Indices(d) && d[0] != R
  }

  ghost predicate SameTable(m: Memory, root: nat, q: seq<nat>, r: seq<nat>)
    requires Indices(q) && Indices(r)
  {
    Follow(m, root, q).Some? && Follow(m, root, q) == Follow(m, root, r)
  }

  /** The tables form a tree of distinct frames. */
  ghost predicate Tree(m: Memory, root: nat) {
    && (forall q :: TablePath(q) && Follow(m, root, q).Some? ==> Follow(m, root, q).value in m)
    && (forall q, r :: TablePath(q) && TablePath(r) && SameTable(m, root, q, r) ==> q == r)
  }

  /** The entry of the page at path `d`; zero where a table is missing. */
  ghost function Leaf(m: Memory, root: nat, d: seq<nat>): Entry
    requires |d| == 4 && Indices(d)
  {
    match Follow(m, root, d[..3])
    case Some(f) => if f in m then m[f][d[3]] else ZERO
    case None => ZERO
  }

  /** The entry through which the table at path `q` is reached. */
  ghost function Inner(m: Memory, root: nat, q: seq<nat>): Entry
    requires q != [] && Indices(q)
  {
    match Follow(m, root, q[..|q| - 1])
    case Some(f) => if f in m then m[f][q[|q| - 1]] else ZERO
    case None => ZERO
  }

  /** Table entries are writable and never huge pages. */
  ghost predicate InnerOpen(m: Memory, root: nat) {
    forall q :: TablePath(q) && q != [] && Follow(m, root, q).Some? ==>
      Inner(m, root, q).rw && !Inner(m, root, q).ps
  }

  /** Every table above a user page is user accessible. */
  ghost predicate UserOpen(m: Memory, root: nat) {
    forall d, k :: PagePath(d) && 1 <= k <= 3 && Leaf(m, root, d).p && Leaf(m, root, d).us ==>
      Inner(m, root, d[..k]).us
  }

  /** A well-formed address space; `free` are the frames still with the page allocator. */
  ghost predicate Space(m: Memory, root: nat, free: set<nat>) {
    && Recursive(m, root)
    && Tree(m, root)
    && free <= m.Keys
    && (forall f <- free :: f % 0x1000 == 0)
    && (forall q :: TablePath(q) && Follow(m, root, q).Some? ==> Follow(m, root, q).value !in free)
    && InnerOpen(m, root)
    && UserOpen(m, root)
  }

  function Poke(m: Memory, f: nat, i: nat, e: Entry): Memory
    requires f in m && i < 512
  {
    m[f := m[f][i := e]]
  }
}
