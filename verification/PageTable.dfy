/** Editing the current page table through its recursive slot, as
    src/kernel/mm/map.c does, refines updates of a flat map from virtual page to
    entry. */
module PageTable {
  import opened Basics
  import opened Paging
  import opened SpaceEdits
  import opened TableCopy
  import opened Isolation

  datatype Flags = Flags(p: bool, rw: bool, us: bool, ps: bool, other: nat)

  const NOFLAGS := Flags(false, false, false, false, 0)

  /** Pages below the recursive slot. */
  const LIMIT: nat := R * 0x800_0000

  const WORD: nat := 0x1_0000_0000_0000_0000

  /** `ADDR(phy) | FLAG(flgs)`. */
  function MakeEntry(phy: nat, g: Flags): Entry {
    Entry(phy / 0x800 * 0x800, g.p, g.rw, g.us, g.ps, g.other)
  }

  ghost function Flat(m: Memory, root: nat, p: nat): Entry
    requires p < LIMIT
  {
    DigitsNumber(p);
    Leaf(m, root, Digits(p))
  }

  lemma {:induction false} DigitsPath(p: nat)
    requires p < LIMIT
    ensures PagePath(Digits(p)) && Number(Digits(p)) == p
  {
    DigitsNumber(p);
  }

  // ----- access rights

  /** User-mode access as in section 4.6 of the Intel SDM, volume 3A: allowed when
      every entry of the walk allows it. */
  ghost predicate UserMay(m: Memory, f: nat, path: seq<nat>)
    requires Indices(path)
    decreases path
  {
    path == [] || (f in m && m[f][path[0]].p && m[f][path[0]].us && UserMay(m, m[f][path[0]].addr, path[1..]))
  }

  ghost predicate WriteMay(m: Memory, f: nat, path: seq<nat>)
    requires Indices(path)
    decreases path
  {
    path == [] || (f in m && m[f][path[0]].p && m[f][path[0]].rw && WriteMay(m, m[f][path[0]].addr, path[1..]))
  }

  lemma {:induction false} MaySnoc(m: Memory, f: nat, path: seq<nat>)
    requires Indices(path) && path != []
    ensures var a, i := path[..|path| - 1], path[|path| - 1];
            var e := Inner(m, f, path);
            && (UserMay(m, f, path) <==> UserMay(m, f, a) && e.p && e.us)
            && (WriteMay(m, f, path) <==> WriteMay(m, f, a) && e.p && e.rw)
            && (UserMay(m, f, a) || WriteMay(m, f, a) ==> Follow(m, f, a).Some?)
    decreases path
  {
    var a := path[..|path| - 1];
    if |path| == 1 {
      assert a == [] && path[1..] == [];
    } else {
      assert a[1..] == path[1..][..|path| - 2];
      if f in m && m[f][path[0]].p {
        MaySnoc(m, m[f][path[0]].addr, path[1..]);
      }
    }
  }

  /** The effective rights of a page are exactly its own flags. */
  lemma {:induction false} RightsExact(m: Memory, root: nat, free: set<nat>, d: seq<nat>)
    requires Space(m, root, free) && PagePath(d)
    ensures UserMay(m, root, d) <==> Leaf(m, root, d).p && Leaf(m, root, d).us
    ensures WriteMay(m, root, d) <==> Leaf(m, root, d).p && Leaf(m, root, d).rw
  {
    MaySnoc(m, root, d);
    if Leaf(m, root, d).p {
      TablesOpen(m, root, free, d, 3);
    }
  }

  lemma {:induction false} TablesOpen(m: Memory, root: nat, free: set<nat>, d: seq<nat>, k: nat)
    requires Space(m, root, free) && PagePath(d) && k <= 3 && Leaf(m, root, d).p
    ensures WriteMay(m, root, d[..k])
    ensures Leaf(m, root, d).us ==> UserMay(m, root, d[..k])
  {
    if k > 0 {
      var q := d[..k];
      assert q[..k - 1] == d[..k - 1];
      TablesOpen(m, root, free, d, k - 1);
      LeafHasTables(m, root, d, k);
      FollowSnoc(m, root, q);
      MaySnoc(m, root, q);
      assert TablePath(q);
    }
  }

  /** Page `p` of a mapping of `phy` from page `first` on: its effective rights are those of the flags `g`,
      and its entry leads to its own frame, exactly for a frame address and within 2048 bytes otherwise. */
  ghost predicate Grants(m: Memory, root: nat, phy: nat, first: nat, p: nat, g: Flags)
    requires first <= p < LIMIT
  {
    DigitsNumber(p);
    var frame := (phy + (p - first) * 0x1000) % WORD;
    && (WriteMay(m, root, Digits(p)) <==> g.p && g.rw)
    && (UserMay(m, root, Digits(p)) <==> g.p && g.us)
    && var e := Flat(m, root, p);
    && e.p == g.p && e.ps == g.ps && e.other == g.other
    && e.addr % 0x800 == 0 && e.addr <= frame < e.addr + 0x800 && (frame % 0x1000 == 0 ==> e.addr == frame)
  }

  lemma {:induction false} EntryGrants(m: Memory, root: nat, free: set<nat>, phy: nat, first: nat, p: nat, g: Flags)
    requires Space(m, root, free) && first <= p < LIMIT
    requires Flat(m, root, p) == MakeEntry((phy + (p - first) * 0x1000) % WORD, g)
    ensures Grants(m, root, phy, first, p, g)
  {
    hide Space, Leaf, Digits, UserMay, WriteMay;
    DigitsPath(p);
    RightsExact(m, root, free, Digits(p));
    EntryAddress((phy + (p - first) * 0x1000) % WORD, g);
  }

  lemma {:induction false} EntryAddress(phy: nat, g: Flags)
    ensures var a := MakeEntry(phy, g).addr;
      a % 0x800 == 0 && a <= phy < a + 0x800 && (phy % 0x1000 == 0 ==> a == phy)
  {
    if phy % 0x1000 == 0 {
      var q := phy / 0x1000;
      assert phy == 0x800 * (2 * q);
      assert phy / 0x800 == 2 * q;
    }
  }

  /** All pages of a mapping at once. */
  lemma {:induction false} MapGrants(m: Memory, root: nat, free: set<nat>, phy: nat, first: nat, num: nat, g: Flags)
    requires Space(m, root, free) && first + num <= LIMIT
    requires forall p :: first <= p < first + num ==> Flat(m, root, p) == MakeEntry((phy + (p - first) * 0x1000) % WORD, g)
    ensures forall p :: first <= p < first + num ==> Grants(m, root, phy, first, p, g)
  {
    hide Space, Flat, MakeEntry, Grants;
    forall p | first <= p < first + num ensures Grants(m, root, phy, first, p, g) {
      EntryGrants(m, root, free, phy, first, p, g);
    }
  }

  /** Page `p` is not there: nobody may read or write it. */
  ghost predicate Absent(m: Memory, root: nat, p: nat)
    requires p < LIMIT
  {
    DigitsNumber(p);
    !Flat(m, root, p).p && !WriteMay(m, root, Digits(p)) && !UserMay(m, root, Digits(p))
  }

  lemma {:induction false} UnmapAbsent(m: Memory, root: nat, free: set<nat>, first: nat, num: nat)
    requires Space(m, root, free) && first + num <= LIMIT
    requires forall p :: first <= p < first + num ==> Flat(m, root, p) == ZERO
    ensures forall p :: first <= p < first + num ==> Absent(m, root, p)
  {
    hide Space, Leaf, Digits, UserMay, WriteMay;
    forall p | first <= p < first + num ensures Absent(m, root, p) {
      DigitsPath(p);
      RightsExact(m, root, free, Digits(p));
    }
  }

  /** What fork does to a page, as seen from `root`: in the user half nobody may write it any more, and
      frame, presence and user access are as before; in the kernel half all rights are. */
  ghost predicate SharedCopy(m0: Memory, root0: nat, m: Memory, root: nat, p: nat)
    requires p < LIMIT
  {
    DigitsNumber(p);
    && (WriteMay(m, root, Digits(p)) <==> p >= USER && WriteMay(m0, root0, Digits(p)))
    && (UserMay(m, root, Digits(p)) <==> UserMay(m0, root0, Digits(p)))
    && Flat(m, root, p).addr == Flat(m0, root0, p).addr && Flat(m, root, p).p == Flat(m0, root0, p).p
  }

  lemma {:induction false} ForkShares(m0: Memory, root0: nat, free0: set<nat>, m: Memory, root: nat, free: set<nat>)
    requires Space(m0, root0, free0) && Space(m, root, free)
    requires forall p :: 0 <= p < LIMIT ==>
               if p < USER then Protects(Flat(m0, root0, p), Flat(m, root, p)) else Flat(m, root, p) == Flat(m0, root0, p)
    ensures forall p :: 0 <= p < LIMIT ==> SharedCopy(m0, root0, m, root, p)
  {
    hide Space, Leaf, Digits, UserMay, WriteMay;
    forall p | 0 <= p < LIMIT ensures SharedCopy(m0, root0, m, root, p) {
      var e0, e := Flat(m0, root0, p), Flat(m, root, p);
      assert if p < USER then Protects(e0, e) else e == e0;
      DigitsPath(p);
      RightsExact(m0, root0, free0, Digits(p));
      RightsExact(m, root, free, Digits(p));
    }
  }

  // ----- queries

  /** Bitwise or. */
  function Or(a: nat, b: nat): nat {
    if a == 0 then b
    else if b == 0 then a
    else 2 * Or(a / 2, b / 2) + if a % 2 == 1 || b % 2 == 1 then 1 else 0
  }

  function Pow2(k: nat): (p: nat)
    ensures p > 0
  {
    if k == 0 then 1 else 2 * Pow2(k - 1)
  }

  /** Or of numbers that share no bit is their sum. */
  lemma {:induction false} OrAdds(a: nat, q: nat, b: nat, k: nat)
    requires a == q * Pow2(k) && b < Pow2(k)
    ensures Or(a, b) == a + b
    decreases k
  {
    if k > 0 && a > 0 && b > 0 {
      var half := q * Pow2(k - 1);
      assert a == 2 * half by {
        Double(q, Pow2(k - 1));
      }
      OrAdds(half, q, b / 2, k - 1);
    }
  }

  lemma {:induction false} Double(q: nat, p: nat)
    ensures q * (2 * p) == 2 * (q * p)
  {
  }

  /** The offset is added to the address of a frame. */
  lemma {:induction false} OrOffset(a: nat, b: nat)
    requires a % 0x1000 == 0 && b < 0x1000
    ensures Or(a, b) == a + b
  {
    assert Pow2(4) == 16;
    assert Pow2(8) == 256;
    assert Pow2(12) == 0x1000;
    OrAdds(a, a / 0x1000, b, 12);
  }

  /** `qry_walk`, reading every entry through its recursive address; `None` is a
      page fault. */
  function QryWalk(m: Memory, root: nat, v: nat, lv: nat): Option<nat>
    requires lv <= 3
  {
    match Follow(m, root, PathOf(EntryGet(v, lv)))
    case None => None
    case Some(t) =>
      if t !in m then None
      else
        var e := m[t][Idx(v, lv)];
        if !e.p then Some(0)
        else if lv == 0 then Some(Or(e.addr, v % 0x1000))
        else if lv == 1 && e.ps then Some(Or(e.addr, v % 0x20_0000))
        else if lv == 2 && e.ps then Some(Or(e.addr, v % 0x4000_0000))
        else QryWalk(m, root, v, lv - 1)
  }

  /** A query never faults and answers from the flat map: zero for a page that is
      not present, else the page's address plus the offset of `v`. */
  lemma {:induction false} QueryIsFlat(m: Memory, root: nat, free: set<nat>, v: nat)
    requires Space(m, root, free) && Page(v) < LIMIT
    ensures QryWalk(m, root, v, 3) ==
              Some(if Flat(m, root, Page(v)).p then Or(Flat(m, root, Page(v)).addr, v % 0x1000) else 0)
    ensures Flat(m, root, Page(v)).addr % 0x1000 == 0 ==>
              QryWalk(m, root, v, 3) ==
                Some(if Flat(m, root, Page(v)).p then Flat(m, root, Page(v)).addr + v % 0x1000 else 0)
  {
    hide Or;
    PathIsDigits(v);
    DigitsPath(Page(v));
    QueryFrom(m, root, free, v, 3);
    if Flat(m, root, Page(v)).addr % 0x1000 == 0 {
      OrOffset(Flat(m, root, Page(v)).addr, v % 0x1000);
    }
  }

  lemma {:induction false} QueryFrom(m: Memory, root: nat, free: set<nat>, v: nat, lv: nat)
    requires Space(m, root, free) && PagePath(PathOf(v)) && lv <= 3
    requires Follow(m, root, PathOf(v)[..3 - lv]).Some?
    ensures var e := Leaf(m, root, PathOf(v));
            QryWalk(m, root, v, lv) == Some(if e.p then Or(e.addr, v % 0x1000) else 0)
    decreases lv
  {
    hide Idx, EntryGet, Or;
    var d := PathOf(v);
    PathParts(v);
    RecursiveReaches(m, root, v, lv);
    assert TablePath(d[..3 - lv]);
    var t := Follow(m, root, d[..3 - lv]).value;
    assert t in m && Idx(v, lv) == d[3 - lv];
    if lv > 0 {
      var q := d[..4 - lv];
      assert q[..|q| - 1] == d[..3 - lv] && TablePath(q);
      FollowSnoc(m, root, q);
      if m[t][d[3 - lv]].p {
        QueryFrom(m, root, free, v, lv - 1);
      } else if Leaf(m, root, d).p {
        LeafHasTables(m, root, d, 4 - lv);
      }
    }
  }

  // ----- edits

  /** The first `k` table entries along `d` are the same. */
  ghost predicate SameAbove(m: Memory, m': Memory, root: nat, d: seq<nat>, k: nat)
    requires |d| == 4 && Indices(d) && k <= 3
  {
    forall j :: 1 <= j <= k ==> Inner(m', root, d[..j]) == Inner(m, root, d[..j])
  }

  lemma {:induction false} KeepsAll(m: Memory, root: nat, d: seq<nat>, k: nat)
    requires |d| == 4 && Indices(d) && k <= 3
    ensures SameLeaves(m, m, root) && SameAbove(m, m, root, d, k)
  {
  }

  /** Everything the user-bit write does, for the walk of `d` at depth `k`. */
  lemma {:induction false} OpenEffect(m: Memory, root: nat, free: set<nat>, d: seq<nat>, k: nat)
    requires Space(m, root, free) && PagePath(d) && k <= 2 && PathOpen(m, root, d, k)
    requires Follow(m, root, d[..k]).Some? && Follow(m, root, d[..k + 1]).Some?
    ensures var t := Follow(m, root, d[..k]).value;
            && Recursive(m, root) && t in m
            && var m' := Poke(m, t, d[k], m[t][d[k]].(us := true));
            && Space(m', root, free)
            && SameLeaves(m, m', root)
            && Follow(m', root, d[..k + 1]).Some?
            && PathOpen(m', root, d, k + 1)
  {
    hide PathOf, Idx, Follow, Inner, SameLeaves;
    var p, i := d[..k], d[k];
    var t := Follow(m, root, p).value;
    assert TablePath(p) && d[..k + 1] == p + [i] && TablePath(p + [i]);
    FollowSnoc(m, root, p + [i]);
    assert (p + [i])[..|p|] == p;
    OpenedSpace(m, root, free, p, t, i);
    OpenedWalks(m, root, free, p, t, i);
    forall j | 1 <= j <= k + 1 ensures Inner(Opened(m, t, i), root, d[..j]).us {
      assert TablePath(d[..j]);
      OpenedInner(m, root, free, p, t, i, d[..j]);
    }
  }

  /** What `walk` reads at level `lv` through the recursive address. */
  lemma {:induction false} WalkReads(m: Memory, root: nat, free: set<nat>, vrt: nat, lv: nat)
    requires Space(m, root, free) && PagePath(PathOf(vrt)) && 1 <= lv <= 3
    requires Follow(m, root, PathOf(vrt)[..3 - lv]).Some?
    ensures Follow(m, root, PathOf(EntryGet(vrt, lv))) == Follow(m, root, PathOf(vrt)[..3 - lv])
    ensures var t := Follow(m, root, PathOf(vrt)[..3 - lv]).value;
            && t in m && Idx(vrt, lv) == PathOf(vrt)[3 - lv] < 512
            && (m[t][Idx(vrt, lv)].p <==> Follow(m, root, PathOf(vrt)[..4 - lv]).Some?)
            && (Follow(m, root, PathOf(vrt)[..4 - lv]).None? ==> Follow(m, root, PathOf(vrt)[..3]).None?)
  {
    hide Idx, EntryGet, Follow;
    var d := PathOf(vrt);
    PathParts(vrt);
    RecursiveReaches(m, root, vrt, lv);
    var q := d[..4 - lv];
    assert q[..|q| - 1] == d[..3 - lv] && TablePath(d[..3 - lv]);
    FollowSnoc(m, root, q);
    if Follow(m, root, d[..3]).Some? {
      PrefixReached(m, root, d[..3], 4 - lv);
      assert d[..3][..4 - lv] == q;
    }
  }

  lemma {:induction false} RootTable(m: Memory, root: nat, d: seq<nat>)
    requires |d| == 4 && Indices(d)
    ensures Follow(m, root, d[..0]).Some? && PathOpen(m, root, d, 0)
  {
    assert d[..0] == [];
  }

  /** What the final write of a page entry does. */
  lemma {:induction false} WalkEnds(m: Memory, root: nat, free: set<nat>, vrt: nat, e: Entry)
    requires Space(m, root, free) && PagePath(PathOf(vrt))
    requires Follow(m, root, PathOf(vrt)[..3]).Some?
    requires e.p && e.us ==> PathOpen(m, root, PathOf(vrt), 3)
    ensures Follow(m, root, PathOf(EntryGet(vrt, 0))).Some?
    ensures var t := Follow(m, root, PathOf(EntryGet(vrt, 0))).value;
            && t in m && Idx(vrt, 0) < 512
            && var m' := Poke(m, t, Idx(vrt, 0), e);
            && Space(m', root, free)
            && forall c :: PagePath(c) ==> Leaf(m', root, c) == if c == PathOf(vrt) then e else Leaf(m, root, c)
  {
    hide Idx, EntryGet, Follow;
    var d := PathOf(vrt);
    PathParts(vrt);
    RecursiveReaches(m, root, vrt, 0);
    assert TablePath(d[..3]);
    LeafSetSpace(m, root, free, d, Follow(m, root, d[..3]).value, e);
  }

  lemma {:induction false} EntryFlags(phy: nat, g: Flags)
    ensures MakeEntry(phy, g).p == g.p && MakeEntry(phy, g).us == g.us
  {
  }

  lemma {:induction false} WrapAdd(a: nat, b: nat)
    ensures (a % WORD + b) % WORD == (a + b) % WORD
  {
    var q, r := a / WORD, a % WORD;
    var s, t := (r + b) / WORD, (r + b) % WORD;
    assert a + b == (q + s) * WORD + t;
  }

  /** Pages of the user half. */
  const USER: nat := 256 * 0x800_0000

  lemma {:induction false} CopyBegins(m: Memory, root: nat, free: set<nat>)
    requires Space(m, root, free)
    ensures Copying(m, m, Lowest(m, root, 3), map[], free, free)
  {
  }

  lemma {:induction false} CopyForks(m0: Memory, root: nat, m: Memory, npg: nat, own: map<nat, seq<nat>>, free0: set<nat>, free: set<nat>)
    requires Space(m0, root, free0) && Tables(m0, root, 3, Lowest(m0, root, 3), free0)
    requires CopyOk(m0, m0, m, Lowest(m0, root, 3), map[], own, free0, free, root, npg, 3, [])
    requires npg in m && root in m0 && KernelHalf(m0[root], m[npg], npg)
    ensures Forked(m0, root, m, npg, own, free0, free)
  {
    hide Lowest, Copied, KernelHalf, Space;
    var pts := Lowest(m0, root, 3);
    TablesLinked(m0, root, 3, pts, free0);
    forall f <- pts ensures f in m && f in m0 && m[f] == ReadOnlyTable(m0[f]) {
      var s := LowestPath(m0, root, 3, f);
      LowestKnown(m0, root, free0, s, f);
    }
  }

  lemma {:induction false} LowestKnown(m0: Memory, root: nat, free0: set<nat>, s: seq<nat>, f: nat)
    requires Space(m0, root, free0) && |s| == 3 && Indices(s) && s[0] < 256 && Follow(m0, root, s) == Some(f)
    ensures f in m0 && f !in free0
  {
    assert TablePath(s);
  }

  lemma {:induction false} DigitsHalf(p: nat)
    requires p < LIMIT
    ensures PagePath(Digits(p)) && (Digits(p)[0] < 256 <==> p < USER)
  {
    DigitsPath(p);
  }

  lemma {:induction false} ForkFlat(m0: Memory, root: nat, m: Memory, npg: nat, own: map<nat, seq<nat>>, free0: set<nat>, free: set<nat>)
    requires Forked(m0, root, m, npg, own, free0, free)
    ensures forall p :: 0 <= p < LIMIT ==>
              Flat(m, npg, p) == Flat(m, root, p) ==
                if p < USER then ReadOnly(Flat(m0, root, p)) else Flat(m0, root, p)
    ensures forall p :: 0 <= p < LIMIT && p < USER ==> Protects(Flat(m0, root, p), Flat(m, root, p))
  {
    hide Forked, Leaf, Digits;
    forall p | 0 <= p < LIMIT
      ensures Flat(m, npg, p) == Flat(m, root, p) ==
                if p < USER then ReadOnly(Flat(m0, root, p)) else Flat(m0, root, p)
      ensures p < USER ==> Protects(Flat(m0, root, p), Flat(m, root, p))
    {
      DigitsHalf(p);
      ParentLeaf(m0, root, m, npg, own, free0, free, Digits(p));
      ChildLeaf(m0, root, m, npg, own, free0, free, Digits(p));
    }
  }

  lemma {:induction false} ForkTables(m0: Memory, root: nat, m: Memory, npg: nat, own: map<nat, seq<nat>>, free0: set<nat>, free: set<nat>)
    requires Forked(m0, root, m, npg, own, free0, free)
    ensures npg in free0
    ensures forall q :: TablePath(q) && Follow(m, npg, q).Some? ==>
              (Follow(m, npg, q).value in free0 <==> q == [] || q[0] < 256)
    ensures forall q :: TablePath(q) ==> Follow(m, root, q) == Follow(m0, root, q)
    ensures forall q :: TablePath(q) && q != [] ==> Inner(m, root, q) == Inner(m0, root, q)
  {
    hide Forked, Inner, Follow;
    ForkedFrom(m0, root, m, npg, own, free0, free);
    RootIsTable(m, npg);
    ChildWalk(m0, root, m, npg, own, free0, free, []);
    OwnedFrames(m0, root, m, npg, own, free0, free);
    forall q | TablePath(q) && Follow(m, npg, q).Some?
      ensures Follow(m, npg, q).value in free0 <==> q == [] || q[0] < 256
    {
      ChildWalk(m0, root, m, npg, own, free0, free, q);
    }
    forall q | TablePath(q)
      ensures Follow(m, root, q) == Follow(m0, root, q) && (q != [] ==> Inner(m, root, q) == Inner(m0, root, q))
    {
      ParentKept(m0, root, m, npg, own, free0, free, q);
    }
  }

  const TABLE := Flags(true, true, false, false, 0)

  lemma {:induction false} FrameEntry(n: nat)
    requires n % 0x1000 == 0
    ensures MakeEntry(n, TABLE) == TableEntry(n)
  {
    var q := n / 0x1000;
    assert n == 0x800 * (2 * q);
    assert n / 0x800 == 2 * q;
  }

  /** Everything one table link does, for the walk of `d` at depth `k`. */
  lemma {:induction false} LinkEffect(m: Memory, root: nat, free: set<nat>, d: seq<nat>, k: nat, n: nat)
    requires Space(m, root, free) && PagePath(d) && k <= 2 && n in free
    requires Follow(m, root, d[..k]).Some? && Follow(m, root, d[..k + 1]).None?
    ensures var t := Follow(m, root, d[..k]).value;
            && Recursive(m, root) && t in m
            && var m1 := Poke(m, t, d[k], MakeEntry(n, TABLE));
            && Recursive(m1, root) && Follow(m1, root, d[..k + 1]) == Some(n)
            && var m' := m1[n := EmptyTable()];
            && Space(m', root, free - {n})
            && SameLeaves(m, m', root)
            && SameAbove(m, m', root, d, k)
            && Follow(m', root, d[..k]).Some? && Follow(m', root, d[..k + 1]).Some?
  {
    hide PathOf, Idx, Follow, Inner, SameLeaves, MakeEntry;
    var p, i := d[..k], d[k];
    var t := Follow(m, root, p).value;
    assert TablePath(p) && d[..k + 1] == p + [i] && TablePath(p + [i]);
    FollowSnoc(m, root, p + [i]);
    assert (p + [i])[..|p|] == p;
    assert CanLink(m, root, free, p, t, i, n);
    FrameEntry(n);
    LinkReaches(m, root, free, p, t, i, n);
    LinkedSpace(m, root, free, p, t, i, n);
    var m' := LinkTable(m, t, i, n);
    forall j | 1 <= j <= k ensures Inner(m', root, d[..j]) == Inner(m, root, d[..j]) {
      assert TablePath(d[..j]) && p[..j] == d[..j];
      PrefixReached(m, root, p, j);
    }
    PrefixReached(m', root, p + [i], k);
  }

  // ----- edits of user pages stay inside the space

  lemma {:induction false} LinkConfined(m: Memory, root: nat, free: set<nat>, d: seq<nat>, k: nat, n: nat)
    requires Space(m, root, free) && PagePath(d) && k <= 2 && n in free
    requires Follow(m, root, d[..k]).Some? && Follow(m, root, d[..k + 1]).None?
    ensures var t := Follow(m, root, d[..k]).value;
            && t in m
            && (d[0] < 256 ==>
                  Confined(m, Poke(m, t, d[k], MakeEntry(n, TABLE))[n := EmptyTable()], root, free, free - {n}))
  {
    hide Follow, Confined, MakeEntry, InnerOpen, UserOpen, Recursive;
    var p, i := d[..k], d[k];
    assert TablePath(p) && d[..k + 1] == p + [i] && (p + [i])[..|p|] == p;
    FollowSnoc(m, root, p + [i]);
    FrameEntry(n);
    if d[0] < 256 {
      ConfinedLink(m, root, free, p, Follow(m, root, p).value, i, n);
    }
  }

  lemma {:induction false} OpenConfined(m: Memory, root: nat, free: set<nat>, d: seq<nat>, k: nat)
    requires Space(m, root, free) && PagePath(d) && d[0] < 256 && k <= 2
    requires Follow(m, root, d[..k]).Some? && Follow(m, root, d[..k + 1]).Some?
    ensures var t := Follow(m, root, d[..k]).value;
            t in m && Confined(m, Poke(m, t, d[k], m[t][d[k]].(us := true)), root, free, free)
  {
    hide Follow, Confined, InnerOpen, UserOpen, Leaf;
    var p, i := d[..k], d[k];
    assert TablePath(p) && d[..k + 1] == p + [i] && (p + [i])[..|p|] == p;
    FollowSnoc(m, root, p + [i]);
    var t := Follow(m, root, p).value;
    OpenedWalks(m, root, free, p, t, i);
    ConfinedPoke(m, root, free, p, t, i, m[t][i].(us := true));
  }

  lemma {:induction false} OpenedConfined(m0: Memory, m: Memory, root: nat, free0: set<nat>, free: set<nat>, d: seq<nat>, k: nat)
    requires Space(m, root, free) && PagePath(d) && k <= 2
    requires d[0] < 256 ==> Confined(m0, m, root, free0, free)
    requires Follow(m, root, d[..k]).Some? && Follow(m, root, d[..k + 1]).Some?
    ensures var t := Follow(m, root, d[..k]).value;
            t in m && (d[0] < 256 ==> Confined(m0, Poke(m, t, d[k], m[t][d[k]].(us := true)), root, free0, free))
  {
    hide Follow, Confined, InnerOpen, UserOpen, Leaf;
    assert TablePath(d[..k]);
    if d[0] < 256 {
      OpenConfined(m, root, free, d, k);
      var t := Follow(m, root, d[..k]).value;
      ConfinedThen(m0, m, Poke(m, t, d[k], m[t][d[k]].(us := true)), root, free0, free, free);
    }
  }

  lemma {:induction false} LeafConfined(m: Memory, root: nat, free: set<nat>, d: seq<nat>, e: Entry)
    requires Space(m, root, free) && PagePath(d) && d[0] < 256 && Follow(m, root, d[..3]).Some?
    ensures var t := Follow(m, root, d[..3]).value; t in m && Confined(m, Poke(m, t, d[3], e), root, free, free)
  {
    hide Follow, Confined, InnerOpen, UserOpen, Inner;
    assert TablePath(d[..3]);
    var t := Follow(m, root, d[..3]).value;
    LeafSetTables(m, root, free, d, t, e);
    ConfinedPoke(m, root, free, d[..3], t, d[3], e);
  }

  lemma {:induction false} SetConfined(m0: Memory, m: Memory, root: nat, free0: set<nat>, free: set<nat>, vrt: nat, e: Entry)
    requires Space(m, root, free) && PagePath(PathOf(vrt)) && Follow(m, root, PathOf(vrt)[..3]).Some?
    requires PathOf(vrt)[0] < 256 ==> Confined(m0, m, root, free0, free)
    ensures Follow(m, root, PathOf(EntryGet(vrt, 0))).Some?
    ensures var t := Follow(m, root, PathOf(EntryGet(vrt, 0))).value;
            && t in m && Idx(vrt, 0) < 512
            && (PathOf(vrt)[0] < 256 ==> Confined(m0, Poke(m, t, Idx(vrt, 0), e), root, free0, free))
  {
    hide Idx, EntryGet, Follow, Confined, InnerOpen, UserOpen;
    var d := PathOf(vrt);
    PathParts(vrt);
    RecursiveReaches(m, root, vrt, 0);
    assert TablePath(d[..3]) && Idx(vrt, 0) == d[3];
    if d[0] < 256 {
      LeafConfined(m, root, free, d, e);
      ConfinedThen(m0, m, Poke(m, Follow(m, root, d[..3]).value, d[3], e), root, free0, free, free);
    }
  }

  lemma {:induction false} SpaceRoot(m: Memory, root: nat, free: set<nat>)
    requires Space(m, root, free)
    ensures root in m
  {
  }

  // ----- the empty space

  lemma {:induction false} EmptyPaths(m: Memory, root: nat, q: seq<nat>)
    requires root in m && m[root] == EmptyTable()[R := TableEntry(root)] && TablePath(q)
    ensures Follow(m, root, q) == if q == [] then Some(root) else None
  {
  }

  lemma {:induction false} EmptySpace(m: Memory, root: nat, free: set<nat>)
    requires root in m && m[root] == EmptyTable()[R := TableEntry(root)]
    requires free <= m.Keys && root !in free && forall f <- free :: f % 0x1000 == 0
    ensures Space(m, root, free)
  {
    hide Follow;
    forall q | TablePath(q) ensures Follow(m, root, q) == if q == [] then Some(root) else None {
      EmptyPaths(m, root, q);
    }
    forall d | PagePath(d) ensures Leaf(m, root, d) == ZERO {
      assert TablePath(d[..3]);
    }
  }

  class AddressSpace {
    var mem: Memory
    var root: nat
    var free: set<nat>

    ghost predicate Valid()
      reads this
    {
      Space(mem, root, free)
    }

    /** A cleared root table with its recursive slot, and frames for more tables. */
    constructor (top: nat, frames: Memory)
      requires top !in frames && forall f <- frames :: f % 0x1000 == 0
      ensures Valid() && root == top && free == frames.Keys
      ensures forall p :: 0 <= p < LIMIT ==> Flat(mem, root, p) == ZERO
    {
      root, free := top, frames.Keys;
      mem := frames[top := EmptyTable()[R := TableEntry(top)]];
      new;
      EmptySpace(mem, root, free);
      forall p | 0 <= p < LIMIT ensures Flat(mem, root, p) == ZERO {
        DigitsPath(p);
        EmptyPaths(mem, root, Digits(p)[..3]);
      }
    }

    /** The frame behind the recursive address of the level-`lv` table of `vrt`. */
    ghost predicate HasTable(vrt: nat, lv: nat)
      requires lv <= 3
      reads this
    {
      Follow(mem, root, PathOf(vrt)[..3 - lv]).Some?
    }

    /** Allocates, links and clears the next table, as `walk` does when the entry
        of `vrt` at level `lv` is not present. Fails when no frame is left. */
    method NewTable(vrt: nat, lv: nat) returns (ok: bool)
      requires Valid() && PagePath(PathOf(vrt)) && 1 <= lv <= 3 && HasTable(vrt, lv) && !HasTable(vrt, lv - 1)
      modifies this`mem, this`free
      ensures Valid() && SameLeaves(old(mem), mem, root)
      ensures if ok then HasTable(vrt, lv) && HasTable(vrt, lv - 1) else free == {} && mem == old(mem)
      ensures SameAbove(old(mem), mem, root, PathOf(vrt), 3 - lv)
      ensures PathOf(vrt)[0] < 256 ==> Confined(old(mem), mem, root, old(free), free)
    {
      hide Idx, EntryGet, PathOf, Follow, Inner, SameLeaves, SameAbove, Tree, InnerOpen, UserOpen, TablePath, Confined;
      ConfinedSame(mem, root, free);
      hide Recursive;
      if free == {} {
        KeepsAll(mem, root, PathOf(vrt), 3 - lv);
        return false;
      }
      var n :| n in free;
      var tab, idx := EntryGet(vrt, lv), Idx(vrt, lv);
      PathParts(vrt);
      LinkEffect(mem, root, free, PathOf(vrt), 3 - lv, n);
      LinkConfined(mem, root, free, PathOf(vrt), 3 - lv, n);
      RecursiveReaches(mem, root, vrt, lv);
      var t := Follow(mem, root, PathOf(tab)).value;
      free := free - {n};
      mem := Poke(mem, t, idx, MakeEntry(n, TABLE));
      RecursiveReaches(mem, root, vrt, lv - 1);
      var newtab := Follow(mem, root, PathOf(EntryGet(vrt, lv - 1))).value;
      mem := mem[newtab := EmptyTable()];
      return true;
    }
  
    /** `walk`: finds the entry of `vrt` in its lowest table, following and, when
        asked, creating the tables above it. The result is the recursive address
        of that table, or nothing when a table is missing or no frame is left.
        No page changes. */
    method Walk(vrt: nat, g: Flags, lv: nat, create: bool) returns (r: Option<nat>)
      requires Valid() && PagePath(PathOf(vrt)) && lv <= 3 && HasTable(vrt, lv)
      requires create && g.us ==> PathOpen(mem, root, PathOf(vrt), 3 - lv)
      modifies this`mem, this`free
      ensures Valid() && SameLeaves(old(mem), mem, root)
      ensures r.Some? ==> r.value == EntryGet(vrt, 0) && HasTable(vrt, 0)
      ensures r.Some? && create && g.us ==> PathOpen(mem, root, PathOf(vrt), 3)
      ensures r.None? ==> if create then free == {} else !HasTable(vrt, 0)
      ensures !create ==> mem == old(mem) && free == old(free)
      ensures PathOf(vrt)[0] < 256 ==> Confined(old(mem), mem, root, old(free), free)
      decreases lv
    {
      hide Idx, EntryGet, PathOf, Follow, Inner, Tree, InnerOpen, UserOpen, TablePath, Leaf, Confined;
      ConfinedSame(mem, root, free);
      hide Recursive;
      ghost var m0, free0 := mem, free;
      var tab, idx := EntryGet(vrt, lv), Idx(vrt, lv);
      if lv == 0 {
        return Some(tab);
      }
      PathParts(vrt);
      WalkReads(mem, root, free, vrt, lv);
      var t := Follow(mem, root, PathOf(tab)).value;
      if !mem[t][idx].p {
        if !create {
          return None;
        }
        var ok := NewTable(vrt, lv);
        if !ok {
          return None;
        }
        WalkReads(mem, root, free, vrt, lv);
      }
      if create {
        if g.us {
          OpenEffect(mem, root, free, PathOf(vrt), 3 - lv);
          t := Follow(mem, root, PathOf(tab)).value;
          OpenedConfined(m0, mem, root, free0, free, PathOf(vrt), 3 - lv);
          mem := Poke(mem, t, idx, mem[t][idx].(us := true));
        }
      }
      ghost var m1, free1 := mem, free;
      r := Walk(vrt, g, lv - 1, create);
      if PathOf(vrt)[0] < 256 {
        ConfinedThen(m0, m1, mem, root, free0, free1, free);
      }
    }

    /** The loop body shared by `vmap_map` and `vmap_unmap`: walk with creation, then
        write the entry through its recursive address. */
    method SetPage(vrt: nat, g: Flags, e: Entry) returns (ok: bool)
      requires Valid() && Page(vrt) < LIMIT
      requires e.p && e.us ==> g.us
      modifies this`mem, this`free
      ensures Valid()
      ensures forall p :: 0 <= p < LIMIT ==>
                Flat(mem, root, p) == if ok && p == Page(vrt) then e else old(Flat(mem, root, p))
      ensures !ok ==> free == {}
      ensures Page(vrt) < USER ==> Confined(old(mem), mem, root, old(free), free)
    {
      hide Idx, EntryGet, Digits, Follow, Inner, Tree, Recursive, InnerOpen, UserOpen, TablePath, Leaf, Page, Confined;
      PathIsDigits(vrt);
      DigitsPath(Page(vrt));
      DigitsHalf(Page(vrt));
      RootTable(mem, root, PathOf(vrt));
      var r := Walk(vrt, g, 3, true);
      forall p | 0 <= p < LIMIT ensures Flat(mem, root, p) == old(Flat(mem, root, p)) {
        DigitsPath(p);
      }
      if r.None? {
        return false;
      }
      WalkEnds(mem, root, free, vrt, e);
      SetConfined(old(mem), mem, root, old(free), free, vrt, e);
      var t := Follow(mem, root, PathOf(r.value)).value;
      ghost var before := mem;
      mem := Poke(mem, t, Idx(vrt, 0), e);
      forall p | 0 <= p < LIMIT
        ensures Flat(mem, root, p) == if p == Page(vrt) then e else Flat(before, root, p)
      {
        DigitsPath(p);
      }
      return true;
    }

    /** `vmap_map`: exactly the `num` pages from `vrt` on change, each to the entry
        of its own frame; tables appear as needed. When no frame is left the kernel
        stops, with the first `done` pages mapped. */
    method Map(phy: nat, vrt: nat, num: nat, g: Flags) returns (ok: bool, ghost done: nat)
      requires Valid() && phy < WORD && Page(vrt) + num <= LIMIT
      modifies this`mem, this`free
      ensures Valid()
      ensures done <= num && (ok <==> done == num) && (!ok ==> free == {})
      ensures forall p :: 0 <= p < LIMIT ==>
                Flat(mem, root, p) ==
                  if Page(vrt) <= p < Page(vrt) + done
                  then MakeEntry((phy + (p - Page(vrt)) * 0x1000) % WORD, g)
                  else old(Flat(mem, root, p))
      ensures forall p :: Page(vrt) <= p < Page(vrt) + done ==> Grants(mem, root, phy, Page(vrt), p, g)
      ensures Page(vrt) + num <= USER ==> Edit(Shared(old(mem), old(free)), Shared(mem, free), root)
    {
      hide PathOf, Digits, MakeEntry, Page, Space, Leaf, Confined, Grants;
      SpaceRoot(mem, root, free);
      ConfinedSame(mem, root, free);
      var left: nat, ph: nat, v: nat := num, phy, vrt;
      done := 0;
      while left > 0
        invariant left + done == num
        invariant Valid()
        invariant left > 0 ==> Page(v) == Page(vrt) + done
        invariant ph == (phy + done * 0x1000) % WORD
        invariant forall p :: 0 <= p < LIMIT ==>
                    Flat(mem, root, p) ==
                      if Page(vrt) <= p < Page(vrt) + done
                      then MakeEntry((phy + (p - Page(vrt)) * 0x1000) % WORD, g)
                      else old(Flat(mem, root, p))
        invariant Page(vrt) + num <= USER ==> Confined(old(mem), mem, root, old(free), free)
      {
        EntryFlags(ph, g);
        ghost var m1, free1 := mem, free;
        ok := SetPage(v, g, MakeEntry(ph, g));
        if Page(vrt) + num <= USER {
          ConfinedThen(old(mem), m1, mem, root, old(free), free1, free);
        }
        if !ok {
          MapGrants(mem, root, free, phy, Page(vrt), done, g);
          return;
        }
        if left > 1 {
          NextPage(v);
        }
        WrapAdd(phy + done * 0x1000, 0x1000);
        left, done := left - 1, done + 1;
        ph, v := (ph + 0x1000) % WORD, (v + 0x1000) % WORD;
      }
      MapGrants(mem, root, free, phy, Page(vrt), done, g);
      ok := true;
    }

    /** `vmap_unmap`: exactly the `num` pages from `vrt` on are cleared. */
    method Unmap(vrt: nat, num: nat) returns (ok: bool, ghost done: nat)
      requires Valid() && Page(vrt) + num <= LIMIT
      modifies this`mem, this`free
      ensures Valid()
      ensures done <= num && (ok <==> done == num) && (!ok ==> free == {})
      ensures forall p :: 0 <= p < LIMIT ==>
                Flat(mem, root, p) ==
                  if Page(vrt) <= p < Page(vrt) + done then ZERO else old(Flat(mem, root, p))
      ensures forall p :: Page(vrt) <= p < Page(vrt) + done ==> Absent(mem, root, p)
      ensures Page(vrt) + num <= USER ==> Edit(Shared(old(mem), old(free)), Shared(mem, free), root)
    {
      hide PathOf, Digits, Page, Space, Leaf, Confined, Absent;
      SpaceRoot(mem, root, free);
      ConfinedSame(mem, root, free);
      var left: nat, v: nat := num, vrt;
      done := 0;
      while left > 0
        invariant left + done == num
        invariant Valid()
        invariant left > 0 ==> Page(v) == Page(vrt) + done
        invariant forall p :: 0 <= p < LIMIT ==>
                    Flat(mem, root, p) ==
                      if Page(vrt) <= p < Page(vrt) + done then ZERO else old(Flat(mem, root, p))
        invariant Page(vrt) + num <= USER ==> Confined(old(mem), mem, root, old(free), free)
      {
        ghost var m1, free1 := mem, free;
        ok := SetPage(v, NOFLAGS, ZERO);
        if Page(vrt) + num <= USER {
          ConfinedThen(old(mem), m1, mem, root, old(free), free1, free);
        }
        if !ok {
          UnmapAbsent(mem, root, free, Page(vrt), done);
          return;
        }
        if left > 1 {
          NextPage(v);
        }
        left, done := left - 1, done + 1;
        v := (v + 0x1000) % WORD;
      }
      UnmapAbsent(mem, root, free, Page(vrt), done);
      ok := true;
    }

    /** The lowest level of the copy: page entries lose write permission in the
        parent's table and are then copied, one by one. */
    method CopyPages(pg: nat, npg: nat)
      requires pg in mem && npg in mem && pg != npg && mem[npg] == mem[pg]
      modifies this`mem
      ensures mem == old(mem)[pg := ReadOnlyTable(old(mem)[pg])][npg := ReadOnlyTable(old(mem)[pg])]
      ensures forall i :: 0 <= i < 512 ==> mem[npg][i] == mem[pg][i] && Protects(old(mem)[pg][i], mem[pg][i])
    {
      ghost var t := mem[pg];
      var i := 0;
      while i < 512
        invariant 0 <= i <= 512
        invariant mem.Keys == old(mem).Keys
        invariant forall f <- mem :: f != pg && f != npg ==> mem[f] == old(mem)[f]
        invariant forall j :: 0 <= j < i ==> mem[pg][j] == mem[npg][j] == ReadOnly(t[j])
        invariant forall j :: i <= j < 512 ==> mem[pg][j] == mem[npg][j] == t[j]
      {
        if mem[npg][i] != ZERO {
          mem := Poke(mem, pg, i, ReadOnly(mem[pg][i]));
          mem := Poke(mem, npg, i, mem[pg][i]);
        }
        i := i + 1;
      }
      assert mem[pg] == ReadOnlyTable(t) && mem[npg] == ReadOnlyTable(t);
    }

    /** `_copy_pgt`: copies the table `pg` of level `lv` with everything below it into
        fresh frames. `m0` is memory when the whole copy began. */
    method CopyTable(pg: nat, lv: nat, ghost m0: Memory, ghost pts: set<nat>, ghost free0: set<nat>,
                     ghost own0: map<nat, seq<nat>>, ghost at: seq<nat>)
        returns (ok: bool, npg: nat, ghost own: map<nat, seq<nat>>)
      requires Copying(m0, mem, pts, own0, free0, free)
      requires Tables(m0, pg, lv, pts, free0) && lv <= 3
      modifies this`mem, this`free
      ensures ok ==> CopyOk(m0, old(mem), mem, pts, own0, own, free0, free, pg, npg, lv, at)
      ensures ok && lv == 3 ==> npg in mem && pg in m0 && KernelHalf(m0[pg], mem[npg], npg)
      ensures ok <==> |old(free)| >= Count(m0, pg, lv)
      ensures if ok then |free| == |old(free)| - Count(m0, pg, lv) else free == {}
      decreases lv, 1
    {
      hide CountBelow, Lowest, Copied, CopiedEntry, Progress, Grown, OnlyCleared, CopiedUpTo, KernelHalf;
      ok, npg, own := false, 0, own0;
      if free == {} {
        return;
      }
      npg :| npg in free;
      TakeFrame(m0, mem, pts, own0, free0, free, pg, npg, at);
      free := free - {npg};
      mem := mem[npg := mem[pg]];
      own := own0[npg := at];
      if lv == 0 {
        CopyPages(pg, npg);
        CopyLowest(m0, old(mem), mem, pg, npg, pts, own0, own, at);
        ok := true;
        return;
      }
      CopyStarts(m0, old(mem), mem, pg, npg, lv, own0, own, at);
      ok, own := CopyLinks(pg, npg, lv, m0, old(mem), pts, free0, own0, own, at);
      if !ok {
        return;
      }
      CopyEnds(m0, old(mem), mem, pts, own0, own, free0, free, pg, npg, lv, at);
      if lv == 3 {
        FrameEntry(npg);
        mem := Poke(mem, npg, R, MakeEntry(npg, TABLE));
      }
    }

    /** The loop of `_copy_pgt` over the entries of a table above the lowest level. */
    method CopyLinks(pg: nat, npg: nat, lv: nat, ghost m0: Memory, ghost m1: Memory, ghost pts: set<nat>, ghost free0: set<nat>,
                     ghost own0: map<nat, seq<nat>>, ghost own1: map<nat, seq<nat>>, ghost at: seq<nat>)
        returns (ok: bool, ghost own: map<nat, seq<nat>>)
      requires 1 <= lv <= 3 && Tables(m0, pg, lv, pts, free0)
      requires Partway(m0, m1, mem, pts, own0, own1, free0, free, pg, npg, lv, at, 0)
      modifies this`mem, this`free
      ensures ok ==> Partway(m0, m1, mem, pts, own0, own, free0, free, pg, npg, lv, at, Limit(lv))
      ensures ok <==> |old(free)| >= CountBelow(m0, pg, lv, Limit(lv))
      ensures if ok then |free| == |old(free)| - CountBelow(m0, pg, lv, Limit(lv)) else free == {}
      decreases lv, 0
    {
      hide Count, CountBelow, Lowest, LowestBelow, Copied, CopiedEntry, Copying, Grown, OnlyCleared;
      own := own1;
      var i := 0;
      CountNone(m0, pg, lv);
      while i < Limit(lv)
        invariant 0 <= i <= Limit(lv) && |free| == |old(free)| - CountBelow(m0, pg, lv, i)
        invariant Partway(m0, m1, mem, pts, own0, own, free0, free, pg, npg, lv, at, i)
      {
        CountStep(m0, m1, mem, pts, own0, own, free0, free, pg, npg, lv, at, i);
        CountGrows(m0, pg, lv, i + 1, Limit(lv));
        if mem[npg][i] != ZERO {
          ghost var m2, own2, free2 := mem, own, free;
          var c: nat;
          ok, c, own := CopyTable(mem[npg][i].addr, lv - 1, m0, pts, free0, own, at + [i]);
          if !ok {
            return;
          }
          PartwayLink(m0, m1, m2, mem, pts, own0, own2, own, free0, free2, free, pg, npg, lv, at, i, c);
          FrameEntry(c);
          mem := Poke(mem, npg, i, mem[npg][i].(addr := c / 0x800 * 0x800));
        } else {
          PartwaySkip(m0, m1, mem, pts, own0, own, free0, free, pg, npg, lv, at, i);
        }
        i := i + 1;
      }
      ok := true;
    }

    /** `copy_pgt`: a child table for fork. Parent and child see the same frames in
        the user half, which neither of them may write any more; the child's user
        tables are all new; its kernel half is the parent's, except that its
        recursive slot is its own, so the two share no user table. It fails exactly when there are fewer frames than tables to copy. */
    method CopyPgt() returns (ok: bool, child: nat, ghost own: map<nat, seq<nat>>)
      requires Valid() && LinksPresent(mem, root)
      modifies this`mem, this`free
      ensures ok <==> |old(free)| >= Count(old(mem), root, 3)
      ensures !ok ==> free == {}
      ensures ok ==> Valid() && Space(mem, child, free) && child in old(free)
      ensures ok ==> Pair(mem, root, child, free)
      ensures ok ==> root in old(mem) && child in mem && KernelHalf(old(mem)[root], mem[child], child)
      ensures ok ==> forall p :: 0 <= p < LIMIT ==>
                       Flat(mem, child, p) == Flat(mem, root, p) ==
                         if p < USER then ReadOnly(old(Flat(mem, root, p))) else old(Flat(mem, root, p))
      ensures ok ==> forall p :: 0 <= p < LIMIT ==>
                       SharedCopy(old(mem), root, mem, root, p) && SharedCopy(old(mem), root, mem, child, p)
      ensures ok ==> forall q :: TablePath(q) && Follow(mem, child, q).Some? ==>
                       (Follow(mem, child, q).value in old(free) <==> q == [] || q[0] < 256)
      ensures ok ==> forall q :: TablePath(q) ==> Follow(mem, root, q) == old(Follow(mem, root, q))
      ensures ok ==> forall q :: TablePath(q) && q != [] ==> Inner(mem, root, q) == old(Inner(mem, root, q))
    {
      hide Count, Lowest, Copied, Progress, Grown, OnlyCleared, KernelHalf, Inner, Leaf, Follow, Digits, Forked, Tables, Apart, SharedCopy, Protects;
      ghost var m0, free0 := mem, free;
      RootIsTable(mem, root);
      TablesFrom(mem, root, free, []);
      CopyBegins(mem, root, free);
      ok, child, own := CopyTable(root, 3, mem, Lowest(mem, root, 3), free, map[], []);
      if ok {
        CopyForks(m0, root, mem, child, own, free0, free);
        ParentSpace(m0, root, mem, child, own, free0, free);
        ChildSpace(m0, root, mem, child, own, free0, free);
        ForkApart(m0, root, mem, child, own, free0, free);
        ForkFlat(m0, root, mem, child, own, free0, free);
        ForkShares(m0, root, free0, mem, root, free);
        ForkShares(m0, root, free0, mem, child, free);
        ForkTables(m0, root, mem, child, own, free0, free);
      }
    }
  }
}
