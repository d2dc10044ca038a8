/** What the three kinds of entry writes of src/kernel/mm/map.c do to an address
    space: linking an empty table, opening a table entry to user mode, and
    setting the entry of a page. */
module SpaceEdits {
  import opened Basics
  import opened Paging

  ghost predicate Extends(q: seq<nat>, p: seq<nat>, i: nat) {
    |q| > |p| && q[..|p|] == p && q[|p|] == i
  }

  /** Writing entry `i` of the table at path `p` does not disturb walks that do not
      go through that entry. */
  lemma {:induction false} FollowFrame(m: Memory, root: nat, p: seq<nat>, f: nat, i: nat, e: Entry, q: seq<nat>)
    requires Tree(m, root) && TablePath(p) && Follow(m, root, p) == Some(f)
    requires f in m && i < 512
    requires TablePath(q) && !Extends(q, p, i)
    ensures Follow(Poke(m, f, i, e), root, q) == Follow(m, root, q)
  {
    forall k | 0 <= k < |q| && Follow(m, root, q[..k]).Some?
      ensures SameStep(m, Poke(m, f, i, e), Follow(m, root, q[..k]).value, q[k])
    {
      if Follow(m, root, q[..k]).value == f {
        assert SameTable(m, root, q[..k], p);
        assert q[..k] == p;
      }
    }
    FollowAgree(m, Poke(m, f, i, e), root, q);
  }

  function EmptyTable(): (t: seq<Entry>)
    ensures |t| == 512 && forall i :: 0 <= i < 512 ==> t[i] == ZERO
  {
    seq(512, _ => ZERO)
  }

  function TableEntry(addr: nat): Entry {
    Entry(addr, true, true, false, false, 0)
  }

  /** Memory after a fresh, cleared frame has been linked at entry `i` of `f`. */
  function LinkTable(m: Memory, f: nat, i: nat, new_: nat): Memory
    requires f in m && i < 512
  {
    Poke(m, f, i, TableEntry(new_))[new_ := EmptyTable()]
  }

  /** Walks after linking an empty table: as before, except that the new path ends
      in the new table and nothing is mapped below it. */
  lemma {:induction false} FollowLinked(m: Memory, root: nat, free: set<nat>, p: seq<nat>, f: nat, i: nat, n: nat, q: seq<nat>)
    requires Space(m, root, free) && TablePath(p) && Follow(m, root, p) == Some(f)
    requires f in m && i < 512 && |p| <= 2 && TablePath(p + [i])
    requires !m[f][i].p && n in free
    requires TablePath(q)
    ensures Follow(LinkTable(m, f, i, n), root, q) ==
              if q == p + [i] then Some(n) else if Extends(q, p, i) then None else Follow(m, root, q)
    ensures Extends(q, p, i) ==> Follow(m, root, q) == None
    decreases |q|
  {
    var m' := LinkTable(m, f, i, n);
    if Extends(q, p, i) {
      if |q| == |p| + 1 {
        assert q == p + [i];
        FollowSnoc(m, root, q);
        FollowSnoc(m', root, q);
        assert q[..|q| - 1] == p;
        FollowLinked(m, root, free, p, f, i, n, p);
      } else {
        var a := q[..|q| - 1];
        assert Extends(a, p, i) by { assert a[..|p|] == p; }
        FollowLinked(m, root, free, p, f, i, n, a);
        FollowSnoc(m, root, q);
        FollowSnoc(m', root, q);
      }
    } else {
      forall k | 0 <= k < |q| && Follow(m, root, q[..k]).Some?
        ensures SameStep(m, m', Follow(m, root, q[..k]).value, q[k])
      {
        assert TablePath(q[..k]);
        if Follow(m, root, q[..k]).value == f {
          assert SameTable(m, root, q[..k], p);
          assert q[..k] == p;
        }
      }
      FollowAgree(m, m', root, q);
    }
  }

  /** Every page outside the recursive slot has the same entry. */
  ghost predicate SameLeaves(m: Memory, m': Memory, root: nat) {
    forall d :: PagePath(d) ==> Leaf(m', root, d) == Leaf(m, root, d)
  }

  /** The conditions under which `walk` links a new table. */
  ghost predicate CanLink(m: Memory, root: nat, free: set<nat>, p: seq<nat>, f: nat, i: nat, n: nat) {
    && Space(m, root, free) && TablePath(p) && Follow(m, root, p) == Some(f)
    && f in m && i < 512 && |p| <= 2 && TablePath(p + [i])
    && !m[f][i].p && n in free
  }

  lemma {:induction false} LinkedTree(m: Memory, root: nat, free: set<nat>, p: seq<nat>, f: nat, i: nat, n: nat)
    requires CanLink(m, root, free, p, f, i, n)
    ensures Tree(LinkTable(m, f, i, n), root)
    ensures forall q :: TablePath(q) && Follow(LinkTable(m, f, i, n), root, q).Some? ==>
              Follow(LinkTable(m, f, i, n), root, q).value !in free - {n}
  {
    var m' := LinkTable(m, f, i, n);
    forall q | TablePath(q) && Follow(m', root, q).Some?
      ensures Follow(m', root, q).value in m' && Follow(m', root, q).value !in free - {n}
    {
      FollowLinked(m, root, free, p, f, i, n, q);
    }
    forall q, r | TablePath(q) && TablePath(r) && SameTable(m', root, q, r)
      ensures q == r
    {
      FollowLinked(m, root, free, p, f, i, n, q);
      FollowLinked(m, root, free, p, f, i, n, r);
      if q != p + [i] && r != p + [i] {
        assert SameTable(m, root, q, r);
      }
    }
  }

  lemma {:induction false} LinkedLeaf(m: Memory, root: nat, free: set<nat>, p: seq<nat>, f: nat, i: nat, n: nat, d: seq<nat>)
    requires CanLink(m, root, free, p, f, i, n) && PagePath(d)
    ensures Leaf(LinkTable(m, f, i, n), root, d) == Leaf(m, root, d)
  {
    var m' := LinkTable(m, f, i, n);
    var q := d[..3];
    FollowLinked(m, root, free, p, f, i, n, q);
    if q == p + [i] {
      assert Extends(q, p, i);
    } else if !Extends(q, p, i) && Follow(m, root, q).Some? {
      var g := Follow(m, root, q).value;
      if g == f {
        assert SameTable(m, root, q, p);
      }
      assert m'[g] == m[g];
    }
  }

  /** An entry of a table, other than the linked one, stays as it is. */
  lemma {:induction false} LinkedEntry(m: Memory, root: nat, free: set<nat>, p: seq<nat>, f: nat, i: nat, n: nat, a: seq<nat>, x: nat)
    requires CanLink(m, root, free, p, f, i, n) && TablePath(a) && Follow(m, root, a).Some? && x < 512
    requires a != p || x != i
    ensures var g := Follow(m, root, a).value; g in m && g in LinkTable(m, f, i, n) && LinkTable(m, f, i, n)[g][x] == m[g][x]
  {
    hide Recursive, InnerOpen, UserOpen, Follow;
    var g := Follow(m, root, a).value;
    assert g in m && g !in free;
    assert g == f ==> SameTable(m, root, a, p);
  }

  lemma {:induction false} LinkedSlot(m: Memory, root: nat, free: set<nat>, p: seq<nat>, f: nat, i: nat, n: nat)
    requires CanLink(m, root, free, p, f, i, n)
    ensures f in LinkTable(m, f, i, n) && LinkTable(m, f, i, n)[f][i] == TableEntry(n)
    ensures n in LinkTable(m, f, i, n) && forall x :: 0 <= x < 512 ==> LinkTable(m, f, i, n)[n][x] == ZERO
  {
    hide Recursive, InnerOpen, UserOpen, Follow;
    assert Follow(m, root, p).Some? && f !in free;
  }

  lemma {:induction false} LinkedInner(m: Memory, root: nat, free: set<nat>, p: seq<nat>, f: nat, i: nat, n: nat, q: seq<nat>)
    requires CanLink(m, root, free, p, f, i, n) && TablePath(q) && q != []
    ensures var m' := LinkTable(m, f, i, n);
            && (Follow(m', root, q).Some? && q != p + [i] ==>
                  Follow(m, root, q).Some? && Inner(m', root, q) == Inner(m, root, q))
            && (q == p + [i] ==> Inner(m', root, q) == TableEntry(n))
            && (Follow(m, root, q).Some? ==> Inner(m', root, q) == Inner(m, root, q))
  {
    hide Space, Follow, LinkTable;
    var m' := LinkTable(m, f, i, n);
    var a, x := q[..|q| - 1], q[|q| - 1];
    assert TablePath(a) && q == a + [x];
    FollowLinked(m, root, free, p, f, i, n, a);
    FollowSnoc(m, root, q);
    FollowSnoc(m', root, q);
    LinkedSlot(m, root, free, p, f, i, n);
    if q == p + [i] {
      assert a == p;
    } else if Follow(m, root, a).Some? {
      LinkedEntry(m, root, free, p, f, i, n, a, x);
    }
  }

  /** Linking an empty table keeps the space well formed and every page as it was. */
  lemma {:induction false} LinkedSpace(m: Memory, root: nat, free: set<nat>, p: seq<nat>, f: nat, i: nat, n: nat)
    requires CanLink(m, root, free, p, f, i, n)
    ensures Space(LinkTable(m, f, i, n), root, free - {n})
    ensures Follow(LinkTable(m, f, i, n), root, p + [i]) == Some(n)
    ensures SameLeaves(m, LinkTable(m, f, i, n), root)
    ensures forall q :: TablePath(q) && q != [] && Follow(m, root, q).Some? ==>
              Inner(LinkTable(m, f, i, n), root, q) == Inner(m, root, q)
  {
    var m' := LinkTable(m, f, i, n);
    forall q | TablePath(q) && q != [] && Follow(m, root, q).Some?
      ensures Inner(m', root, q) == Inner(m, root, q)
    {
      LinkedInner(m, root, free, p, f, i, n, q);
    }
    LinkedTree(m, root, free, p, f, i, n);
    FollowLinked(m, root, free, p, f, i, n, p + [i]);
    assert Recursive(m', root) by {
      if f == root {
        assert SameTable(m, root, p, []);
        assert TablePath(p + [i]) && (p + [i])[0] == i;
      }
      assert Follow(m, root, []) == Some(root);
    }
    forall d | PagePath(d) ensures Leaf(m', root, d) == Leaf(m, root, d) {
      LinkedLeaf(m, root, free, p, f, i, n, d);
    }
    forall q | TablePath(q) && q != [] && Follow(m', root, q).Some?
      ensures Inner(m', root, q).rw && !Inner(m', root, q).ps
    {
      LinkedInner(m, root, free, p, f, i, n, q);
    }
    forall d, k | PagePath(d) && 1 <= k <= 3 && Leaf(m', root, d).p && Leaf(m', root, d).us
      ensures Inner(m', root, d[..k]).us
    {
      LinkedLeaf(m, root, free, p, f, i, n, d);
      LeafHasTables(m, root, d, k);
      LinkedInner(m, root, free, p, f, i, n, d[..k]);
    }
  }

  /** Once the link is written, and before the new frame is cleared, the recursive
      address of the new table already reaches it. */
  lemma {:induction false} LinkReaches(m: Memory, root: nat, free: set<nat>, p: seq<nat>, f: nat, i: nat, n: nat)
    requires CanLink(m, root, free, p, f, i, n)
    ensures var m' := Poke(m, f, i, TableEntry(n));
            Recursive(m', root) && Follow(m', root, p + [i]) == Some(n)
  {
    var m' := Poke(m, f, i, TableEntry(n));
    FollowFrame(m, root, p, f, i, TableEntry(n), p);
    FollowSnoc(m', root, p + [i]);
    assert (p + [i])[..|p|] == p;
    if f == root {
      assert Follow(m, root, []) == Some(root);
      assert SameTable(m, root, p, []);
      assert (p + [i])[0] == i;
    }
  }

  lemma {:induction false} PrefixReached(m: Memory, root: nat, q: seq<nat>, k: nat)
    requires Indices(q) && k <= |q| && Follow(m, root, q).Some?
    ensures Follow(m, root, q[..k]).Some?
  {
    assert q == q[..k] + q[k..];
    FollowSplit(m, root, q[..k], q[k..]);
  }

  /** Above a present page every table exists. */
  lemma {:induction false} LeafHasTables(m: Memory, root: nat, d: seq<nat>, k: nat)
    requires PagePath(d) && k <= 3 && Leaf(m, root, d).p
    ensures Follow(m, root, d[..k]).Some?
  {
    assert d[..3] == d[..k] + d[k..3];
    FollowSplit(m, root, d[..k], d[k..3]);
  }

  /** Same tables, same links: only flags and page entries may differ. */
  ghost predicate SameShape(m: Memory, m': Memory) {
    m.Keys == m'.Keys && forall g, i :: g in m && 0 <= i < 512 ==> SameStep(m, m', g, i)
  }

  lemma {:induction false} ShapeFollow(m: Memory, m': Memory, root: nat, q: seq<nat>)
    requires SameShape(m, m') && Indices(q)
    ensures Follow(m', root, q) == Follow(m, root, q)
  {
    FollowAgree(m, m', root, q);
  }

  /** The three table entries above page path `d` are user accessible. */
  ghost predicate PathOpen(m: Memory, root: nat, d: seq<nat>, upto: nat)
    requires |d| == 4 && Indices(d)
  {
    forall k :: 1 <= k <= upto && k <= 3 ==> Inner(m, root, d[..k]).us
  }

  /** The write of `walk` that opens a present table entry to user mode. */
  ghost predicate CanOpen(m: Memory, root: nat, free: set<nat>, p: seq<nat>, f: nat, i: nat) {
    && Space(m, root, free) && TablePath(p) && Follow(m, root, p) == Some(f)
    && f in m && i < 512 && |p| <= 2 && TablePath(p + [i]) && m[f][i].p
  }

  function Opened(m: Memory, f: nat, i: nat): Memory
    requires f in m && i < 512
  {
    Poke(m, f, i, m[f][i].(us := true))
  }

  lemma {:induction false} OpenedWalks(m: Memory, root: nat, free: set<nat>, p: seq<nat>, f: nat, i: nat)
    requires CanOpen(m, root, free, p, f, i)
    ensures forall q :: TablePath(q) ==> Follow(Opened(m, f, i), root, q) == Follow(m, root, q)
    ensures Tree(Opened(m, f, i), root)
    ensures SameLeaves(m, Opened(m, f, i), root)
  {
    var m' := Opened(m, f, i);
    forall q | TablePath(q) ensures Follow(m', root, q) == Follow(m, root, q) {
      ShapeFollow(m, m', root, q);
    }
    forall q, r | TablePath(q) && TablePath(r) && SameTable(m', root, q, r) ensures q == r {
      assert SameTable(m, root, q, r);
    }
    forall d | PagePath(d) ensures Leaf(m', root, d) == Leaf(m, root, d) {
      assert TablePath(d[..3]) && d[..3] != p;
      assert !SameTable(m, root, d[..3], p);
    }
  }

  lemma {:induction false} OpenedInner(m: Memory, root: nat, free: set<nat>, p: seq<nat>, f: nat, i: nat, q: seq<nat>)
    requires CanOpen(m, root, free, p, f, i) && TablePath(q) && q != []
    ensures var was, now := Inner(m, root, q), Inner(Opened(m, f, i), root, q);
            (now == was || now == was.(us := true)) && (q == p + [i] ==> now.us)
  {
    assert TablePath(q[..|q| - 1]);
    OpenedWalks(m, root, free, p, f, i);
    assert (p + [i])[..|p|] == p;
  }

  /** Setting the user bit of a present table entry changes no page, and opens
      that entry. */
  lemma {:induction false} OpenedSpace(m: Memory, root: nat, free: set<nat>, p: seq<nat>, f: nat, i: nat)
    requires CanOpen(m, root, free, p, f, i)
    ensures Space(Opened(m, f, i), root, free)
    ensures SameLeaves(m, Opened(m, f, i), root)
  {
    hide Inner, Follow, Leaf;
    var m' := Opened(m, f, i);
    OpenedWalks(m, root, free, p, f, i);
    forall q | TablePath(q) && q != []
      ensures Inner(m', root, q) == Inner(m, root, q) || Inner(m', root, q) == Inner(m, root, q).(us := true)
    {
      OpenedInner(m, root, free, p, f, i, q);
    }
    forall d, k | PagePath(d) && 1 <= k <= 3 && Leaf(m', root, d).p && Leaf(m', root, d).us
      ensures Inner(m', root, d[..k]).us
    {
      assert Inner(m, root, d[..k]).us;
      assert TablePath(d[..k]);
    }
  }

  lemma {:induction false} OtherTable(m: Memory, root: nat, a: seq<nat>, p: seq<nat>, f: nat)
    requires Tree(m, root) && TablePath(a) && TablePath(p) && a != p && Follow(m, root, p) == Some(f)
    ensures Follow(m, root, a) != Some(f)
  {
    assert !SameTable(m, root, a, p);
  }

  /** Setting the entry of one page leaves the tables where they are. */
  lemma {:induction false} LeafSetTables(m: Memory, root: nat, free: set<nat>, d: seq<nat>, f: nat, e: Entry)
    requires Space(m, root, free) && PagePath(d) && Follow(m, root, d[..3]) == Some(f) && f in m
    ensures var m' := Poke(m, f, d[3], e);
            && Recursive(m', root) && Tree(m', root)
            && (forall q :: TablePath(q) ==> Follow(m', root, q) == Follow(m, root, q))
            && (forall q :: TablePath(q) && q != [] ==> Inner(m', root, q) == Inner(m, root, q))
  {
    hide InnerOpen, UserOpen;
    var m', p := Poke(m, f, d[3], e), d[..3];
    assert TablePath(p);
    forall q | TablePath(q) ensures Follow(m', root, q) == Follow(m, root, q) {
      FollowFrame(m, root, p, f, d[3], e, q);
    }
    forall q | TablePath(q) && q != [] ensures Inner(m', root, q) == Inner(m, root, q) {
      var a := q[..|q| - 1];
      assert TablePath(a);
      OtherTable(m, root, a, p, f);
    }
    forall q, r | TablePath(q) && TablePath(r) && SameTable(m', root, q, r) ensures q == r {
      assert SameTable(m, root, q, r);
    }
    assert Recursive(m', root) by {
      assert Follow(m, root, []) == Some(root);
      assert f == root ==> SameTable(m, root, p, []);
    }
  }

  lemma {:induction false} LeafSetLeaf(m: Memory, root: nat, free: set<nat>, d: seq<nat>, f: nat, e: Entry, c: seq<nat>)
    requires Space(m, root, free) && PagePath(d) && Follow(m, root, d[..3]) == Some(f) && f in m && PagePath(c)
    requires Follow(Poke(m, f, d[3], e), root, c[..3]) == Follow(m, root, c[..3])
    ensures Leaf(Poke(m, f, d[3], e), root, c) == if c == d then e else Leaf(m, root, c)
  {
    hide InnerOpen, UserOpen, Follow;
    assert TablePath(c[..3]) && TablePath(d[..3]);
    if Follow(m, root, c[..3]) == Some(f) {
      assert SameTable(m, root, c[..3], d[..3]);
      assert c == c[..3] + [c[3]] && d == d[..3] + [d[3]];
    }
  }

  /** Setting the entry of one page changes that page and no other. */
  lemma {:induction false} LeafSetSpace(m: Memory, root: nat, free: set<nat>, d: seq<nat>, f: nat, e: Entry)
    requires Space(m, root, free) && PagePath(d) && Follow(m, root, d[..3]) == Some(f) && f in m
    requires e.p && e.us ==> PathOpen(m, root, d, 3)
    ensures var m' := Poke(m, f, d[3], e);
            && Space(m', root, free)
            && (forall q :: TablePath(q) ==> Follow(m', root, q) == Follow(m, root, q))
            && (forall c :: PagePath(c) ==> Leaf(m', root, c) == if c == d then e else Leaf(m, root, c))
  {
    hide Follow, Leaf, Inner, Tree, Recursive;
    var m' := Poke(m, f, d[3], e);
    LeafSetTables(m, root, free, d, f, e);
    forall c | PagePath(c) ensures Leaf(m', root, c) == if c == d then e else Leaf(m, root, c) {
      assert TablePath(c[..3]);
      LeafSetLeaf(m, root, free, d, f, e, c);
    }
    forall c, k | PagePath(c) && 1 <= k <= 3 && Leaf(m', root, c).p && Leaf(m', root, c).us
      ensures Inner(m', root, c[..k]).us
    {
      assert TablePath(c[..k]);
      assert Inner(m, root, c[..k]).us;
    }
  }
}
