/** Two address spaces after fork: edits of user pages through one of them stay out
    of the other, although both share the tables of the kernel half. */
module Isolation {
  import opened Basics
  import opened Paging
  import opened SpaceEdits
  import opened TableCopy

  /** Paths to the tables that translate user pages. */
  ghost predicate UserPath(q: seq<nat>) {
    TablePath(q) && (q == [] || q[0] < 256)
  }

  ghost predicate UserTable(m: Memory, root: nat, f: nat) {
    exists q :: UserPath(q) && Follow(m, root, q) == Some(f)
  }

  /** What edits of user pages of `root` may do: only its user tables and frames from the allocator change,
      a user table was one before or comes from the allocator, and the upper half of the root stays. */
  ghost predicate Confined(m: Memory, m': Memory, root: nat, free: set<nat>, free': set<nat>) {
    && free' <= free && m'.Keys == m.Keys && root in m
    && (forall f :: f in m && f !in free && !UserTable(m, root, f) ==> m'[f] == m[f])
    && (forall q :: UserPath(q) && Follow(m', root, q).Some? ==>
          Follow(m', root, q) == Follow(m, root, q) || Follow(m', root, q).value in free)
    && forall i :: 256 <= i < 512 ==> m'[root][i] == m[root][i]
  }

  lemma {:induction false} ConfinedSame(m: Memory, root: nat, free: set<nat>)
    requires root in m
    ensures Confined(m, m, root, free, free)
  {
  }

  lemma {:induction false} ConfinedThen(m0: Memory, m1: Memory, m2: Memory, root: nat, free0: set<nat>, free1: set<nat>, free2: set<nat>)
    requires Confined(m0, m1, root, free0, free1) && Confined(m1, m2, root, free1, free2)
    ensures Confined(m0, m2, root, free0, free2)
  {
    hide Follow;
    forall f | f in m0 && f !in free0 && !UserTable(m0, root, f) ensures !UserTable(m1, root, f) {
      forall q | UserPath(q) ensures Follow(m1, root, q) != Some(f) {
        assert Follow(m0, root, q) != Some(f);
      }
    }
  }

  /** A write to one entry of a user table that leaves all walks alone. */
  lemma {:induction false} ConfinedPoke(m: Memory, root: nat, free: set<nat>, p: seq<nat>, f: nat, i: nat, e: Entry)
    requires Tree(m, root) && root in m && UserPath(p) && Follow(m, root, p) == Some(f) && f in m && i < 512
    requires p == [] ==> i < 256
    requires forall q :: TablePath(q) ==> Follow(Poke(m, f, i, e), root, q) == Follow(m, root, q)
    ensures Confined(m, Poke(m, f, i, e), root, free, free)
  {
    UserRoot(m, root, p, f);
  }

  lemma {:induction false} UserRoot(m: Memory, root: nat, p: seq<nat>, f: nat)
    requires Tree(m, root) && UserPath(p) && Follow(m, root, p) == Some(f)
    ensures UserTable(m, root, f) && (f == root ==> p == [])
  {
    assert Follow(m, root, []) == Some(root);
    assert f == root ==> SameTable(m, root, p, []);
  }

  /** A new table on a user path. */
  lemma {:induction false} ConfinedLink(m: Memory, root: nat, free: set<nat>, p: seq<nat>, f: nat, i: nat, n: nat)
    requires CanLink(m, root, free, p, f, i, n) && UserPath(p) && UserPath(p + [i])
    ensures Confined(m, LinkTable(m, f, i, n), root, free, free - {n})
  {
    hide Follow, InnerOpen, UserOpen;
    var m' := LinkTable(m, f, i, n);
    UserRoot(m, root, p, f);
    RootIsTable(m, root);
    assert TablePath([]) && root !in free;
    forall q | UserPath(q) && Follow(m', root, q).Some?
      ensures Follow(m', root, q) == Follow(m, root, q) || Follow(m', root, q).value in free
    {
      FollowLinked(m, root, free, p, f, i, n, q);
    }
  }

  // ----- two spaces

  /** No user table of `a` is a table of `b`. */
  ghost predicate Apart(m: Memory, a: nat, b: nat) {
    forall q, r :: UserPath(q) && TablePath(r) && Follow(m, a, q).Some? ==> Follow(m, a, q) != Follow(m, b, r)
  }

  /** Two address spaces that share no user table. */
  ghost predicate Pair(m: Memory, a: nat, b: nat, free: set<nat>) {
    Space(m, a, free) && Space(m, b, free) && Apart(m, a, b) && Apart(m, b, a)
  }

  /** A table of `b` is left alone. */
  lemma {:induction false} OtherKept(m: Memory, m': Memory, a: nat, b: nat, free: set<nat>, free': set<nat>, q: seq<nat>)
    requires Space(m, b, free) && Apart(m, a, b) && Confined(m, m', a, free, free')
    requires TablePath(q) && Follow(m, b, q).Some?
    ensures var f := Follow(m, b, q).value; f in m && f in m' && m'[f] == m[f]
  {
  }

  /** Walks and entries of `b` are the same. */
  lemma {:induction false} OtherWalks(m: Memory, m': Memory, a: nat, b: nat, free: set<nat>, free': set<nat>, q: seq<nat>)
    requires Space(m, b, free) && Apart(m, a, b) && Confined(m, m', a, free, free') && TablePath(q)
    ensures Follow(m', b, q) == Follow(m, b, q)
    ensures q != [] ==> Inner(m', b, q) == Inner(m, b, q)
  {
    hide Follow, Space, Apart, Confined;
    forall k | 0 <= k < |q| && Follow(m, b, q[..k]).Some?
      ensures SameStep(m, m', Follow(m, b, q[..k]).value, q[k])
    {
      assert TablePath(q[..k]);
      OtherKept(m, m', a, b, free, free', q[..k]);
    }
    FollowAgree(m, m', b, q);
    if q != [] {
      var p := q[..|q| - 1];
      assert TablePath(p);
      OtherWalks(m, m', a, b, free, free', p);
      if Follow(m, b, p).Some? {
        OtherKept(m, m', a, b, free, free', p);
      }
    }
  }

  lemma {:induction false} OtherLeaf(m: Memory, m': Memory, a: nat, b: nat, free: set<nat>, free': set<nat>, d: seq<nat>)
    requires Space(m, b, free) && Apart(m, a, b) && Confined(m, m', a, free, free') && PagePath(d)
    ensures Leaf(m', b, d) == Leaf(m, b, d)
  {
    hide Follow, Space, Apart, Confined;
    assert TablePath(d[..3]);
    OtherWalks(m, m', a, b, free, free', d[..3]);
    if Follow(m, b, d[..3]).Some? {
      OtherKept(m, m', a, b, free, free', d[..3]);
    }
  }

  /** `b` stays a well-formed space. */
  lemma {:induction false} OtherSpace(m: Memory, m': Memory, a: nat, b: nat, free: set<nat>, free': set<nat>)
    requires Space(m, b, free) && Apart(m, a, b) && Confined(m, m', a, free, free')
    ensures Space(m', b, free')
  {
    hide Follow, Inner, Leaf, Apart;
    RootIsTable(m, b);
    OtherKept(m, m', a, b, free, free', []);
    forall q | TablePath(q)
      ensures Follow(m', b, q) == Follow(m, b, q) && (q != [] ==> Inner(m', b, q) == Inner(m, b, q))
    {
      OtherWalks(m, m', a, b, free, free', q);
    }
    forall q, r | TablePath(q) && TablePath(r) && SameTable(m', b, q, r) ensures q == r {
      assert SameTable(m, b, q, r);
    }
    forall d, k | PagePath(d) && 1 <= k <= 3 && Leaf(m', b, d).p && Leaf(m', b, d).us
      ensures Inner(m', b, d[..k]).us
    {
      OtherLeaf(m, m', a, b, free, free', d);
      assert Inner(m, b, d[..k]).us;
      assert TablePath(d[..k]);
    }
  }

  /** The kernel tables of `a` itself are the same. */
  lemma {:induction false} KernelWalks(m: Memory, m': Memory, a: nat, free: set<nat>, free': set<nat>, q: seq<nat>)
    requires Space(m, a, free) && Confined(m, m', a, free, free') && TablePath(q) && !UserPath(q)
    ensures Follow(m', a, q) == Follow(m, a, q)
  {
    hide Follow, InnerOpen, UserOpen;
    forall k | 0 <= k < |q| && Follow(m, a, q[..k]).Some?
      ensures SameStep(m, m', Follow(m, a, q[..k]).value, q[k])
    {
      if k == 0 {
        assert q[..k] == [];
        RootIsTable(m, a);
      } else {
        KernelTable(m, a, free, q[..k]);
      }
    }
    FollowAgree(m, m', a, q);
  }

  lemma {:induction false} KernelTable(m: Memory, a: nat, free: set<nat>, q: seq<nat>)
    requires Space(m, a, free) && TablePath(q) && !UserPath(q) && Follow(m, a, q).Some?
    ensures var f := Follow(m, a, q).value; f in m && f !in free && !UserTable(m, a, f)
  {
    hide Follow, InnerOpen, UserOpen;
    forall r | UserPath(r) ensures Follow(m, a, r) != Follow(m, a, q) {
      assert !SameTable(m, a, q, r);
    }
  }

  /** An edit through `a` changes no page of `b`, and the two stay apart. */
  lemma {:induction false} EditKeepsPair(m: Memory, m': Memory, a: nat, b: nat, free: set<nat>, free': set<nat>)
    requires Pair(m, a, b, free) && Space(m', a, free') && Confined(m, m', a, free, free')
    ensures Pair(m', a, b, free') && SameLeaves(m, m', b)
  {
    hide Follow, Leaf, InnerOpen, UserOpen;
    OtherSpace(m, m', a, b, free, free');
    forall d | PagePath(d) ensures Leaf(m', b, d) == Leaf(m, b, d) {
      OtherLeaf(m, m', a, b, free, free', d);
    }
    forall q, r | UserPath(q) && TablePath(r) && Follow(m', a, q).Some? ensures Follow(m', a, q) != Follow(m', b, r) {
      OtherWalks(m, m', a, b, free, free', r);
    }
    forall q, r | UserPath(q) && TablePath(r) && Follow(m', b, q).Some? ensures Follow(m', b, q) != Follow(m', a, r) {
      OtherWalks(m, m', a, b, free, free', q);
      if !UserPath(r) {
        KernelWalks(m, m', a, free, free', r);
      }
    }
  }

  lemma {:induction false} PairSwap(m: Memory, a: nat, b: nat, free: set<nat>)
    requires Pair(m, a, b, free)
    ensures Pair(m, b, a, free)
  {
  }

  // ----- runs

  /** What the two spaces share: the memory with all tables, and the frames that are left. */
  datatype Shared = Shared(mem: Memory, free: set<nat>)

  /** User pages of `who` are edited. */
  ghost predicate Edit(s: Shared, t: Shared, who: nat) {
    Space(t.mem, who, t.free) && Confined(s.mem, t.mem, who, s.free, t.free)
  }

  ghost predicate Edits(ss: seq<Shared>, who: seq<nat>, a: nat, b: nat) {
    && |ss| == |who| + 1
    && forall i :: 0 <= i < |who| ==> (who[i] == a || who[i] == b) && Edit(ss[i], ss[i + 1], who[i])
  }

  /** In every interleaving of edits through two such spaces, no edit changes a page of the other one, and
      both stay well-formed. */
  lemma {:induction false} Isolated(ss: seq<Shared>, who: seq<nat>, a: nat, b: nat, n: nat)
    requires Edits(ss, who, a, b) && n < |ss| && Pair(ss[0].mem, a, b, ss[0].free)
    ensures Pair(ss[n].mem, a, b, ss[n].free)
    ensures forall i :: 0 <= i < n ==>
              SameLeaves(ss[i].mem, ss[i + 1].mem, if who[i] == a then b else a)
    decreases n
  {
    hide Pair, Space, Confined, SameLeaves;
    if n > 0 {
      Isolated(ss, who, a, b, n - 1);
      var s, t := ss[n - 1], ss[n];
      assert Edit(s, ss[n - 1 + 1], who[n - 1]);
      if who[n - 1] == a {
        EditKeepsPair(s.mem, t.mem, a, b, s.free, t.free);
      } else {
        PairSwap(s.mem, a, b, s.free);
        EditKeepsPair(s.mem, t.mem, b, a, s.free, t.free);
        PairSwap(t.mem, b, a, t.free);
      }
    }
  }

  /** So whatever one of them does, the other finds the pages it had. */
  lemma {:induction false} PagesStay(ss: seq<Shared>, who: seq<nat>, a: nat, b: nat, n: nat)
    requires Edits(ss, who, a, b) && n < |ss| && Pair(ss[0].mem, a, b, ss[0].free)
    requires forall i :: 0 <= i < n ==> who[i] == a
    ensures SameLeaves(ss[0].mem, ss[n].mem, b)
    decreases n
  {
    hide Leaf;
    if n > 0 {
      PagesStay(ss, who, a, b, n - 1);
      Isolated(ss, who, a, b, n);
      assert SameLeaves(ss[n - 1].mem, ss[n - 1 + 1].mem, b);
    }
  }

  // ----- fork

  /** Parent and child share no user table. */
  lemma {:induction false} ForkApart(m0: Memory, root: nat, m: Memory, npg: nat, own: map<nat, seq<nat>>, free0: set<nat>, free: set<nat>)
    requires Forked(m0, root, m, npg, own, free0, free)
    ensures Pair(m, root, npg, free)
  {
    hide Forked, Follow, InnerOpen, UserOpen;
    ForkedFrom(m0, root, m, npg, own, free0, free);
    ParentSpace(m0, root, m, npg, own, free0, free);
    ChildSpace(m0, root, m, npg, own, free0, free);
    OwnedFrames(m0, root, m, npg, own, free0, free);
    forall q, r | UserPath(q) && TablePath(r) && Follow(m, root, q).Some? ensures Follow(m, root, q) != Follow(m, npg, r) {
      ParentKept(m0, root, m, npg, own, free0, free, q);
      ChildWalk(m0, root, m, npg, own, free0, free, r);
      assert q != r ==> !SameTable(m0, root, q, r);
    }
    forall q, r | UserPath(q) && TablePath(r) && Follow(m, npg, q).Some? ensures Follow(m, npg, q) != Follow(m, root, r) {
      ChildWalk(m0, root, m, npg, own, free0, free, q);
      ParentKept(m0, root, m, npg, own, free0, free, r);
    }
  }
}
