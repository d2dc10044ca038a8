/** The fork-time copy of a page table (src/kernel/mm/map.c, `copy_pgt`): what a
    copied table is, and what it means for parent and child as address spaces. */
module TableCopy {
  import opened Basics
  import opened Paging
  import opened SpaceEdits

  /** The root table is copied for the user half only. */
  function Limit(lv: nat): nat {
    if lv == 3 then 256 else 512
  }

  function ReadOnly(e: Entry): Entry {
    e.(rw := false)
  }

  /** `e'` forbids writing and is otherwise `e`: same frame, same presence, same other rights. */
  ghost predicate Protects(e: Entry, e': Entry) {
    !e'.rw && e'.addr == e.addr && e'.p == e.p && e'.us == e.us && e'.ps == e.ps && e'.other == e.other
  }

  function ReadOnlyTable(t: seq<Entry>): (r: seq<Entry>)
    requires |t| == 512
    ensures |r| == 512 && forall i :: 0 <= i < 512 ==> r[i] == ReadOnly(t[i])
  {
    seq(512, i requires 0 <= i < 512 => ReadOnly(t[i]))
  }

  /** The tables below `pg` down to the lowest level: every non-zero link is
      present, no table is a free frame, and the lowest tables are exactly those
      in `pts`. */
  ghost predicate Tables(m: Memory, pg: nat, lv: nat, pts: set<nat>, free: set<nat>)
    decreases lv
  {
    && pg in m && pg !in free && (lv == 0 <==> pg in pts)
    && (lv > 0 ==>
          forall i :: 0 <= i < Limit(lv) && m[pg][i] != ZERO ==>
            m[pg][i].p && Tables(m, m[pg][i].addr, lv - 1, pts, free))
  }

  /** The lowest tables below `pg`. */
  ghost function Lowest(m: Memory, pg: nat, lv: nat): set<nat>
    requires lv <= 3
    decreases lv, 513
  {
    if lv == 0 then {pg} else LowestBelow(m, pg, lv, Limit(lv))
  }

  /** The lowest tables below the first `n` entries of `pg`. */
  ghost function LowestBelow(m: Memory, pg: nat, lv: nat, n: nat): set<nat>
    requires 1 <= lv <= 3 && n <= 512
    decreases lv, n
  {
    if n == 0 || pg !in m then {}
    else
      LowestBelow(m, pg, lv, n - 1) +
      if m[pg][n - 1] != ZERO then Lowest(m, m[pg][n - 1].addr, lv - 1) else {}
  }

  /** How many tables there are from `pg` down: as many frames as a copy takes. */
  ghost function Count(m: Memory, pg: nat, lv: nat): (n: nat)
    requires lv <= 3
    ensures n > 0
    decreases lv, 513
  {
    1 + if lv == 0 then 0 else CountBelow(m, pg, lv, Limit(lv))
  }

  /** How many there are below the first `n` entries of `pg`. */
  ghost function CountBelow(m: Memory, pg: nat, lv: nat, n: nat): nat
    requires 1 <= lv <= 3 && n <= 512
    decreases lv, n
  {
    if n == 0 || pg !in m then 0
    else CountBelow(m, pg, lv, n - 1) + if m[pg][n - 1] != ZERO then Count(m, m[pg][n - 1].addr, lv - 1) else 0
  }

  lemma {:induction false} CountNone(m: Memory, pg: nat, lv: nat)
    requires 1 <= lv <= 3
    ensures CountBelow(m, pg, lv, 0) == 0
  {
  }

  lemma {:induction false} CountGrows(m: Memory, pg: nat, lv: nat, a: nat, b: nat)
    requires 1 <= lv <= 3 && a <= b <= 512
    ensures CountBelow(m, pg, lv, a) <= CountBelow(m, pg, lv, b)
    decreases b
  {
    if a < b {
      CountGrows(m, pg, lv, a, b - 1);
    }
  }

  /** What one more entry of the table being copied adds. */
  lemma {:induction false} CountStep(m0: Memory, m1: Memory, m: Memory, pts: set<nat>, own0: map<nat, seq<nat>>, own: map<nat, seq<nat>>,
                                     free0: set<nat>, free: set<nat>, pg: nat, npg: nat, lv: nat, at: seq<nat>, i: nat)
    requires 1 <= lv <= 3 && i < Limit(lv) && Partway(m0, m1, m, pts, own0, own, free0, free, pg, npg, lv, at, i)
    ensures npg in m && CountBelow(m0, pg, lv, i + 1) ==
            CountBelow(m0, pg, lv, i) + if m[npg][i] != ZERO then Count(m0, m[npg][i].addr, lv - 1) else 0
  {
    hide Copying, Grown, OnlyCleared, CopiedEntry;
    assert m[npg][i] == m0[pg][i];
  }

  /** In `m`, the table `npg` is a copy of what `pg` was in `m0`: same flags, its own
      sub-tables, page entries without write permission. `own` records each new
      table with its path, counted from the copied root. */
  ghost predicate Copied(m0: Memory, pg: nat, m: Memory, npg: nat, lv: nat, own: map<nat, seq<nat>>, at: seq<nat>)
    decreases lv
  {
    && pg in m0 && npg in m && npg in own && own[npg] == at
    && forall i :: 0 <= i < Limit(lv) ==> CopiedEntry(m0, pg, m, npg, lv, own, at, i)
  }

  ghost predicate CopiedEntry(m0: Memory, pg: nat, m: Memory, npg: nat, lv: nat, own: map<nat, seq<nat>>, at: seq<nat>, i: nat)
    requires pg in m0 && npg in m && i < 512
    decreases lv, 0
  {
    var was, now := m0[pg][i], m[npg][i];
    if was == ZERO then now == ZERO
    else if lv == 0 then now == ReadOnly(was)
    else now == was.(addr := now.addr) && Copied(m0, was.addr, m, now.addr, lv - 1, own, at + [i])
  }

  ghost predicate Under(q: seq<nat>, at: seq<nat>) {
    |at| <= |q| && q[..|at|] == at
  }

  /** Every table recorded under `at` is still recorded and unchanged. */
  ghost predicate Untouched(own: map<nat, seq<nat>>, own': map<nat, seq<nat>>, m: Memory, m': Memory, at: seq<nat>) {
    forall f <- own :: Under(own[f], at) ==>
      f in own' && own'[f] == own[f] && (f in m ==> f in m' && m'[f] == m[f])
  }

  /** A copy survives changes outside its own tables. */
  lemma {:induction false} CopiedFrame(m0: Memory, pg: nat, m: Memory, m': Memory, npg: nat, lv: nat,
                                       own: map<nat, seq<nat>>, own': map<nat, seq<nat>>, at: seq<nat>)
    requires Copied(m0, pg, m, npg, lv, own, at)
    requires Untouched(own, own', m, m', at)
    ensures Copied(m0, pg, m', npg, lv, own', at)
    decreases lv, 1
  {
    forall i | 0 <= i < Limit(lv)
      ensures CopiedEntry(m0, pg, m', npg, lv, own', at, i)
    {
      assert CopiedEntry(m0, pg, m, npg, lv, own, at, i);
      UnderDeeper(own, own', m, m', at, i);
      EntryFrame(m0, pg, m, m', npg, lv, own, own', at, i);
    }
  }

  lemma {:induction false} UnderDeeper(own: map<nat, seq<nat>>, own': map<nat, seq<nat>>, m: Memory, m': Memory, at: seq<nat>, i: nat)
    requires Untouched(own, own', m, m', at)
    ensures Untouched(own, own', m, m', at + [i])
  {
    forall f <- own | Under(own[f], at + [i])
      ensures Under(own[f], at)
    {
      assert own[f][..|at|] == own[f][..|at| + 1][..|at|] == at;
    }
  }

  lemma {:induction false} EntryFrame(m0: Memory, pg: nat, m: Memory, m': Memory, npg: nat, lv: nat,
                                      own: map<nat, seq<nat>>, own': map<nat, seq<nat>>, at: seq<nat>, i: nat)
    requires pg in m0 && npg in m && npg in m' && i < 512
    requires CopiedEntry(m0, pg, m, npg, lv, own, at, i)
    requires m'[npg][i] == m[npg][i]
    requires Untouched(own, own', m, m', at + [i])
    ensures CopiedEntry(m0, pg, m', npg, lv, own', at, i)
    decreases lv, 0
  {
    if m0[pg][i] != ZERO && lv > 0 {
      CopiedFrame(m0, m0[pg][i].addr, m, m', m[npg][i].addr, lv - 1, own, own', at + [i]);
    }
  }

  /** Memory while a copy is under way: tables are as they were, except that lowest
      tables may have lost write permission and new frames hold the copy. */
  ghost predicate Progress(m0: Memory, m: Memory, pts: set<nat>, own: map<nat, seq<nat>>) {
    && m.Keys == m0.Keys
    && forall f :: f in m0 && f !in own ==>
         m[f] == m0[f] || (f in pts && m[f] == ReadOnlyTable(m0[f]))
  }

  lemma {:induction false} InnerCons(m: Memory, f: nat, s: seq<nat>)
    requires |s| >= 2 && Indices(s)
    ensures Inner(m, f, s) == if f in m && m[f][s[0]].p then Inner(m, m[f][s[0]].addr, s[1..]) else ZERO
  {
    var a := s[..|s| - 1];
    assert a[1..] == s[1..][..|s| - 2];
  }

  ghost predicate SameFlags(e: Entry, e': Entry) {
    e' == e.(addr := e'.addr)
  }

  /** What walks see in a copy: the same links and flags, pages read-only, and each
      table at its recorded path. */
  lemma {:induction false} CopiedWalk(m0: Memory, pg: nat, m: Memory, npg: nat, lv: nat, pts: set<nat>, free: set<nat>,
                                      own: map<nat, seq<nat>>, at: seq<nat>, s: seq<nat>)
    requires Copied(m0, pg, m, npg, lv, own, at) && Tables(m0, pg, lv, pts, free) && lv <= 3
    requires Indices(s) && |s| <= lv + 1 && (s != [] ==> s[0] < Limit(lv))
    ensures |s| <= lv ==>
              && (Follow(m, npg, s).Some? <==> Follow(m0, pg, s).Some?)
              && (Follow(m, npg, s).Some? ==> Follow(m, npg, s).value in own && own[Follow(m, npg, s).value] == at + s
                                              && Follow(m, npg, s).value in m)
    ensures s != [] ==>
              if |s| == lv + 1 then Inner(m, npg, s) == ReadOnly(Inner(m0, pg, s))
              else SameFlags(Inner(m0, pg, s), Inner(m, npg, s))
    decreases lv
  {
    if s == [] {
      assert at + s == at;
    } else {
      var i := s[0];
      assert CopiedEntry(m0, pg, m, npg, lv, own, at, i);
      var was, now := m0[pg][i], m[npg][i];
      if |s| == 1 {
        assert s[..0] == [] && s[1..] == [];
        if lv > 0 && was != ZERO {
          assert at + s == at + [i];
          assert Copied(m0, was.addr, m, now.addr, lv - 1, own, at + [i]);
        }
        FollowSnoc(m, npg, s);
        FollowSnoc(m0, pg, s);
      } else {
        InnerCons(m, npg, s);
        InnerCons(m0, pg, s);
        if was != ZERO {
          CopiedWalk(m0, was.addr, m, now.addr, lv - 1, pts, free, own, at + [i], s[1..]);
          assert at + [i] + s[1..] == at + s;
        }
      }
    }
  }

  /** The lowest tables are the tables at the end of full paths, */
  lemma {:induction false} LowestHas(m: Memory, pg: nat, lv: nat, s: seq<nat>)
    requires Indices(s) && |s| == lv <= 3 && (s != [] ==> s[0] < Limit(lv)) && Follow(m, pg, s).Some?
    ensures Follow(m, pg, s).value in Lowest(m, pg, lv)
    decreases lv
  {
    hide Lowest, LowestBelow;
    if lv > 0 {
      LowestHas(m, m[pg][s[0]].addr, lv - 1, s[1..]);
      BelowStep(m, pg, lv, s[0]);
    } else {
      assert s == [];
      LowestSelf(m, pg);
    }
  }

  lemma {:induction false} LowestSelf(m: Memory, pg: nat)
    ensures Lowest(m, pg, 0) == {pg}
  {
  }

  lemma {:induction false} BelowStep(m: Memory, pg: nat, lv: nat, i: nat)
    requires 1 <= lv <= 3 && pg in m && i < Limit(lv) && m[pg][i] != ZERO
    ensures Lowest(m, m[pg][i].addr, lv - 1) <= Lowest(m, pg, lv)
  {
    BelowGrows(m, pg, lv, i + 1, Limit(lv));
  }

  lemma {:induction false} BelowGrows(m: Memory, pg: nat, lv: nat, a: nat, b: nat)
    requires 1 <= lv <= 3 && a <= b <= 512
    ensures LowestBelow(m, pg, lv, a) <= LowestBelow(m, pg, lv, b)
    decreases b
  {
    if a < b {
      BelowGrows(m, pg, lv, a, b - 1);
    }
  }

  /** Every non-zero link below `pg` is present and leads to a table. */
  ghost predicate Linked(m: Memory, pg: nat, lv: nat)
    decreases lv
  {
    && pg in m
    && (lv > 0 ==>
          forall i :: 0 <= i < Limit(lv) && m[pg][i] != ZERO ==> m[pg][i].p && Linked(m, m[pg][i].addr, lv - 1))
  }

  /** and nothing else. */
  lemma {:induction false} LowestPath(m: Memory, pg: nat, lv: nat, f: nat) returns (s: seq<nat>)
    requires Linked(m, pg, lv) && lv <= 3 && f in Lowest(m, pg, lv)
    ensures Indices(s) && |s| == lv && (s != [] ==> s[0] < Limit(lv)) && Follow(m, pg, s) == Some(f)
    decreases lv, 513
  {
    if lv == 0 {
      s := [];
    } else {
      s := BelowPath(m, pg, lv, f, Limit(lv));
    }
  }

  lemma {:induction false} BelowPath(m: Memory, pg: nat, lv: nat, f: nat, n: nat) returns (s: seq<nat>)
    requires Linked(m, pg, lv) && 1 <= lv <= 3 && n <= Limit(lv) && f in LowestBelow(m, pg, lv, n)
    ensures Indices(s) && |s| == lv && s[0] < Limit(lv) && Follow(m, pg, s) == Some(f)
    decreases lv, n
  {
    if f in LowestBelow(m, pg, lv, n - 1) {
      s := BelowPath(m, pg, lv, f, n - 1);
    } else {
      var t := LowestPath(m, m[pg][n - 1].addr, lv - 1, f);
      s := [n - 1] + t;
      assert s[1..] == t;
    }
  }

  lemma {:induction false} TablesLinked(m: Memory, pg: nat, lv: nat, pts: set<nat>, free: set<nat>)
    requires Tables(m, pg, lv, pts, free)
    ensures Linked(m, pg, lv)
    decreases lv
  {
    if lv > 0 {
      forall i | 0 <= i < Limit(lv) && m[pg][i] != ZERO ensures Linked(m, m[pg][i].addr, lv - 1) {
        TablesLinked(m, m[pg][i].addr, lv - 1, pts, free);
      }
    }
  }

  /** A non-zero entry of a user table above the lowest level is present. */
  ghost predicate LinksPresent(m: Memory, root: nat) {
    forall q, i: nat :: i < 512 && TablePath(q) && TablePath(q + [i]) && (q + [i])[0] < 256 && Follow(m, root, q).Some? ==>
      Follow(m, root, q).value in m ==>
        m[Follow(m, root, q).value][i] == ZERO || m[Follow(m, root, q).value][i].p
  }

  lemma {:induction false} LinkedFrom(m: Memory, root: nat, free: set<nat>, q: seq<nat>)
    requires Space(m, root, free) && LinksPresent(m, root)
    requires TablePath(q) && (q != [] ==> q[0] < 256) && Follow(m, root, q).Some?
    ensures Linked(m, Follow(m, root, q).value, 3 - |q|)
    decreases 3 - |q|
  {
    hide Space, LinksPresent, Follow;
    PathsInMemory(m, root, free, q);
    var f := Follow(m, root, q).value;
    if |q| < 3 {
      forall i | 0 <= i < Limit(3 - |q|) && m[f][i] != ZERO
        ensures m[f][i].p && Linked(m, m[f][i].addr, 2 - |q|)
      {
        NextTable(m, root, q, i);
        LinkedFrom(m, root, free, q + [i]);
      }
    }
  }

  lemma {:induction false} PathsInMemory(m: Memory, root: nat, free: set<nat>, q: seq<nat>)
    requires Space(m, root, free) && TablePath(q) && Follow(m, root, q).Some?
    ensures Follow(m, root, q).value in m && |q| <= 3
  {
  }

  /** A non-zero entry of a user table leads to the next table. */
  lemma {:induction false} NextTable(m: Memory, root: nat, q: seq<nat>, i: nat)
    requires LinksPresent(m, root) && TablePath(q) && |q| < 3 && (q != [] ==> q[0] < 256)
    requires Follow(m, root, q).Some? && Follow(m, root, q).value in m && i < Limit(3 - |q|)
    requires m[Follow(m, root, q).value][i] != ZERO
    ensures m[Follow(m, root, q).value][i].p
    ensures TablePath(q + [i]) && (q + [i])[0] < 256
    ensures Follow(m, root, q + [i]) == Some(m[Follow(m, root, q).value][i].addr)
  {
    hide Follow;
    assert TablePath(q + [i]) && (q + [i])[0] < 256;
    FollowSnoc(m, root, q + [i]);
    assert (q + [i])[..|q|] == q;
  }

  /** A table that is one of the lowest is at the end of a full user path. */
  lemma {:induction false} LowestIsUser(m: Memory, root: nat, free: set<nat>, q: seq<nat>)
    requires Space(m, root, free) && Linked(m, root, 3) && TablePath(q) && Follow(m, root, q).Some?
    requires Follow(m, root, q).value in Lowest(m, root, 3)
    ensures |q| == 3 && q[0] < 256
  {
    var s := LowestPath(m, root, 3, Follow(m, root, q).value);
    assert TablePath(s) && SameTable(m, root, q, s);
  }

  lemma {:induction false} TablesFrom(m: Memory, root: nat, free: set<nat>, q: seq<nat>)
    requires Space(m, root, free) && LinksPresent(m, root)
    requires TablePath(q) && (q != [] ==> q[0] < 256) && Follow(m, root, q).Some?
    ensures Tables(m, Follow(m, root, q).value, 3 - |q|, Lowest(m, root, 3), free)
    decreases 3 - |q|
  {
    hide Lowest;
    var f, pts := Follow(m, root, q).value, Lowest(m, root, 3);
    if |q| == 3 {
      LowestHas(m, root, 3, q);
    } else {
      forall i | 0 <= i < Limit(3 - |q|) && m[f][i] != ZERO
        ensures m[f][i].p && Tables(m, m[f][i].addr, 2 - |q|, pts, free)
      {
        assert TablePath(q + [i]) && (q + [i])[0] < 256;
        FollowSnoc(m, root, q + [i]);
        assert (q + [i])[..|q|] == q;
        TablesFrom(m, root, free, q + [i]);
      }
      assert f !in pts by {
        if f in pts {
          RootIsTable(m, root);
          LinkedFrom(m, root, free, []);
          LowestIsUser(m, root, free, q);
        }
      }
    }
  }

  /** The kernel half of a copied root: the same entries, but its own recursive slot. */
  ghost predicate KernelHalf(was: seq<Entry>, now: seq<Entry>, npg: nat)
    requires |was| == 512 && |now| == 512
  {
    now[R] == TableEntry(npg) && forall i :: 256 <= i < R ==> now[i] == was[i]
  }

  /** The state once the root table `root` has been copied to `npg`. */
  ghost predicate Forked(m0: Memory, root: nat, m: Memory, npg: nat, own: map<nat, seq<nat>>, free0: set<nat>, free: set<nat>) {
    var pts := Lowest(m0, root, 3);
    && Space(m0, root, free0)
    && Tables(m0, root, 3, pts, free0)
    && Progress(m0, m, pts, own)
    && (forall f <- pts :: f in m && f in m0 && m[f] == ReadOnlyTable(m0[f]))
    && Copied(m0, root, m, npg, 3, own, [])
    && own.Keys <= free0 && free <= free0 && free !! own.Keys
    && KernelHalf(m0[root], m[npg], npg)
  }

  /** A table on a kernel path, or above the lowest level, keeps its contents. */
  lemma {:induction false} TableKept(m0: Memory, root: nat, m: Memory, npg: nat, own: map<nat, seq<nat>>, free0: set<nat>, free: set<nat>,
                                     q: seq<nat>)
    requires Forked(m0, root, m, npg, own, free0, free)
    requires TablePath(q) && Follow(m0, root, q).Some? && (|q| < 3 || q[0] >= 256)
    ensures var f := Follow(m0, root, q).value; f in m0 && f in m && f !in own && m[f] == m0[f]
  {
    var f := Follow(m0, root, q).value;
    var pts := Lowest(m0, root, 3);
    assert f in m0 && f !in free0 && f !in own;
    if f in pts {
      TablesLinked(m0, root, 3, pts, free0);
      LowestIsUser(m0, root, free0, q);
    }
  }

  /** The parent's walks do not change; its user pages lose write permission. */
  lemma {:induction false} ParentKept(m0: Memory, root: nat, m: Memory, npg: nat, own: map<nat, seq<nat>>, free0: set<nat>, free: set<nat>,
                                      q: seq<nat>)
    requires Forked(m0, root, m, npg, own, free0, free) && TablePath(q)
    ensures Follow(m, root, q) == Follow(m0, root, q)
    ensures q != [] ==> Inner(m, root, q) == Inner(m0, root, q)
  {
    hide Forked, Follow, Lowest;
    forall k | 0 <= k < |q| && Follow(m0, root, q[..k]).Some?
      ensures SameStep(m0, m, Follow(m0, root, q[..k]).value, q[k])
    {
      assert TablePath(q[..k]);
      TableKept(m0, root, m, npg, own, free0, free, q[..k]);
    }
    FollowAgree(m0, m, root, q);
    if q != [] {
      var a := q[..|q| - 1];
      forall k | 0 <= k < |a| && Follow(m0, root, a[..k]).Some?
        ensures SameStep(m0, m, Follow(m0, root, a[..k]).value, a[k])
      {
        assert a[..k] == q[..k];
      }
      FollowAgree(m0, m, root, a);
      if Follow(m0, root, a).Some? {
        TableKept(m0, root, m, npg, own, free0, free, a);
      }
    }
  }

  /** A lowest table on a user path is read-only now. */
  lemma {:induction false} TableCleared(m0: Memory, root: nat, m: Memory, npg: nat, own: map<nat, seq<nat>>, free0: set<nat>, free: set<nat>,
                                        q: seq<nat>)
    requires Forked(m0, root, m, npg, own, free0, free)
    requires TablePath(q) && Follow(m0, root, q).Some? && |q| == 3 && q[0] < 256
    ensures var f := Follow(m0, root, q).value; f in m0 && f in m && m[f] == ReadOnlyTable(m0[f])
  {
    hide Copied, Progress, Lowest;
    LowestHas(m0, root, 3, q);
  }

  lemma {:induction false} ParentLeaf(m0: Memory, root: nat, m: Memory, npg: nat, own: map<nat, seq<nat>>, free0: set<nat>, free: set<nat>,
                                      d: seq<nat>)
    requires Forked(m0, root, m, npg, own, free0, free) && PagePath(d)
    ensures Leaf(m, root, d) == if d[0] < 256 then ReadOnly(Leaf(m0, root, d)) else Leaf(m0, root, d)
    ensures d[0] < 256 ==> Protects(Leaf(m0, root, d), Leaf(m, root, d))
  {
    hide Forked, Follow, Lowest;
    var q := d[..3];
    assert TablePath(q);
    ParentKept(m0, root, m, npg, own, free0, free, q);
    if Follow(m0, root, q).Some? {
      if d[0] < 256 {
        TableCleared(m0, root, m, npg, own, free0, free, q);
      } else {
        TableKept(m0, root, m, npg, own, free0, free, q);
      }
    }
  }

  lemma {:induction false} ForkedFrom(m0: Memory, root: nat, m: Memory, npg: nat, own: map<nat, seq<nat>>, free0: set<nat>, free: set<nat>)
    requires Forked(m0, root, m, npg, own, free0, free)
    ensures Space(m0, root, free0) && m.Keys == m0.Keys && free <= free0
  {
  }

  lemma {:induction false} OwnedFrames(m0: Memory, root: nat, m: Memory, npg: nat, own: map<nat, seq<nat>>, free0: set<nat>, free: set<nat>)
    requires Forked(m0, root, m, npg, own, free0, free)
    ensures own.Keys <= free0
  {
  }

  /** The parent is still a well-formed address space. */
  lemma {:induction false} ParentSpace(m0: Memory, root: nat, m: Memory, npg: nat, own: map<nat, seq<nat>>, free0: set<nat>, free: set<nat>)
    requires Forked(m0, root, m, npg, own, free0, free)
    ensures Space(m, root, free)
  {
    hide Forked, Follow, Lowest, Inner, Leaf;
    ForkedFrom(m0, root, m, npg, own, free0, free);
    forall q | TablePath(q)
      ensures Follow(m, root, q) == Follow(m0, root, q) && (q != [] ==> Inner(m, root, q) == Inner(m0, root, q))
    {
      ParentKept(m0, root, m, npg, own, free0, free, q);
    }
    forall q, r | TablePath(q) && TablePath(r) && SameTable(m, root, q, r) ensures q == r {
      assert SameTable(m0, root, q, r);
    }
    assert Recursive(m, root) by {
      RootIsTable(m0, root);
      TableKept(m0, root, m, npg, own, free0, free, []);
    }
    forall d, k | PagePath(d) && 1 <= k <= 3 && Leaf(m, root, d).p && Leaf(m, root, d).us
      ensures Inner(m, root, d[..k]).us
    {
      ParentLeaf(m0, root, m, npg, own, free0, free, d);
      assert TablePath(d[..k]);
      assert Inner(m0, root, d[..k]).us;
    }
  }

  lemma {:induction false} RootIsTable(m: Memory, root: nat)
    ensures TablePath([]) && Follow(m, root, []) == Some(root)
  {
  }

  /** The child's user half: its own tables, linked as the parent's are. */
  lemma {:induction false} ChildUser(m0: Memory, root: nat, m: Memory, npg: nat, own: map<nat, seq<nat>>, free0: set<nat>, free: set<nat>,
                                     q: seq<nat>)
    requires Forked(m0, root, m, npg, own, free0, free)
    requires |q| <= 4 && Indices(q) && (q != [] ==> q[0] < 256)
    ensures |q| <= 3 ==>
              && (Follow(m, npg, q).Some? <==> Follow(m0, root, q).Some?)
              && (Follow(m, npg, q).Some? ==>
                    var f := Follow(m, npg, q).value; f in own && own[f] == q && f in m && f !in free)
    ensures q != [] ==>
              if |q| == 4 then Inner(m, npg, q) == ReadOnly(Inner(m0, root, q))
              else SameFlags(Inner(m0, root, q), Inner(m, npg, q))
  {
    hide Follow, Lowest, Copied, Tables, Progress, Inner, Space;
    CopiedWalk(m0, root, m, npg, 3, Lowest(m0, root, 3), free0, own, [], q);
    assert [] + q == q;
  }

  /** The child's kernel half: the parent's tables. */
  lemma {:induction false} ChildKernel(m0: Memory, root: nat, m: Memory, npg: nat, own: map<nat, seq<nat>>, free0: set<nat>, free: set<nat>,
                                       q: seq<nat>)
    requires Forked(m0, root, m, npg, own, free0, free)
    requires TablePath(q) && q != [] && q[0] >= 256
    ensures Follow(m, npg, q) == Follow(m0, root, q)
    ensures Follow(m, npg, q).Some? ==>
              var f := Follow(m, npg, q).value; f !in own && f in m0 && f in m && f !in free && m[f] == m0[f]
    ensures Inner(m, npg, q) == Inner(m0, root, q)
    decreases |q|
  {
    hide Forked, Lowest;
    assert q[0] < R;
    ForkedRoots(m0, root, m, npg, own, free0, free, q[0]);
    FollowSnoc(m, npg, q);
    FollowSnoc(m0, root, q);
    var a := q[..|q| - 1];
    if |q| > 1 {
      ChildKernel(m0, root, m, npg, own, free0, free, a);
    } else {
      assert a == [];
    }
    if Follow(m0, root, q).Some? {
      ForkedFrom(m0, root, m, npg, own, free0, free);
      TableKept(m0, root, m, npg, own, free0, free, q);
    }
  }

  lemma {:induction false} ForkedRoots(m0: Memory, root: nat, m: Memory, npg: nat, own: map<nat, seq<nat>>, free0: set<nat>, free: set<nat>,
                                       i: nat)
    requires Forked(m0, root, m, npg, own, free0, free)
    ensures root in m0 && npg in m && m[npg][R] == TableEntry(npg)
    ensures 256 <= i < R ==> m[npg][i] == m0[root][i]
  {
  }

  lemma {:induction false} ChildLeaf(m0: Memory, root: nat, m: Memory, npg: nat, own: map<nat, seq<nat>>, free0: set<nat>, free: set<nat>,
                                     d: seq<nat>)
    requires Forked(m0, root, m, npg, own, free0, free) && PagePath(d)
    ensures Leaf(m, npg, d) == if d[0] < 256 then ReadOnly(Leaf(m0, root, d)) else Leaf(m0, root, d)
    ensures d[0] < 256 ==> Protects(Leaf(m0, root, d), Leaf(m, npg, d))
  {
    hide Forked, Follow;
    assert Leaf(m, npg, d) == Inner(m, npg, d) && Leaf(m0, root, d) == Inner(m0, root, d);
    if d[0] < 256 {
      ChildUser(m0, root, m, npg, own, free0, free, d);
    } else {
      assert TablePath(d[..3]);
      ChildKernel(m0, root, m, npg, own, free0, free, d[..3]);
    }
  }

  /** One walk in the child, whichever half it goes to. */
  lemma {:induction false} ChildWalk(m0: Memory, root: nat, m: Memory, npg: nat, own: map<nat, seq<nat>>, free0: set<nat>, free: set<nat>,
                                     q: seq<nat>)
    requires Forked(m0, root, m, npg, own, free0, free) && TablePath(q)
    ensures Follow(m, npg, q).Some? <==> Follow(m0, root, q).Some?
    ensures Follow(m, npg, q).Some? ==>
              var f := Follow(m, npg, q).value;
              && f in m && f !in free
              && (f in own <==> q == [] || q[0] < 256)
              && (f in own ==> own[f] == q)
              && (f !in own ==> Follow(m0, root, q) == Some(f))
    ensures q != [] ==> SameFlags(Inner(m0, root, q), Inner(m, npg, q))
  {
    hide Forked, Follow, Inner;
    if q == [] || q[0] < 256 {
      ChildUser(m0, root, m, npg, own, free0, free, q);
    } else {
      ChildKernel(m0, root, m, npg, own, free0, free, q);
    }
  }

  /** The child is a well-formed address space of its own. */
  lemma {:induction false} ChildSpace(m0: Memory, root: nat, m: Memory, npg: nat, own: map<nat, seq<nat>>, free0: set<nat>, free: set<nat>)
    requires Forked(m0, root, m, npg, own, free0, free)
    ensures Space(m, npg, free)
  {
    hide Forked, Follow, Lowest, Inner, Leaf;
    ForkedFrom(m0, root, m, npg, own, free0, free);
    ForkedRoots(m0, root, m, npg, own, free0, free, R);
    forall q | TablePath(q) && Follow(m, npg, q).Some?
      ensures Follow(m, npg, q).value in m && Follow(m, npg, q).value !in free
      ensures q != [] ==> Inner(m, npg, q).rw && !Inner(m, npg, q).ps
    {
      ChildWalk(m0, root, m, npg, own, free0, free, q);
    }
    forall q, r | TablePath(q) && TablePath(r) && SameTable(m, npg, q, r) ensures q == r {
      ChildWalk(m0, root, m, npg, own, free0, free, q);
      ChildWalk(m0, root, m, npg, own, free0, free, r);
      if Follow(m, npg, q).value !in own {
        assert SameTable(m0, root, q, r);
      }
    }
    forall d, k | PagePath(d) && 1 <= k <= 3 && Leaf(m, npg, d).p && Leaf(m, npg, d).us
      ensures Inner(m, npg, d[..k]).us
    {
      ChildLeaf(m0, root, m, npg, own, free0, free, d);
      assert TablePath(d[..k]);
      ChildWalk(m0, root, m, npg, own, free0, free, d[..k]);
      assert Inner(m0, root, d[..k]).us;
    }
  }

  /** What every step of the copy keeps. */
  ghost predicate Copying(m0: Memory, m: Memory, pts: set<nat>, own: map<nat, seq<nat>>, free0: set<nat>, free: set<nat>) {
    && Progress(m0, m, pts, own)
    && own.Keys <= free0 && free <= free0 && free !! own.Keys && free0 <= m0.Keys
    && forall f <- free0 :: f % 0x1000 == 0
  }

  /** Exactly the tables in `cleared` have become read-only; other old tables are as
      in `m1`. */
  ghost predicate OnlyCleared(m0: Memory, m1: Memory, m: Memory, own: map<nat, seq<nat>>, cleared: set<nat>) {
    forall f :: f in m0 && f !in own ==>
      f in m && f in m1 && m[f] == if f in cleared then ReadOnlyTable(m0[f]) else m1[f]
  }

  /** Recorded tables stay recorded and unchanged. */
  ghost predicate Grown(own: map<nat, seq<nat>>, own': map<nat, seq<nat>>, m: Memory, m': Memory) {
    forall f <- own :: f in own' && own'[f] == own[f] && (f in m ==> f in m' && m'[f] == m[f])
  }

  /** The part of a table copy done after `n` entries. */
  ghost predicate CopiedUpTo(m0: Memory, pg: nat, m: Memory, npg: nat, lv: nat, own: map<nat, seq<nat>>, at: seq<nat>, n: nat) {
    && pg in m0 && npg in m && npg in own && own[npg] == at && n <= Limit(lv)
    && (forall i :: 0 <= i < n ==> CopiedEntry(m0, pg, m, npg, lv, own, at, i))
    && (forall i :: n <= i < 512 ==> m[npg][i] == m0[pg][i])
  }

  /** Linking the copy `c` of sub-table `n` completes entry `n`. */
  lemma {:induction false} CopyLink(m0: Memory, pg: nat, m1: Memory, m2: Memory, npg: nat, lv: nat,
                                    own1: map<nat, seq<nat>>, own2: map<nat, seq<nat>>, at: seq<nat>, n: nat, c: nat)
    requires CopiedUpTo(m0, pg, m1, npg, lv, own1, at, n) && 1 <= lv && n < Limit(lv)
    requires m0[pg][n] != ZERO
    requires Grown(own1, own2, m1, m2)
    requires Copied(m0, m0[pg][n].addr, m2, c, lv - 1, own2, at + [n])
    ensures npg in m2 && m2[npg] == m1[npg]
    ensures CopiedUpTo(m0, pg, Poke(m2, npg, n, m2[npg][n].(addr := c)), npg, lv, own2, at, n + 1)
  {
    var m3 := Poke(m2, npg, n, m2[npg][n].(addr := c));
    forall i | 0 <= i < n ensures CopiedEntry(m0, pg, m3, npg, lv, own2, at, i) {
      EntryFrame(m0, pg, m1, m3, npg, lv, own1, own2, at, i);
    }
    CopiedFrame(m0, m0[pg][n].addr, m2, m3, c, lv - 1, own2, own2, at + [n]);
  }

  /** Taking one frame for a plain copy of a table. */
  lemma {:induction false} TakeFrame(m0: Memory, m: Memory, pts: set<nat>, own: map<nat, seq<nat>>, free0: set<nat>, free: set<nat>,
                                     pg: nat, npg: nat, at: seq<nat>)
    requires Copying(m0, m, pts, own, free0, free) && pg in m0 && pg !in free0 && npg in free
    ensures m.Keys == m0.Keys && pg in m && npg !in own && npg != pg && npg in m0 && npg % 0x1000 == 0 && pg !in own
    ensures Copying(m0, m[npg := m[pg]], pts, own[npg := at], free0, free - {npg})
    ensures pg !in pts ==> m[pg] == m0[pg]
  {
  }

  /** The lowest tables need no further copying. */
  lemma {:induction false} CopyLowest(m0: Memory, m1: Memory, m: Memory, pg: nat, npg: nat, pts: set<nat>,
                                      own0: map<nat, seq<nat>>, own: map<nat, seq<nat>>, at: seq<nat>)
    requires Progress(m0, m1, pts, own0) && pg in pts && pg in m0 && pg !in own0 && npg != pg && npg in m0 && npg !in own0
    requires own == own0[npg := at]
    requires m == m1[pg := ReadOnlyTable(m1[pg])][npg := ReadOnlyTable(m1[pg])]
    ensures Progress(m0, m, pts, own) && Grown(own0, own, m1, m)
    ensures OnlyCleared(m0, m1, m, own, Lowest(m0, pg, 0))
    ensures Copied(m0, pg, m, npg, 0, own, at)
  {
    assert ReadOnlyTable(ReadOnlyTable(m0[pg])) == ReadOnlyTable(m0[pg]);
    assert m[npg] == m[pg] == ReadOnlyTable(m0[pg]);
    forall i | 0 <= i < Limit(0) ensures CopiedEntry(m0, pg, m, npg, 0, own, at, i) {
    }
  }

  /** Before the first entry, a new table is a plain copy. */
  lemma {:induction false} CopyStarts(m0: Memory, m1: Memory, m: Memory, pg: nat, npg: nat, lv: nat,
                                      own0: map<nat, seq<nat>>, own: map<nat, seq<nat>>, at: seq<nat>)
    requires pg in m0 && pg in m1 && m1[pg] == m0[pg] && 1 <= lv <= 3 && m1.Keys == m0.Keys
    requires npg !in own0 && own == own0[npg := at] && m == m1[npg := m1[pg]]
    ensures CopiedUpTo(m0, pg, m, npg, lv, own, at, 0)
    ensures Grown(own0, own, m1, m)
    ensures OnlyCleared(m0, m1, m, own, LowestBelow(m0, pg, lv, 0))
  {
  }

  /** Everything that holds after `n` entries of a table copy that began in `m1`. */
  ghost predicate Partway(m0: Memory, m1: Memory, m: Memory, pts: set<nat>, own0: map<nat, seq<nat>>, own: map<nat, seq<nat>>,
                          free0: set<nat>, free: set<nat>, pg: nat, npg: nat, lv: nat, at: seq<nat>, n: nat)
    requires 1 <= lv <= 3 && n <= 512
  {
    && Copying(m0, m, pts, own, free0, free)
    && Grown(own0, own, m1, m) && npg !in own0
    && OnlyCleared(m0, m1, m, own, LowestBelow(m0, pg, lv, n))
    && CopiedUpTo(m0, pg, m, npg, lv, own, at, n)
  }

  lemma {:induction false} PartwaySkip(m0: Memory, m1: Memory, m: Memory, pts: set<nat>, own0: map<nat, seq<nat>>, own: map<nat, seq<nat>>,
                                       free0: set<nat>, free: set<nat>, pg: nat, npg: nat, lv: nat, at: seq<nat>, n: nat)
    requires 1 <= lv <= 3 && n < Limit(lv)
    requires Partway(m0, m1, m, pts, own0, own, free0, free, pg, npg, lv, at, n)
    requires npg in m && m[npg][n] == ZERO
    ensures Partway(m0, m1, m, pts, own0, own, free0, free, pg, npg, lv, at, n + 1)
  {
    hide Copied, Copying, Grown;
    assert CopiedEntry(m0, pg, m, npg, lv, own, at, n);
    assert LowestBelow(m0, pg, lv, n + 1) == LowestBelow(m0, pg, lv, n);
  }

  /** Clearing in two stages, with one write to an own table at the end. */
  lemma {:induction false} LinkKeeps(m0: Memory, m1: Memory, m2: Memory, m3: Memory,
                                     own0: map<nat, seq<nat>>, own2: map<nat, seq<nat>>, own3: map<nat, seq<nat>>,
                                     npg: nat, n: nat, e: Entry, a: set<nat>, b: set<nat>)
    requires n < 512 && npg in m3 && npg in own2 && npg !in own0
    requires Grown(own0, own2, m1, m2) && Grown(own2, own3, m2, m3)
    requires OnlyCleared(m0, m1, m2, own2, a) && OnlyCleared(m0, m2, m3, own3, b)
    ensures npg in own3
    ensures OnlyCleared(m0, m1, Poke(m3, npg, n, e), own3, a + b)
    ensures Grown(own0, own3, m1, Poke(m3, npg, n, e))
  {
  }

  lemma {:induction false} PartwayLink(m0: Memory, m1: Memory, m2: Memory, m3: Memory, pts: set<nat>,
                                       own0: map<nat, seq<nat>>, own2: map<nat, seq<nat>>, own3: map<nat, seq<nat>>,
                                       free0: set<nat>, free2: set<nat>, free3: set<nat>,
                                       pg: nat, npg: nat, lv: nat, at: seq<nat>, n: nat, c: nat)
    requires 1 <= lv <= 3 && n < Limit(lv)
    requires Partway(m0, m1, m2, pts, own0, own2, free0, free2, pg, npg, lv, at, n)
    requires npg in m2 && m2[npg][n] != ZERO
    requires Copying(m0, m3, pts, own3, free0, free3)
    requires Grown(own2, own3, m2, m3)
    requires OnlyCleared(m0, m2, m3, own3, Lowest(m0, m2[npg][n].addr, lv - 1))
    requires Copied(m0, m2[npg][n].addr, m3, c, lv - 1, own3, at + [n])
    ensures c % 0x1000 == 0 && npg in m3
    ensures Partway(m0, m1, Poke(m3, npg, n, m3[npg][n].(addr := c)), pts, own0, own3, free0, free3, pg, npg, lv, at, n + 1)
  {
    hide CopiedEntry, Lowest, OnlyCleared, Grown;
    CopyLink(m0, pg, m2, m3, npg, lv, own2, own3, at, n, c);
    assert LowestBelow(m0, pg, lv, n + 1) == LowestBelow(m0, pg, lv, n) + Lowest(m0, m2[npg][n].addr, lv - 1);
    LinkKeeps(m0, m1, m2, m3, own0, own2, own3, npg, n, m3[npg][n].(addr := c),
              LowestBelow(m0, pg, lv, n), Lowest(m0, m2[npg][n].addr, lv - 1));
  }

  /** After the last entry the copy is complete, and stays so when the recursive
      slot of a root is set. */
  lemma {:induction false} CopyEnds(m0: Memory, m1: Memory, m: Memory, pts: set<nat>, own0: map<nat, seq<nat>>, own: map<nat, seq<nat>>,
                                    free0: set<nat>, free: set<nat>, pg: nat, npg: nat, lv: nat, at: seq<nat>)
    requires 1 <= lv <= 3 && Partway(m0, m1, m, pts, own0, own, free0, free, pg, npg, lv, at, Limit(lv))
    ensures npg in m && pg in m0
    ensures CopyOk(m0, m1, m, pts, own0, own, free0, free, pg, npg, lv, at)
    ensures lv == 3 ==>
              var m' := Poke(m, npg, R, TableEntry(npg));
              CopyOk(m0, m1, m', pts, own0, own, free0, free, pg, npg, lv, at) && KernelHalf(m0[pg], m'[npg], npg)
  {
    hide Copied, CopiedEntry, Grown, OnlyCleared, Copying, KernelHalf;
    assert Lowest(m0, pg, lv) == LowestBelow(m0, pg, lv, Limit(lv));
    CopyWhole(m0, pg, m, npg, lv, own, at);
    if lv == 3 {
      SetSlot(m0, m1, m, pts, own0, own, free0, free, npg, LowestBelow(m0, pg, lv, Limit(lv)));
    }
  }

  lemma {:induction false} CopyWhole(m0: Memory, pg: nat, m: Memory, npg: nat, lv: nat, own: map<nat, seq<nat>>, at: seq<nat>)
    requires CopiedUpTo(m0, pg, m, npg, lv, own, at, Limit(lv)) && 1 <= lv <= 3
    ensures Copied(m0, pg, m, npg, lv, own, at)
    ensures lv == 3 ==>
              var m' := Poke(m, npg, R, TableEntry(npg));
              Copied(m0, pg, m', npg, lv, own, at) && KernelHalf(m0[pg], m'[npg], npg)
  {
    if lv == 3 {
      var m' := Poke(m, npg, R, TableEntry(npg));
      forall i | 0 <= i < Limit(lv) ensures CopiedEntry(m0, pg, m', npg, lv, own, at, i) {
        EntryFrame(m0, pg, m, m', npg, lv, own, own, at, i);
      }
    }
  }

  lemma {:induction false} SetSlot(m0: Memory, m1: Memory, m: Memory, pts: set<nat>, own0: map<nat, seq<nat>>, own: map<nat, seq<nat>>,
                                   free0: set<nat>, free: set<nat>, npg: nat, a: set<nat>)
    requires npg in m && npg in own && npg !in own0
    requires Copying(m0, m, pts, own, free0, free) && Grown(own0, own, m1, m) && OnlyCleared(m0, m1, m, own, a)
    ensures var m' := Poke(m, npg, R, TableEntry(npg));
            Copying(m0, m', pts, own, free0, free) && Grown(own0, own, m1, m') && OnlyCleared(m0, m1, m', own, a)
  {
  }

  /** A finished table copy that began in `m1`. */
  ghost predicate CopyOk(m0: Memory, m1: Memory, m: Memory, pts: set<nat>, own0: map<nat, seq<nat>>, own: map<nat, seq<nat>>,
                         free0: set<nat>, free: set<nat>, pg: nat, npg: nat, lv: nat, at: seq<nat>)
    requires lv <= 3
  {
    && Copying(m0, m, pts, own, free0, free)
    && Grown(own0, own, m1, m)
    && OnlyCleared(m0, m1, m, own, Lowest(m0, pg, lv))
    && Copied(m0, pg, m, npg, lv, own, at)
  }
}
