/**
 * The physical page allocator once memory has been remapped: a linked list of free
 * extents behind a sentinel, whose nodes live on the kernel heap.
 */
module PageFrames {
  import opened FreeRuns

  class Extent {
    var pages: nat
    var addr: nat
    var next: Extent?

    constructor (a: nat, n: nat, following: Extent?)
      ensures addr == a && pages == n && next == following
    {
      addr, pages, next := a, n, following;
    }
  }

  /** Node `x` holds the run `r`. */
  ghost predicate Holds(x: Extent, r: Run)
    reads x
  {
    x.addr == r.addr && x.pages == r.pages
  }

  class PageAllocator {
    const head: Extent
    var pageFree: int
    ghost var spine: seq<Extent>    // the sentinel and then the nodes, in list order
    ghost var list: seq<Run>        // what the nodes hold

    ghost predicate Valid()
      reads this, spine
    {
      && |spine| == |list| + 1 && spine[0] == head
      && (forall i, j :: 0 <= i < j < |spine| ==> spine[i] != spine[j])
      && (forall i :: 0 <= i < |list| ==> spine[i].next == spine[i + 1])
      && (forall i :: 0 <= i < |list| ==> Holds(spine[i + 1], list[i]))
      && spine[|list|].next == null
    }

    /** The list is sorted, disjoint and counted, and holds no extent at address 0. */
    ghost predicate Consistent()
      reads this
    {
      Counted() && Positive(list)
    }

    ghost predicate Counted()
      reads this
    {
      Sorted(list) && pageFree == Total(list)
    }

    /** An allocator with one free extent; the boot code skips memory at address 0. */
    constructor (r: Run)
      ensures Valid() && list == [r] && pageFree == r.pages
      ensures r.addr > 0 && r.pages > 0 ==> Consistent()
    {
      TotalOne(r);
      var x := new Extent(r.addr, r.pages, null);
      var s := new Extent(0, 0, x);
      head, pageFree, spine, list := s, r.pages, [s, x], [r];
    }

    /** Cuts `num` pages from the first extent that has them; 0 when none has. The first node is read
        without a check, which fails if and only if there is none. */
    method AllocPages(num: nat) returns (fault: bool, page: nat, ghost k: nat)
      requires Valid()
      modifies this, spine
      ensures fault <==> old(list) == []
      ensures Valid() && FirstFit(old(list), num, k)
      ensures k == |old(list)| ==> page == 0 && list == old(list)
      ensures k < |old(list)| ==> page == old(list)[k].addr && list == Take(old(list), k, num)
      ensures pageFree == old(pageFree) - if page != 0 then num else 0
      ensures old(Consistent()) ==> Consistent()
      ensures old(Counted()) ==> (Counted() <==> k == |old(list)| || num == 0 || old(list)[k].addr != 0)
    {
      hide Sorted, Total, Take, Positive;
      ghost var was := list;
      fault, page, k := false, 0, 0;
      var n, prev := head.next, head;
      assert list != [] ==> spine[0].next == spine[1];
      if n == null {
        fault := true;
        return;
      }
      while true
        invariant Valid() && list == was && spine == old(spine) && page == 0 && pageFree == old(pageFree)
        invariant k < |list| && prev == spine[k] && n == spine[k + 1]
        invariant forall i :: 0 <= i < k ==> list[i].pages < num
        decreases |list| - k
      {
        assert Holds(spine[k + 1], list[k]);
        assert k + 1 < |list| ==> spine[k + 1].next == spine[k + 2];
        if n.pages >= num {
          page := n.addr;
          CarveNode(k, prev, n, num);
          break;
        }
        prev := prev.next;
        k := k + 1;
        if n.next == null {
          break;
        }
        n := n.next;
      }
      if page != 0 {
        pageFree := pageFree - num;
      }
      if k < |was| {
        if Sorted(was) {
          TakeExact(was, k, num);
        }
        if Positive(was) {
          AtPositive(was, k);
          TakePositive(was, k, num);
        }
      }
    }

    /** Takes `num` pages from the front of node `n`, and the node out of the list if it is empty. */
    method CarveNode(ghost k: nat, prev: Extent, n: Extent, num: nat)
      requires Valid() && k < |list| && prev == spine[k] && n == spine[k + 1] && num <= n.pages
      modifies this`spine, this`list, spine
      ensures Valid() && num <= old(list)[k].pages && list == Take(old(list), k, num)
    {
      assert Holds(n, list[k]);
      ghost var was := list;
      n.pages := n.pages - num;
      if n.pages == 0 {
        prev.next := n.next;
        Unlink(k);
      } else {
        n.addr := n.addr + num * PAGE;
        prev.next := n;
        list := list[k := Run(was[k].addr + num * PAGE, was[k].pages - num)];
        assert forall i :: 0 <= i < |list| && i != k ==> Holds(spine[i + 1], was[i]);
      }
      assert list == Take(was, k, num);
    }

    /** Drops node `k` from the ghost view. */
    ghost method Unlink(k: nat)
      requires |spine| == |list| + 1 && spine[0] == head && k < |list|
      requires forall i, j :: 0 <= i < j < |spine| ==> spine[i] != spine[j]
      requires forall i :: 0 <= i < |list| && i != k ==> spine[i].next == spine[i + 1]
      requires forall i :: 0 <= i < |list| && i != k ==> Holds(spine[i + 1], list[i])
      requires spine[k].next == spine[k + 1].next && spine[|list|].next == null
      modifies this`spine, this`list
      ensures Valid() && list == old(list)[..k] + old(list)[k + 1..]
    {
      ghost var s, l := spine, list;
      list := l[..k] + l[k + 1..];
      spine := s[..k + 1] + s[k + 2..];
      forall i | 0 <= i < |list| ensures spine[i].next == spine[i + 1] && Holds(spine[i + 1], list[i]) {
        if i < k {
          assert spine[i] == s[i] && spine[i + 1] == s[i + 1] && list[i] == l[i];
        } else {
          assert spine[i + 1] == s[i + 2] && list[i] == l[i + 1];
          assert s[i + 1].next == s[i + 2] && Holds(s[i + 2], l[i + 1]);
          assert i > k ==> spine[i] == s[i + 1];
        }
      }
    }

    /** Some free extent overlaps the range. */
    method IsFree(page: nat, num: nat) returns (r: bool)
      requires Valid() && list != []
      ensures r <==> Overlaps(list, Run(page, num))
    {
      var start, end := page, page + num * PAGE;
      var n := head.next;
      ghost var i := 0;
      while true
        invariant i < |list| && n == spine[i + 1]
        invariant forall j :: 0 <= j < i ==> !Overlap(list[j], Run(page, num))
        decreases |list| - i
      {
        assert Holds(spine[i + 1], list[i]);
        assert i + 1 < |list| ==> spine[i + 1].next == spine[i + 2];
        var ps, pe := n.addr, n.addr + n.pages * PAGE;
        if (if ps > start then ps else start) < (if pe < end then pe else end) {
          assert Overlap(list[i], Run(page, num));
          return true;
        }
        if n.next == null {
          return false;
        }
        n := n.next;
        i := i + 1;
      }
    }

    /** Gives a range back: joined to the extent it touches, or as an extent of its own. */
    method FreePages(page: nat, num: nat) returns (ghost k: nat)
      requires Valid() && list != [] && page % PAGE == 0 && !Overlaps(list, Run(page, num))
      modifies this, spine
      ensures Valid() && FirstHit(old(list), Run(page, num), k) && list == Put(old(list), Run(page, num), k)
      ensures pageFree == old(pageFree) + num && fresh(set x | x in spine && x !in old(spine))
      ensures old(Counted()) ==>
                (Counted() && FreesExactly(old(list), list, Run(page, num)) <==>
                 !BelowAll(old(list), Run(page, num)) && !EmptyInGap(old(list), Run(page, num)))
      ensures old(Consistent()) && page > 0 && !BelowAll(old(list), Run(page, num)) && !EmptyInGap(old(list), Run(page, num)) ==>
                Consistent()
    {
      hide Overlaps, FreesExactly, Sorted, Total, BelowAll, EmptyInGap, Put, FirstHit, Positive;
      ghost var was, r := list, Run(page, num);
      var busy := IsFree(page, num);
      assert !busy;
      k := PutBack(page, num);
      pageFree := pageFree + num;
      if Sorted(was) {
        PutExact(was, r, k);
        FreesGives(was, list, r);
      }
      if Positive(was) {
        HitBound(was, r, k);
        PutPositive(was, r, k);
      }
    }

    /** The search for the place of the range, and its insertion. */
    method PutBack(page: nat, num: nat) returns (ghost k: nat)
      requires Valid() && list != []
      modifies this`list, this`spine, spine
      ensures Valid() && FirstHit(old(list), Run(page, num), k) && list == Put(old(list), Run(page, num), k)
      ensures fresh(set x | x in spine && x !in old(spine))
    {
      ghost var was, r := list, Run(page, num);
      var start, end := page, page + num * PAGE;
      var n := head.next;
      k := 0;
      while true
        invariant Valid() && list == was && spine == old(spine)
        invariant k < |list| && n == spine[k + 1]
        invariant forall i :: 0 <= i < k ==> !Hit(list, i, r)
        decreases |list| - k
      {
        assert Holds(spine[k + 1], list[k]);
        assert k + 1 < |list| ==> spine[k + 1].next == spine[k + 2] && Holds(spine[k + 2], list[k + 1]);
        var ps, pe := n.addr, n.addr + n.pages * PAGE;
        if ps == end {
          SetNode(k, n, start, n.pages + num);
          return;
        } else if pe == start {
          SetNode(k, n, n.addr, n.pages + num);
          return;
        } else if pe < start && (n.next == null || n.next.addr > end) {
          InsertAfter(k, n, start, num);
          return;
        }
        assert !Hit(list, k, r);
        k := k + 1;
        if n.next == null {
          return;
        }
        n := n.next;
      }
    }

    method SetNode(ghost k: nat, n: Extent, addr: nat, pages: nat)
      requires Valid() && k < |list| && n == spine[k + 1]
      modifies this`list, n
      ensures Valid() && list == old(list)[k := Run(addr, pages)]
    {
      ghost var was := list;
      n.addr, n.pages := addr, pages;
      list := list[k := Run(addr, pages)];
      assert forall i :: 0 <= i < |list| && i != k ==> Holds(spine[i + 1], was[i]);
    }

    method InsertAfter(ghost k: nat, n: Extent, addr: nat, pages: nat)
      requires Valid() && k < |list| && n == spine[k + 1]
      modifies this`list, this`spine, n
      ensures Valid() && list == old(list)[..k + 1] + [Run(addr, pages)] + old(list)[k + 1..]
      ensures fresh(set x | x in spine && x !in old(spine))
    {
      ghost var s, l := spine, list;
      var x := new Extent(addr, pages, n.next);
      n.next := x;
      spine := s[..k + 2] + [x] + s[k + 2..];
      list := l[..k + 1] + [Run(addr, pages)] + l[k + 1..];
      forall i | 0 <= i < |list| ensures spine[i].next == spine[i + 1] && Holds(spine[i + 1], list[i]) {
        if i <= k {
          assert spine[i] == s[i] && spine[i + 1] == s[i + 1] && list[i] == l[i];
          assert Holds(s[i + 1], l[i]);
        } else if i > k + 1 {
          assert spine[i] == s[i - 1] || i == k + 2;
          assert spine[i + 1] == s[i] && list[i] == l[i - 1] && Holds(s[i], l[i - 1]);
        }
      }
    }
  }
}
