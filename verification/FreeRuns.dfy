/**
 * The free extents of physical memory as a list of runs: what taking the first fit
 * and giving a run back do to the set of free bytes.
 */
module FreeRuns {
  const PAGE := 4096

  /** `pages` free pages from address `addr` on. */
  datatype Run = Run(addr: nat, pages: nat)

  function End(r: Run): nat {
    r.addr + r.pages * PAGE
  }

  function Total(l: seq<Run>): nat {
    if l == [] then 0 else l[0].pages + Total(l[1..])
  }

  /** Ascending and disjoint, with no empty run. */
  predicate Sorted(l: seq<Run>) {
    && (forall i :: 0 <= i < |l| ==> l[i].pages > 0)
    && (forall i :: 0 < i < |l| ==> End(l[i - 1]) <= l[i].addr)
  }

  predicate Within(r: Run, p: int) {
    r.addr <= p < End(r)
  }

  /** Byte `p` is free. */
  ghost predicate Covers(l: seq<Run>, p: int) {
    exists i :: 0 <= i < |l| && Within(l[i], p)
  }

  lemma {:induction false} SortedApart(l: seq<Run>, i: nat, j: nat)
    requires Sorted(l) && i < j < |l|
    ensures End(l[i]) <= l[j].addr
    decreases j
  {
    if i + 1 < j {
      SortedApart(l, i, j - 1);
      assert End(l[j - 1]) <= l[j].addr;
    }
  }

  lemma {:induction false} TotalConcat(a: seq<Run>, b: seq<Run>)
    ensures Total(a + b) == Total(a) + Total(b)
  {
    if a == [] {
      assert a + b == b;
    } else {
      assert (a + b)[1..] == a[1..] + b;
      TotalConcat(a[1..], b);
    }
  }

  lemma {:induction false} TotalOne(r: Run)
    ensures Total([r]) == r.pages
  {
    assert [r][1..] == [];
  }

  /** Cutting a list around one run. */
  lemma {:induction false} TotalAround(l: seq<Run>, k: nat)
    requires k < |l|
    ensures Total(l) == Total(l[..k]) + l[k].pages + Total(l[k + 1..])
  {
    assert l == l[..k] + ([l[k]] + l[k + 1..]);
    TotalConcat(l[..k], [l[k]] + l[k + 1..]);
    TotalConcat([l[k]], l[k + 1..]);
    TotalOne(l[k]);
  }

  lemma {:induction false} TotalSet(l: seq<Run>, k: nat, r: Run)
    requires k < |l|
    ensures Total(l[k := r]) == Total(l) - l[k].pages + r.pages
  {
    TotalAround(l, k);
    TotalAround(l[k := r], k);
    assert l[k := r][..k] == l[..k] && l[k := r][k + 1..] == l[k + 1..];
  }

  // ----- first fit

  /** Run `k` is the first with `num` pages; `k == |l|` when there is none. */
  predicate FirstFit(l: seq<Run>, num: nat, k: nat) {
    && k <= |l| && (forall i :: 0 <= i < k ==> l[i].pages < num)
    && (k < |l| ==> l[k].pages >= num)
  }

  /** The list after `num` pages are cut from the front of run `k`. */
  function Take(l: seq<Run>, k: nat, num: nat): seq<Run>
    requires k < |l| && num <= l[k].pages
  {
    if l[k].pages == num then l[..k] + l[k + 1..]
    else l[k := Run(l[k].addr + num * PAGE, l[k].pages - num)]
  }

  /** Taking removes exactly the bytes it hands out, all of which were free. */
  lemma {:induction false} TakeExact(l: seq<Run>, k: nat, num: nat)
    requires Sorted(l) && k < |l| && num <= l[k].pages
    ensures Sorted(Take(l, k, num)) && Total(Take(l, k, num)) == Total(l) - num
    ensures forall p :: Covers(Take(l, k, num), p) <==> Covers(l, p) && !Within(Run(l[k].addr, num), p)
    ensures forall p :: Within(Run(l[k].addr, num), p) ==> Covers(l, p)
  {
    TakeSorted(l, k, num);
    TakeTotal(l, k, num);
    forall p ensures Covers(Take(l, k, num), p) <==> Covers(l, p) && !Within(Run(l[k].addr, num), p) {
      TakeCovers(l, k, num, p);
    }
    forall p | Within(Run(l[k].addr, num), p) ensures Covers(l, p) {
      assert Within(l[k], p);
    }
  }

  lemma {:induction false} TakeTotal(l: seq<Run>, k: nat, num: nat)
    requires k < |l| && num <= l[k].pages
    ensures Total(Take(l, k, num)) == Total(l) - num
  {
    TotalAround(l, k);
    TotalConcat(l[..k], l[k + 1..]);
    TotalSet(l, k, Run(l[k].addr + num * PAGE, l[k].pages - num));
  }

  lemma {:induction false} TakeSorted(l: seq<Run>, k: nat, num: nat)
    requires Sorted(l) && k < |l| && num <= l[k].pages
    ensures Sorted(Take(l, k, num))
  {
    var t := Take(l, k, num);
    if l[k].pages == num {
      forall i | 0 < i < |t| ensures End(t[i - 1]) <= t[i].addr {
        if i == k {
          SortedApart(l, k - 1, k + 1);
        } else if i < k {
          assert t[i] == l[i] && t[i - 1] == l[i - 1];
        } else {
          assert t[i] == l[i + 1] && t[i - 1] == l[i];
        }
      }
    } else {
      assert End(t[k]) == End(l[k]);
    }
  }

  lemma {:induction false} TakeCovers(l: seq<Run>, k: nat, num: nat, p: int)
    requires Sorted(l) && k < |l| && num <= l[k].pages
    ensures Covers(Take(l, k, num), p) <==> Covers(l, p) && !Within(Run(l[k].addr, num), p)
  {
    var t := Take(l, k, num);
    var gone := l[k].pages == num;
    if Covers(t, p) {
      var i :| 0 <= i < |t| && Within(t[i], p);
      var j := if gone && i >= k then i + 1 else i;
      assert Within(l[j], p);
      if j < k { SortedApart(l, j, k); }
      if k < j { SortedApart(l, k, j); }
    }
    if Covers(l, p) && !Within(Run(l[k].addr, num), p) {
      var j :| 0 <= j < |l| && Within(l[j], p);
      assert Within(t[if gone && j > k then j - 1 else j], p);
    }
  }

  // ----- giving pages back

  predicate Overlap(a: Run, b: Run) {
    (if a.addr > b.addr then a.addr else b.addr) < (if End(a) < End(b) then End(a) else End(b))
  }

  ghost predicate Overlaps(l: seq<Run>, r: Run) {
    exists i :: 0 <= i < |l| && Overlap(l[i], r)
  }

  predicate InFront(l: seq<Run>, i: nat, r: Run)
    requires i < |l|
  {
    l[i].addr == End(r)
  }

  predicate Behind(l: seq<Run>, i: nat, r: Run)
    requires i < |l|
  {
    End(l[i]) == r.addr
  }

  /** `r` lies in the gap after run `i`, touching neither side. */
  predicate InGap(l: seq<Run>, i: nat, r: Run)
    requires i < |l|
  {
    End(l[i]) < r.addr && (i + 1 == |l| || l[i + 1].addr > End(r))
  }

  predicate Hit(l: seq<Run>, i: nat, r: Run)
    requires i < |l|
  {
    InFront(l, i, r) || Behind(l, i, r) || InGap(l, i, r)
  }

  /** Run `k` is the first that `r` joins or follows; `k == |l|` when there is none. */
  predicate FirstHit(l: seq<Run>, r: Run, k: nat) {
    k <= |l| && (forall i :: 0 <= i < k ==> !Hit(l, i, r)) && (k < |l| ==> Hit(l, k, r))
  }

  /** The list after `r` is put back at the first hit. */
  function Put(l: seq<Run>, r: Run, k: nat): seq<Run>
    requires k <= |l|
  {
    if k == |l| then l
    else if InFront(l, k, r) then l[k := Run(r.addr, l[k].pages + r.pages)]
    else if Behind(l, k, r) then l[k := Run(l[k].addr, l[k].pages + r.pages)]
    else l[..k + 1] + [r] + l[k + 1..]
  }

  /** The free list is sorted and covers what it did and `r`, with the right total. */
  ghost predicate FreesExactly(l: seq<Run>, m: seq<Run>, r: Run) {
    && Sorted(m) && Total(m) == Total(l) + r.pages
    && (forall p :: Covers(m, p) <==> Covers(l, p) || Within(r, p))
  }

  lemma {:induction false} FreesGives(l: seq<Run>, m: seq<Run>, r: Run)
    ensures FreesExactly(l, m, r) ==> Sorted(m) && Total(m) == Total(l) + r.pages
  {
  }

  /** No run starts at address 0, which stands for failure. */
  predicate Positive(l: seq<Run>) {
    forall i :: 0 <= i < |l| ==> l[i].addr > 0
  }

  lemma {:induction false} AtPositive(l: seq<Run>, k: nat)
    requires Positive(l) && k < |l|
    ensures l[k].addr > 0
  {
  }

  lemma {:induction false} HitBound(l: seq<Run>, r: Run, k: nat)
    requires FirstHit(l, r, k)
    ensures k <= |l|
  {
  }

  lemma {:induction false} TakePositive(l: seq<Run>, k: nat, num: nat)
    requires Positive(l) && k < |l| && num <= l[k].pages
    ensures Positive(Take(l, k, num))
  {
  }

  /** For instance, taking a page at address 0 reads as failure and is not counted. */
  lemma {:induction false} UncountedPage()
    ensures var l := [Run(0, 2)]; FirstFit(l, 1, 0) && l[0].addr == 0 && Total(Take(l, 0, 1)) == Total(l) - 1
  {
    TakeTotal([Run(0, 2)], 0, 1);
  }

  /** Only giving back a range at address 0 can bring such a run about, and then it does. */
  lemma {:induction false} PutPositive(l: seq<Run>, r: Run, k: nat)
    requires Positive(l) && k <= |l|
    ensures r.addr > 0 ==> Positive(Put(l, r, k))
    ensures r.addr == 0 && FirstHit(l, r, k) && k < |l| && InFront(l, k, r) ==> !Positive(Put(l, r, k))
  {
    if r.addr == 0 && FirstHit(l, r, k) && k < |l| && InFront(l, k, r) {
      assert Put(l, r, k)[k].addr == 0;
    }
  }

  /** `r` would become an empty run of its own. */
  predicate EmptyInGap(l: seq<Run>, r: Run) {
    r.pages == 0 && exists i :: 0 <= i < |l| && InGap(l, i, r)
  }

  /** `r` ends before the first run starts. */
  predicate BelowAll(l: seq<Run>, r: Run)
    requires l != []
  {
    r.pages > 0 && End(r) < l[0].addr
  }

  /** Whatever does not overlap the list is put back exactly, unless it lies wholly below the
      first run, or is empty and touches no run. */
  lemma {:induction false} PutExact(l: seq<Run>, r: Run, k: nat)
    requires Sorted(l) && l != [] && !Overlaps(l, r) && FirstHit(l, r, k)
    ensures FreesExactly(l, Put(l, r, k), r) <==> !BelowAll(l, r) && !EmptyInGap(l, r)
  {
    if k == |l| {
      NoHit(l, r);
    } else if InFront(l, k, r) || Behind(l, k, r) {
      PutTouching(l, r, k);
      HitTouching(l, r, k);
    } else {
      PutInGap(l, r, k);
    }
  }

  /** For instance, a page below the only run is lost. */
  lemma {:induction false} LostPage()
    ensures var l, r := [Run(0x5000, 1)], Run(0x1000, 1);
      Sorted(l) && !Overlaps(l, r) && FirstHit(l, r, 1) && Put(l, r, 1) == l && !FreesExactly(l, l, r)
  {
    var l := [Run(0x5000, 1)];
    assert l[1..] == [];
  }

  /** Nothing is hit only below the first run, or by an empty range. */
  lemma {:induction false} NoHit(l: seq<Run>, r: Run)
    requires Sorted(l) && l != [] && !Overlaps(l, r) && FirstHit(l, r, |l|)
    ensures FreesExactly(l, l, r) <==> !BelowAll(l, r)
    ensures !EmptyInGap(l, r)
  {
    forall i | 0 <= i < |l| ensures !InGap(l, i, r) {
      assert !Hit(l, i, r);
    }
    if r.pages > 0 {
      AllBefore(l, r, |l| - 1);
    }
  }

  /** Without a hit, a non-empty `r` that is not below the list would lie above all of it. */
  lemma {:induction false} AllBefore(l: seq<Run>, r: Run, i: nat)
    requires Sorted(l) && i < |l| && !Overlaps(l, r) && r.pages > 0
    requires forall j :: 0 <= j < |l| ==> !Hit(l, j, r)
    ensures !BelowAll(l, r) ==> End(l[i]) < r.addr
    ensures i + 1 == |l| ==> BelowAll(l, r)
    decreases i
  {
    assert !Overlap(l[i], r) && !Hit(l, i, r);
    if i > 0 {
      AllBefore(l, r, i - 1);
      assert !Hit(l, i - 1, r);
    }
  }

  lemma {:induction false} HitTouching(l: seq<Run>, r: Run, k: nat)
    requires Sorted(l) && l != [] && !Overlaps(l, r) && k < |l|
    requires InFront(l, k, r) || Behind(l, k, r)
    ensures !BelowAll(l, r) && !EmptyInGap(l, r)
  {
    if k > 0 { SortedApart(l, 0, k); }
    forall i | 0 <= i < |l| ensures !InGap(l, i, r) || r.pages > 0 {
      if i < k {
        SortedApart(l, i, k);
        if i + 1 < k { SortedApart(l, i + 1, k); }
      }
      if k < i { SortedApart(l, k, i); }
    }
  }

  /** Joining a run keeps the order: the neighbour on that side does not reach into `r`. */
  lemma {:induction false} PutTouching(l: seq<Run>, r: Run, k: nat)
    requires Sorted(l) && !Overlaps(l, r) && k < |l| && (InFront(l, k, r) || Behind(l, k, r))
    ensures FreesExactly(l, Put(l, r, k), r)
  {
    var m := Put(l, r, k);
    TotalSet(l, k, m[k]);
    JoinSorted(l, r, k);
    forall p ensures Covers(m, p) <==> Covers(l, p) || Within(r, p) {
      JoinCovers(l, r, k, p);
    }
  }

  lemma {:induction false} JoinSorted(l: seq<Run>, r: Run, k: nat)
    requires Sorted(l) && !Overlaps(l, r) && k < |l| && (InFront(l, k, r) || Behind(l, k, r))
    ensures Sorted(Put(l, r, k))
  {
    var m := Put(l, r, k);
    if k > 0 {
      assert !Overlap(l[k - 1], r);
    }
    if k + 1 < |l| {
      assert !Overlap(l[k + 1], r);
    }
    forall i | 0 < i < |m| ensures End(m[i - 1]) <= m[i].addr {
      assert End(l[i - 1]) <= l[i].addr && l[i - 1].pages > 0 && l[i].pages > 0;
    }
  }

  lemma {:induction false} JoinCovers(l: seq<Run>, r: Run, k: nat, p: int)
    requires k < |l| && (InFront(l, k, r) || Behind(l, k, r))
    ensures Covers(Put(l, r, k), p) <==> Covers(l, p) || Within(r, p)
  {
    var m := Put(l, r, k);
    assert Within(m[k], p) <==> Within(l[k], p) || Within(r, p);
    if Covers(m, p) {
      var i :| 0 <= i < |m| && Within(m[i], p);
      assert i == k || Within(l[i], p);
    }
    if Covers(l, p) {
      var i :| 0 <= i < |l| && Within(l[i], p);
      assert Within(m[i], p);
    }
    if Within(r, p) {
      assert Within(m[k], p);
    }
  }

  lemma {:induction false} PutInGap(l: seq<Run>, r: Run, k: nat)
    requires Sorted(l) && k < |l| && InGap(l, k, r) && !InFront(l, k, r) && !Behind(l, k, r)
    ensures FreesExactly(l, Put(l, r, k), r) <==> !EmptyInGap(l, r)
    ensures !BelowAll(l, r)
  {
    var m := Put(l, r, k);
    if k > 0 { SortedApart(l, 0, k); }
    assert m[k + 1] == r;
    InsertTotal(l, r, k);
    forall p ensures Covers(m, p) <==> Covers(l, p) || Within(r, p) {
      InsertCovers(l, r, k, p);
    }
    if r.pages > 0 {
      InsertSorted(l, r, k);
    }
  }

  lemma {:induction false} InsertTotal(l: seq<Run>, r: Run, k: nat)
    requires k < |l|
    ensures Total(l[..k + 1] + [r] + l[k + 1..]) == Total(l) + r.pages
  {
    assert l == l[..k + 1] + l[k + 1..];
    TotalConcat(l[..k + 1], l[k + 1..]);
    TotalConcat(l[..k + 1] + [r], l[k + 1..]);
    TotalConcat(l[..k + 1], [r]);
    TotalOne(r);
  }

  lemma {:induction false} InsertSorted(l: seq<Run>, r: Run, k: nat)
    requires Sorted(l) && k < |l| && InGap(l, k, r) && r.pages > 0
    ensures Sorted(l[..k + 1] + [r] + l[k + 1..])
  {
    var m := l[..k + 1] + [r] + l[k + 1..];
    forall i | 0 <= i < |m| ensures m[i].pages > 0 && (i > 0 ==> End(m[i - 1]) <= m[i].addr) {
      if i <= k {
        assert m[i] == l[i] && (i > 0 ==> m[i - 1] == l[i - 1]);
      } else if i > k + 2 {
        assert m[i] == l[i - 1] && m[i - 1] == l[i - 2];
      } else if i == k + 2 {
        assert m[i] == l[k + 1] && m[i - 1] == r;
      }
    }
  }

  lemma {:induction false} InsertCovers(l: seq<Run>, r: Run, k: nat, p: int)
    requires k < |l|
    ensures Covers(l[..k + 1] + [r] + l[k + 1..], p) <==> Covers(l, p) || Within(r, p)
  {
    var m := l[..k + 1] + [r] + l[k + 1..];
    assert m[k + 1] == r;
    if Covers(m, p) {
      var i :| 0 <= i < |m| && Within(m[i], p);
      assert i == k + 1 || Within(l[if i <= k then i else i - 1], p);
    }
    if Covers(l, p) {
      var i :| 0 <= i < |l| && Within(l[i], p);
      assert Within(m[if i <= k then i else i + 1], p);
    }
    if Within(r, p) {
      assert Within(m[k + 1], p);
    }
  }
}
