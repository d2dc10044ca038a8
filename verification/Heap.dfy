/** The kernel heap of src/kernel/mm/heap.c: first-fit allocation with splitting,
    two-sided coalescing, and growth through `sbrk`. */
module Heap {
  import opened HeapLayout

  const HEAP_BASE: nat := 0xffff_8100_0000_0000
  const NULL: nat := 0

  // ----- the block list as an allocator

  /** First fit: the first free block that is large enough is cut; when there is
      none the heap grows by `n`, and growth joins a free last block. */
  function FirstFit(bs: seq<Block>, n: nat): seq<Block> {
    if bs == [] then [Block(n, true)]
    else if !bs[0].used && bs[0].size > n then
      [Block(n, true), Block(bs[0].size - n, false)] + bs[1..]
    else if !bs[0].used && bs[0].size == n then [Block(n, true)] + bs[1..]
    else if |bs| == 1 && !bs[0].used then [Block(n, true), Block(bs[0].size, false)]
    else [bs[0]] + FirstFit(bs[1..], n)
  }

  predicate HasFit(bs: seq<Block>, n: nat) {
    exists i :: 0 <= i < |bs| && !bs[i].used && bs[i].size >= n
  }

  function TrailingFree(bs: seq<Block>): nat {
    if bs != [] && !bs[|bs| - 1].used then bs[|bs| - 1].size else 0
  }

  /** Serving `n` words never makes a block whose size overflows its tag. */
  predicate TagsHold(bs: seq<Block>, n: nat) {
    HasFit(bs, n) || TrailingFree(bs) + n < TAG_LIMIT
  }

  function LeadingFree(bs: seq<Block>): nat {
    if bs != [] && !bs[0].used then bs[0].size else 0
  }

  function Absorb(b: Block, right: seq<Block>): Block {
    Block(b.size + LeadingFree(right), false)
  }

  function AfterAbsorb(right: seq<Block>): seq<Block> {
    if LeadingFree(right) > 0 then right[1..] else right
  }

  /** The block list once the free block `b` has joined its free neighbours. */
  function Join(left: seq<Block>, b: Block, right: seq<Block>): seq<Block> {
    (if TrailingFree(left) > 0 then left[..|left| - 1] else left) +
    [Block(JoinedSize(left, b, right), false)] +
    AfterAbsorb(right)
  }

  /** What a free between `left` and `right` has to fit in one tag. */
  function JoinedSize(left: seq<Block>, b: Block, right: seq<Block>): nat {
    TrailingFree(left) + b.size + LeadingFree(right)
  }

  lemma {:induction false} JoinCoalesces(left: seq<Block>, b: Block, right: seq<Block>)
    requires Coalesced(left) && Coalesced(right)
    requires forall x :: x in left || x in right ==> x.size > 0
    ensures LeadingFree(AfterAbsorb(right)) == 0
    ensures Coalesced(Join(left, b, right))
    ensures Join(left, Absorb(b, right), AfterAbsorb(right)) == Join(left, b, right)
  {
    if right != [] && !right[0].used && |right| > 1 {
      assert right[0].used || right[1].used;
    }
    var front := if TrailingFree(left) > 0 then left[..|left| - 1] else left;
    if front != [] {
      assert left[|left| - 1] in left;
      if |front| < |left| {
        assert left[|left| - 2].used;
      }
    }
    if right != [] {
      assert right[0] in right;
    }
  }

  lemma {:induction false} JoinOnLeft(left: seq<Block>, b: Block, right: seq<Block>)
    requires !b.used && LeadingFree(right) == 0
    ensures Join(left, b, right) ==
            if TrailingFree(left) > 0
            then left[..|left| - 1] + [Block(left[|left| - 1].size + b.size, false)] + right
            else left + [b] + right
  {
  }

  /** A heap whose whole size is below 2^29 bytes never overflows a tag. */
  lemma {:induction false} SmallHeapHolds(left: seq<Block>, b: Block, right: seq<Block>)
    requires Total(left + [b] + right) < TAG_LIMIT
    ensures JoinedSize(left, b, right) < TAG_LIMIT
    ensures forall n :: Total(left + [b] + right) + n < TAG_LIMIT ==> TagsHold(left + [b] + right, n)
  {
    TotalSplit(left + [b], right);
    TotalSplit(left, [b]);
    TrailingIsPart(left);
    assert LeadingFree(right) <= Total(right);
    TrailingIsPart(left + [b] + right);
    assert [b][1..] == [];
  }

  lemma {:induction false} TrailingIsPart(bs: seq<Block>)
    ensures TrailingFree(bs) <= Total(bs)
  {
    if bs != [] {
      assert bs == bs[..|bs| - 1] + [bs[|bs| - 1]];
      TotalSplit(bs[..|bs| - 1], [bs[|bs| - 1]]);
    }
  }

  /** What growing the heap does to its last stretch of at most one block. */
  function Grow(rest: seq<Block>, n: nat): seq<Block> {
    if rest != [] && !rest[0].used then [Block(rest[0].size + n, false)] else rest + [Block(n, false)]
  }

  predicate Serves(b: Block, n: nat) {
    !b.used && b.size >= n
  }

  /** One step of the first-fit search over what is left of the list. */
  lemma {:induction false} SearchStep(rest: seq<Block>, n: nat)
    requires rest != []
    ensures Serves(rest[0], n) ==> FirstFit(rest, n) == Cut(rest[0], n) + rest[1..] && HasFit(rest, n)
    ensures !Serves(rest[0], n) && |rest| > 1 ==>
              FirstFit(rest, n) == [rest[0]] + FirstFit(rest[1..], n) && HasFit(rest, n) == HasFit(rest[1..], n)
  {
    if Serves(rest[0], n) {
      assert FirstFit(rest, n) == Cut(rest[0], n) + rest[1..];
    } else if HasFit(rest, n) {
      var i :| 0 <= i < |rest| && !rest[i].used && rest[i].size >= n;
      assert rest[1..][i - 1] == rest[i];
    }
  }

  /** First fit is the first fit: block `k` is cut, no block before it serves, and all others stay. */
  lemma {:induction false} FitsFirst(bs: seq<Block>, n: nat, k: nat)
    requires k < |bs| && Serves(bs[k], n) && forall i :: 0 <= i < k ==> !Serves(bs[i], n)
    ensures FirstFit(bs, n) == bs[..k] + Cut(bs[k], n) + bs[k + 1..]
  {
    SearchStep(bs, n);
    if k == 0 {
      assert bs[..0] + Cut(bs[0], n) + bs[1..] == Cut(bs[0], n) + bs[1..];
    } else {
      FitsFirst(bs[1..], n, k - 1);
      assert bs[..k] == [bs[0]] + bs[1..][..k - 1] && bs[1..][k..] == bs[k + 1..];
      assert [bs[0]] + (bs[1..][..k - 1] + Cut(bs[k], n) + bs[k + 1..]) == bs[..k] + Cut(bs[k], n) + bs[k + 1..];
    }
  }

  lemma {:induction false} NoFitOne(bs: seq<Block>, n: nat)
    requires |bs| == 1 && !Serves(bs[0], n)
    ensures !HasFit(bs, n)
  {
  }

  lemma {:induction false} CoalescedEmpty()
    ensures Coalesced([])
  {
  }

  /** Growing the heap at its last block does not change what first fit asks for,
      and leaves a last block that serves it. */
  lemma {:induction false} GrowthStep(left: seq<Block>, rest: seq<Block>, n: nat)
    requires |rest| <= 1 && (rest == [] ==> left == [])
    requires rest != [] ==> !Serves(rest[0], n) && rest[0].size > 0
    ensures Join(left + rest, Block(n, false), []) == left + Grow(rest, n)
    ensures FirstFit(Grow(rest, n), n) == FirstFit(rest, n)
    ensures !HasFit(rest, n) && HasFit(Grow(rest, n), n)
  {
    var g := Grow(rest, n);
    assert Serves(g[|g| - 1], n);
    assert Join(left + rest, Block(n, false), []) == left + g by {
      if rest != [] {
        assert (left + rest)[|left + rest| - 1] == rest[0];
        assert (left + rest)[..|left + rest| - 1] == left;
      }
    }
    assert FirstFit([Block(n, false)], n) == [Block(n, true)] + [Block(n, false)][1..] == [Block(n, true)];
    if rest != [] {
      assert rest[1..] == [];
      if rest[0].used {
        assert g[1..] == [Block(n, false)];
      }
    }
  }

  lemma {:induction false} CoalescedCons(b: Block, bs: seq<Block>)
    requires Coalesced(bs) && (bs == [] || b.used || bs[0].used)
    ensures Coalesced([b] + bs)
    ensures Total([b] + bs) == b.size + Total(bs)
  {
    assert ([b] + bs)[1..] == bs;
  }

  lemma {:induction false} CoalescedTail(bs: seq<Block>)
    requires Coalesced(bs) && bs != []
    ensures Coalesced(bs[1..])
    ensures |bs| > 1 && !bs[0].used ==> bs[1].used
    ensures Total(bs) == bs[0].size + Total(bs[1..])
  {
  }

  /** Placement keeps the list coalesced and changes the total only by growth. */
  lemma {:induction false} FirstFitKeeps(bs: seq<Block>, n: nat)
    requires Coalesced(bs)
    ensures Coalesced(FirstFit(bs, n))
    ensures Total(FirstFit(bs, n)) == Total(bs) + if HasFit(bs, n) then 0 else n
    ensures FirstFit(bs, n) != []
    ensures bs != [] && bs[0].used ==> FirstFit(bs, n)[0].used
  {
    hide Coalesced, Total, HasFit;
    var placed := Block(n, true);
    if bs == [] {
      GrowthStep([], [], n);
      EmptyTotal();
      CoalescedEmpty();
      CoalescedCons(placed, []);
      assert [placed] + [] == FirstFit(bs, n);
    } else {
      CoalescedTail(bs);
      SearchStep(bs, n);
      if Serves(bs[0], n) {
        var cut := Block(bs[0].size - n, false);
        CoalescedCons(cut, bs[1..]);
        CoalescedCons(placed, [cut] + bs[1..]);
        CoalescedCons(placed, bs[1..]);
        assert [placed, cut] + bs[1..] == [placed] + ([cut] + bs[1..]);
      } else if |bs| == 1 {
        NoFitOne(bs, n);
        CoalescedEmpty();
        EmptyTotal();
        assert bs[1..] == [];
        CoalescedCons(Block(bs[0].size, false), []);
        CoalescedCons(placed, [Block(bs[0].size, false)] + []);
        CoalescedCons(placed, []);
        CoalescedCons(bs[0], [placed] + []);
        assert [placed, Block(bs[0].size, false)] == [placed] + ([Block(bs[0].size, false)] + []);
        assert [bs[0]] + ([placed] + []) == [bs[0]] + [placed];
      } else {
        FirstFitKeeps(bs[1..], n);
        CoalescedCons(bs[0], FirstFit(bs[1..], n));
      }
    }
  }

  /** Beyond the largest `size_t`. */
  const SIZE_MAX: nat := 0x1_0000_0000_0000_0000

  /** `malloc`'s rounding: payload plus two tags, up to a multiple of 8 bytes,
      in 64-bit arithmetic; the result is in words. */
  function Need(siz: nat): nat {
    (siz + 15) % SIZE_MAX / 8 * 2
  }

  lemma {:induction false} NeedBounds(siz: nat)
    requires 0 < siz < SIZE_MAX && Need(siz) > 0
    ensures Need(siz) % 2 == 0 && Need(siz) >= 2
    ensures 4 * (Need(siz) - 2) >= siz <==> siz + 15 < SIZE_MAX
    ensures 4 * (Need(siz) - 2) < siz + 8
  {
  }

  lemma {:induction false} NeedEven(siz: nat)
    ensures Need(siz) % 2 == 0
  {
  }

  /** The sizes for which the rounding leaves nothing at all, and one for which it leaves room for
      the tags only. */
  lemma {:induction false} NeedWraps(siz: nat)
    requires 0 < siz < SIZE_MAX
    ensures Need(siz) == 0 <==> SIZE_MAX - 15 <= siz < SIZE_MAX - 7
    ensures Need(SIZE_MAX - 1) == 2
  {
    if siz + 15 >= SIZE_MAX {
      assert (siz + 15) % SIZE_MAX == siz + 15 - SIZE_MAX;
    }
  }

  function Address(p: nat): nat {
    HEAP_BASE + 4 * p
  }

  function Position(addr: nat): nat {
    if addr < HEAP_BASE then 0 else (addr - HEAP_BASE) / 4
  }

  lemma {:induction false} PointerMath(p: nat)
    ensures Position(Address(p)) == p && Address(p) >= HEAP_BASE
    ensures p % 2 == 0 ==> Address(p) % 8 == 0
  {
  }

  lemma {:induction false} JoinIgnoresUse(left: seq<Block>, b: Block, right: seq<Block>)
    ensures Join(left, Block(b.size, false), right) == Join(left, b, right)
  {
  }

  lemma {:induction false} BreakAt(w: seq<Word>, brk: nat, max: nat, bs: seq<Block>)
    requires Laid(w, brk, max, bs)
    ensures brk == ROOT + Total(bs)
  {
  }

  lemma {:induction false} FitBounds(w: seq<Word>, brk: nat, max: nat, bs: seq<Block>, n: nat)
    requires Laid(w, brk, max, bs) && TagsHold(bs, n)
    ensures n < TAG_LIMIT
  {
    AllSized(w, ROOT, bs);
    if HasFit(bs, n) {
      var i :| 0 <= i < |bs| && !bs[i].used && bs[i].size >= n;
      assert bs[i] in bs;
    }
  }

  /** What growing by no words writes: a header, a footer below it, and the epilogue over the header.
      The merge that follows reads sizes of zero and does nothing. */
  function GrownByNone(w: seq<Word>, brk: nat): seq<Word>
    requires 0 < brk < |w|
  {
    w[brk := Set(0, false)][brk - 1 := Set(0, false)][brk := Set(0, true)]
  }

  /** When the rounded size is zero and no block is free, `malloc` does not return: growing any number of
      times is growing once, and every header the search passes still belongs to a block in use. */
  lemma {:induction false} NeverServed(w: seq<Word>, brk: nat, max: nat, bs: seq<Block>)
    requires Laid(w, brk, max, bs) && !HasFit(bs, 0)
    ensures GrownByNone(GrownByNone(w, brk), brk) == GrownByNone(w, brk)
    ensures forall k :: 0 <= k < |bs| ==>
              var h := ROOT + Total(bs[..k]); h < |w| && GrownByNone(w, brk)[h] == Tag(bs[k]) && bs[k].used
  {
    hide Tiled, Live, Total, Set;
    forall k | 0 <= k < |bs|
      ensures var h := ROOT + Total(bs[..k]); h < |w| && GrownByNone(w, brk)[h] == Tag(bs[k]) && bs[k].used
    {
      assert bs == bs[..k] + [bs[k]] + bs[k + 1..];
      Around(w, brk, max, bs[..k], bs[k], bs[k + 1..]);
    }
  }

  /** `addr` is the pointer of the allocated block `k` of `bs`. */
  ghost predicate PointsAt(bs: seq<Block>, addr: nat, k: nat) {
    k < |bs| && bs[k].used && addr == Address(ROOT + Total(bs[..k]) + 1)
  }

  // ----- the allocator

  class KernelHeap {
    var words: seq<Word>
    var brk: nat
    var root: nat
    var max: nat
    ghost var blocks: seq<Block>

    ghost predicate Layout()
      reads this
    {
      root == ROOT && Laid(words, brk, max, blocks)
    }

    ghost predicate Valid()
      reads this
    {
      Layout() && Coalesced(blocks)
    }

    /** Live pointers, as positions, with the words stored behind them. */
    ghost function Payloads(): map<nat, seq<Word>>
      requires Layout()
      reads this
    {
      Live(words, ROOT, blocks)
    }

    constructor ()
      ensures Valid()
      ensures blocks == [] && Payloads() == map[]
    {
      var page: seq<Word> := seq(PAGE_WORDS, _ => 0);
      words := page[0 := Set(0, false)][1 := Set(8, true)][2 := Set(8, true)][3 := Set(0, true)];
      root, brk, max := ROOT, ROOT, PAGE_WORDS;
      blocks := [];
    }

    /** The first half of the merge: absorb a free successor. */
    method MergeNext(hdr: nat, ghost left: seq<Block>, ghost b: Block, ghost right: seq<Block>)
      requires Layout() && blocks == left + [b] + right
      requires hdr == ROOT + Total(left)
      requires !b.used && b.size + LeadingFree(right) < TAG_LIMIT
      modifies this`words, this`blocks
      ensures blocks == left + [Absorb(b, right)] + AfterAbsorb(right)
      ensures Layout() && Payloads() == old(Payloads())
    {
      hide Laid, Live, Total, Set, Siz, Aloc;
      Around(words, brk, max, left, b, right);
      NextTag(words, brk, max, left, b, right);
      var ftr := hdr + Siz(words[hdr]) / 4 - 1;
      var nextHdr := ftr + 1;
      if !Aloc(words[nextHdr]) && Siz(words[nextHdr]) != 0 {
        var nextFtr := nextHdr + Siz(words[nextHdr]) / 4 - 1;
        assert words[nextHdr] == words[nextFtr];
        assert left + [b] + right == left + [b, right[0]] + right[1..];
        ghost var joined := JoinTags(words, brk, max, left, b, right[0], right[1..]);
        words := words[hdr := Set(Siz(words[hdr]) + Siz(words[nextHdr]), false)];
        words := words[nextFtr := words[hdr]];
        assert words == joined;
        blocks := left + [Absorb(b, right)] + AfterAbsorb(right);
      }
    }

    /** The second half of the merge: be absorbed by a free predecessor. */
    method MergePrev(hdr: nat, ghost left: seq<Block>, ghost b: Block, ghost right: seq<Block>)
      requires Layout() && blocks == left + [b] + right
      requires hdr == ROOT + Total(left)
      requires !b.used && b.size + TrailingFree(left) < TAG_LIMIT
      requires LeadingFree(right) == 0
      modifies this`words, this`blocks
      ensures blocks == Join(left, b, right)
      ensures Layout() && Payloads() == old(Payloads())
    {
      hide Laid, Live, Total, Set, Siz, Aloc, Join;
      Around(words, brk, max, left, b, right);
      PrevTag(words, brk, max, left, b, right);
      JoinOnLeft(left, b, right);
      var prevFtr := hdr - 1;
      if !Aloc(words[prevFtr]) && Siz(words[prevFtr]) != 0 {
        var prevHdr := hdr - Siz(words[prevFtr]) / 4;
        assert words[prevHdr] == words[prevFtr];
        ghost var front, last := left[..|left| - 1], left[|left| - 1];
        assert left + [b] + right == front + [last, b] + right;
        ghost var joined := JoinTags(words, brk, max, front, last, b, right);
        TagRoundTrip(4 * (last.size + b.size), false);
        words := words[prevHdr := Set(Siz(words[prevHdr]) + Siz(words[hdr]), false)];
        words := words[prevHdr + Siz(words[prevHdr]) / 4 - 1 := words[prevHdr]];
        assert words == joined;
        blocks := front + [Block(last.size + b.size, false)] + right;
      }
    }

    /** Joins the free block `b` headed at `hdr` with its free neighbours. */
    method Merge(hdr: nat, ghost left: seq<Block>, ghost b: Block, ghost right: seq<Block>)
      requires Layout() && blocks == left + [b] + right
      requires hdr == ROOT + Total(left)
      requires !b.used
      requires Coalesced(left) && Coalesced(right)
      requires JoinedSize(left, b, right) < TAG_LIMIT
      modifies this`words, this`blocks
      ensures blocks == Join(left, b, right)
      ensures Valid() && Payloads() == old(Payloads())
    {
      hide Tiled, Live, Total, Set;
      AllSized(words, ROOT, left + [b] + right);
      assert forall x :: x in left || x in right ==> x in left + [b] + right;
      JoinCoalesces(left, b, right);
      MergeNext(hdr, left, b, right);
      MergePrev(hdr, left, Absorb(b, right), AfterAbsorb(right));
    }

    /** Maps whole pages, of unknown content, until `n` more words fit below `max`. */
    method MapPages(n: nat)
      requires Layout()
      modifies this`words, this`max
      ensures max == |words| && max % PAGE_WORDS == 0 && brk + n <= max
      ensures old(words) <= words
    {
      hide Tiled, Total, Set;
      var diff := brk + n - max;
      if diff > 0 {
        var pages := (diff + PAGE_WORDS - 1) / PAGE_WORDS;
        assert |seq(pages * PAGE_WORDS, _ => 0 as Word)| == pages * PAGE_WORDS;
        var mapped: seq<Word> :| |mapped| == pages * PAGE_WORDS;
        words := words + mapped;
        max := max + pages * PAGE_WORDS;
      }
    }

    /** Grows the mapping when needed, appends a free block of `n` words and moves
        the epilogue behind it; the new block joins a free last block. */
    method ExtendHeap(n: nat)
      requires Valid()
      requires WellSized(Block(n, false)) && TrailingFree(blocks) + n < TAG_LIMIT
      modifies this
      ensures Valid() && Payloads() == old(Payloads())
      ensures blocks == Join(old(blocks), Block(n, false), [])
    {
      hide Laid, Live, Total, Join, Set;
      ghost var w, bs := words, blocks;
      BreakAt(words, brk, max, blocks);
      MapPages(n);
      ghost var appended := AppendTags(w, brk, old(max), bs, words, n);
      var hdr := brk;
      brk := brk + n;
      words := words[hdr := Set(4 * n, false)][hdr + n - 1 := Set(4 * n, false)][hdr + n := Set(0, true)];
      assert words == appended;
      blocks := bs + [Block(n, false)];
      assert bs + [Block(n, false)] + [] == blocks;
      Merge(hdr, bs, Block(n, false), []);
    }

    /** The two placement branches of `malloc`: cut a larger block, or take one of
        the exact size. A cut of no words at all leaves no layout behind. */
    method Place(curr: nat, n: nat, ghost left: seq<Block>, ghost b: Block, ghost right: seq<Block>)
      requires Layout() && blocks == left + [b] + right
      requires curr == ROOT + Total(left)
      requires Serves(b, n) && n % 2 == 0
      modifies this`words, this`blocks
      ensures n == 0 ==> forall bs :: !Laid(words, brk, max, bs)
      ensures n > 0 ==>
                && Layout() && blocks == left + Cut(b, n) + right
                && curr + n <= |words|
                && curr + 1 !in old(Payloads())
                && Payloads() == old(Payloads())[curr + 1 := words[curr + 1..curr + n - 1]]
    {
      hide Laid, Live, Total, Set, Siz, Aloc;
      Around(words, brk, max, left, b, right);
      ghost var w := words;
      TagRoundTrip(4 * n, true);
      if n > 0 {
        blocks := left + Cut(b, n) + right;
      }
      var size := Siz(words[curr]) / 4;
      if size > n {
        var rest := Set(4 * (size - n), false);
        words := words[curr + size - 1 := rest][curr + n := rest];
        words := words[curr := Set(4 * n, true)][curr + n - 1 := Set(4 * n, true)];
        if n == 0 {
          NoTags(w, words, brk, max, left, b, right);
        } else {
          CutTags(w, words, brk, max, left, b, right, n);
        }
      } else {
        words := words[curr := Set(4 * n, true)];
        words := words[curr + Siz(words[curr]) / 4 - 1 := words[curr]];
        CutTags(w, words, brk, max, left, b, right, n);
      }
    }

    /** Reads the word at `curr`: the tag of the next block, or the epilogue. */
    lemma {:induction false} AtBlock(curr: nat, left: seq<Block>, rest: seq<Block>)
      requires Layout() && blocks == left + rest && curr == ROOT + Total(left)
      ensures curr < |words|
      ensures rest != [] ==>
                && WellSized(rest[0]) && curr % 2 == 1
                && blocks == left + [rest[0]] + rest[1..]
                && (curr + rest[0].size < brk <==> |rest| > 1)
                && Total(left + [rest[0]]) == Total(left) + rest[0].size
                && Siz(words[curr]) == 4 * rest[0].size && Aloc(words[curr]) == rest[0].used
      ensures rest == [] ==> curr == brk && Siz(words[curr]) == 0 && Aloc(words[curr])
    {
      hide Tiled, Live, Total, Set, Siz, Aloc;
      if rest != [] {
        assert blocks == left + [rest[0]] + rest[1..];
        Around(words, brk, max, left, rest[0], rest[1..]);
        NextTag(words, brk, max, left, rest[0], rest[1..]);
        TotalSplit(left, [rest[0]]);
        OneBlock(words, curr, rest[0]);
      } else {
        assert left == blocks;
        TagRoundTrip(0, true);
      }
    }

    /** The search loop of `malloc`: walks the blocks from the root, growing the
        heap when the last block does not serve, and stops at the header of the
        block that first fit asks for. It grows exactly when nothing fits. */
    method Search(n: nat) returns (curr: nat, ghost left: seq<Block>, ghost rest: seq<Block>, ghost grown: nat)
      requires Valid()
      requires if n == 0 then HasFit(blocks, n) else WellSized(Block(n, false)) && TagsHold(blocks, n)
      modifies this
      ensures Valid() && Payloads() == old(Payloads())
      ensures blocks == left + rest && rest != [] && Serves(rest[0], n)
      ensures curr == ROOT + Total(left)
      ensures left + Cut(rest[0], n) + rest[1..] == FirstFit(old(blocks), n)
      ensures grown == if HasFit(old(blocks), n) then 0 else 1
    {
      hide Laid, Live, Total, Set, Siz, Aloc, Join, FirstFit, Cut, HasFit, Coalesced;
      ghost var goal, fits := FirstFit(blocks, n), HasFit(blocks, n);
      EmptyTotal();
      left, rest, grown := [], blocks, 0;
      assert left + rest == blocks && left + goal == goal;
      curr := root;
      while true
        invariant Valid() && Payloads() == old(Payloads())
        invariant blocks == left + rest && (rest == [] ==> left == [])
        invariant curr == ROOT + Total(left)
        invariant left + FirstFit(rest, n) == goal
        invariant grown == 0 ==> blocks == old(blocks) && HasFit(rest, n) == fits
        invariant grown == 1 ==> !fits && HasFit(rest, n)
        invariant grown <= 1
        decreases 1 - grown, |rest|
      {
        AtBlock(curr, left, rest);
        if rest != [] { SearchStep(rest, n); }
        if !Aloc(words[curr]) && Siz(words[curr]) >= 4 * n {
          assert left + Cut(rest[0], n) + rest[1..] == left + (Cut(rest[0], n) + rest[1..]);
          return;
        }
        var next := curr + Siz(words[curr]) / 4;
        if !(next < brk) {
          GrowthStep(left, rest, n);
          ExtendHeap(n);
          rest, grown := Grow(rest, n), 1;
        } else {
          assert left + ([rest[0]] + FirstFit(rest[1..], n)) == left + [rest[0]] + FirstFit(rest[1..], n);
          curr := next;
          left, rest := left + [rest[0]], rest[1..];
        }
      }
    }

    /** First-fit allocation. The result is null for a zero request; otherwise it
        is an 8-aligned pointer to fresh memory of at least the requested size,
        all other payloads keep their contents, and the heap grew at most once.
        The heap is still one if and only if the rounded size is not zero. */
    method Malloc(siz: nat) returns (p: nat, ghost grown: nat)
      requires Valid()
      requires siz < SIZE_MAX
      requires siz > 0 ==> if Need(siz) == 0 then HasFit(blocks, 0) else TagsHold(blocks, Need(siz))
      modifies this
      ensures (exists bs :: Laid(words, brk, max, bs)) <==> siz == 0 || Need(siz) > 0
      ensures siz == 0 || Need(siz) > 0 ==> Valid()
      ensures siz == 0 ==> p == NULL && blocks == old(blocks) && Payloads() == old(Payloads())
      ensures siz > 0 && Need(siz) > 0 ==> blocks == FirstFit(old(blocks), Need(siz))
      ensures siz > 0 && Need(siz) > 0 ==>
                var i := Position(p);
                && p == Address(i) && p % 8 == 0
                && i !in old(Payloads()) && i in Payloads()
                && |Payloads()[i]| == Need(siz) - 2
                && (4 * |Payloads()[i]| >= siz <==> siz + 15 < SIZE_MAX) && 4 * |Payloads()[i]| < siz + 8
                && Payloads() == old(Payloads())[i := Payloads()[i]]
      ensures grown == if siz == 0 || HasFit(old(blocks), Need(siz)) then 0 else 1
    {
      hide Laid, Live, Total, Set, Siz, Aloc, FirstFit, Cut, HasFit, Need, Address, Position;
      grown := 0;
      if siz == 0 {
        return NULL, grown;
      }
      var n := Need(siz);
      NeedEven(siz);
      if n > 0 {
        NeedBounds(siz);
        FitBounds(words, brk, max, blocks, n);
        FirstFitKeeps(blocks, n);
      }
      ghost var left, rest;
      var curr;
      curr, left, rest, grown := Search(n);
      AtBlock(curr, left, rest);
      Place(curr, n, left, rest[0], rest[1..]);
      p := Address(curr + 1);
      PointerMath(curr + 1);
    }

    /** Every live pointer is the pointer of some allocated block. */
    lemma {:induction false} PayloadHasBlock(i: nat) returns (k: nat)
      requires Layout() && i in Payloads()
      ensures PointsAt(blocks, Address(i), k)
    {
      k := LiveBlock(words, ROOT, blocks, i);
    }

    /** Frees a live pointer: exactly its payload disappears and its block joins
        free neighbours. Null and addresses above the heap are ignored. */
    method Free(addr: nat, ghost k: nat)
      requires Valid()
      requires addr == NULL || addr > Address(max) ||
               (PointsAt(blocks, addr, k) && JoinedSize(blocks[..k], blocks[k], blocks[k + 1..]) < TAG_LIMIT)
      modifies this
      ensures Valid()
      ensures addr == NULL || addr > old(Address(max)) ==>
                blocks == old(blocks) && Payloads() == old(Payloads())
      ensures addr != NULL && addr <= old(Address(max)) ==>
                && blocks == Join(old(blocks)[..k], old(blocks)[k], old(blocks)[k + 1..])
                && Position(addr) in old(Payloads())
                && Payloads() == old(Payloads()) - {Position(addr)}
    {
      hide Laid, Live, Total, Set, Siz, Aloc, Join, Address, Position;
      if addr == NULL || addr > Address(max) {
        return;
      }
      ghost var left, b, right := blocks[..k], blocks[k], blocks[k + 1..];
      assert left + [b] + right == blocks;
      PointerMath(ROOT + Total(left) + 1);
      Around(words, brk, max, left, b, right);
      var hdr := Position(addr) - 1;
      var ftr := hdr + Siz(words[hdr]) / 4 - 1;
      if words[hdr] != words[ftr] {
        return;
      }
      assert Aloc(words[hdr]);
      ghost var freed := FreeTags(words, brk, max, left, b, right);
      words := words[hdr := Set(Siz(words[hdr]), false)];
      words := words[ftr := Set(Siz(words[ftr]), false)];
      assert words == freed;
      ghost var b' := Block(b.size, false);
      blocks := left + [b'] + right;
      Merge(hdr, left, b', right);
      JoinIgnoresUse(left, b, right);
    }

    /** A client store into its own payload. */
    method Store(addr: nat, j: nat, v: Word, ghost k: nat)
      requires Valid()
      requires PointsAt(blocks, addr, k) && j + 2 < blocks[k].size
      modifies this`words
      ensures Valid()
      ensures var i := Position(addr);
              && i in old(Payloads()) && j < |old(Payloads())[i]|
              && Payloads() == old(Payloads())[i := Poke(old(Payloads())[i], j, v)]
    {
      hide Laid, Live, Total, Set, Siz, Aloc, Address, Position;
      PointerMath(ROOT + Total(blocks[..k]) + 1);
      assert blocks == blocks[..k] + [blocks[k]] + blocks[k + 1..];
      ghost var stored := StoreTags(words, brk, max, blocks[..k], blocks[k], blocks[k + 1..], j, v);
      words := words[Position(addr) + j := v];
      assert words == stored;
    }
  }
}
