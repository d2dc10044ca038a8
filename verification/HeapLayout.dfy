/** The layout of the kernel heap of src/kernel/mm/heap.c: blocks with boundary
    tags between a prologue block and an epilogue word.

    Memory is the sequence of 32-bit words mapped from the heap base upwards.
    Positions are word offsets from that base, so byte address `a` is position
    `(a - HEAP_BASE) / 4`. Block sizes are kept in words; tags hold bytes, as in
    the source. */
module HeapLayout {

  type Word = x: int | 0 <= x < 0x1_0000_0000

  const PAGE_WORDS: nat := 1024
  const ROOT: nat := 3

  /** A block of this many words (2^29 bytes) or more no longer fits its tag. */
  const TAG_LIMIT: nat := 0x800_0000

  // ----- tags

  /** `(siz << 3) | used`, truncated to 32 bits. */
  function Set(bytes: nat, used: bool): Word {
    bytes % 0x2000_0000 * 8 + if used then 1 else 0
  }

  function Siz(tag: Word): nat {
    tag / 8
  }

  predicate Aloc(tag: Word) {
    tag % 2 == 1
  }

  lemma Parity(x: int, half: int, bit: int)
    requires 0 <= bit <= 1 && x == 2 * half + bit
    ensures x % 2 == bit
  {
  }

  lemma EvenSum(x: nat, y: nat)
    requires x % 2 == 0 && y % 2 == 0
    ensures (x + y) % 2 == 0
  {
    Parity(x + y, x / 2 + y / 2, 0);
  }

  /** A tag gives back exactly the size it was made from when that size is below
      2^29 bytes, and never otherwise; the allocation bit always survives. */
  lemma {:induction false} TagRoundTrip(bytes: nat, used: bool)
    ensures Siz(Set(bytes, used)) == bytes <==> bytes < 4 * TAG_LIMIT
    ensures Aloc(Set(bytes, used)) == used
  {
    var low := bytes % 0x2000_0000;
    assert Siz(Set(bytes, used)) == low;
    Parity(Set(bytes, used), 4 * low, if used then 1 else 0);
  }

  /** For instance, the tag of a block of 2^29 bytes reads as a block of none. */
  lemma {:induction false} LargestTag(used: bool)
    ensures Siz(Set(0x2000_0000, used)) == 0 && Siz(Set(0x1FFF_FFF8, used)) == 0x1FFF_FFF8
  {
    TagRoundTrip(0x1FFF_FFF8, used);
  }

  // ----- blocks

  datatype Block = Block(size: nat, used: bool)

  function Tag(b: Block): Word {
    Set(4 * b.size, b.used)
  }

  predicate WellSized(b: Block) {
    2 <= b.size < TAG_LIMIT && b.size % 2 == 0
  }

  function Total(bs: seq<Block>): nat {
    if bs == [] then 0 else bs[0].size + Total(bs[1..])
  }

  lemma {:induction false} EmptyTotal()
    ensures Total([]) == 0
  {
  }

  /** The blocks lie one after the other from position `lo`, each with its header
      and its footer in place. */
  ghost predicate Tiled(w: seq<Word>, lo: nat, bs: seq<Block>)
    decreases bs
  {
    bs == [] ||
    (&& WellSized(bs[0])
     && lo + bs[0].size <= |w|
     && w[lo] == Tag(bs[0])
     && w[lo + bs[0].size - 1] == Tag(bs[0])
     && Tiled(w, lo + bs[0].size, bs[1..]))
  }

  /** No two neighbouring blocks are both free. */
  ghost predicate Coalesced(bs: seq<Block>) {
    forall i :: 0 <= i < |bs| - 1 ==> bs[i].used || bs[i + 1].used
  }

  /** The live payloads: position of the first payload word to payload words. */
  ghost function Live(w: seq<Word>, lo: nat, bs: seq<Block>): map<nat, seq<Word>>
    requires Tiled(w, lo, bs)
    decreases bs
  {
    if bs == [] then map[]
    else
      var rest := Live(w, lo + bs[0].size, bs[1..]);
      if bs[0].used then rest[lo + 1 := w[lo + 1..lo + bs[0].size - 1]] else rest
  }

  lemma {:induction false} TotalSplit(a: seq<Block>, b: seq<Block>)
    ensures Total(a + b) == Total(a) + Total(b)
  {
    if a == [] {
      assert a + b == b;
    } else {
      assert (a + b)[1..] == a[1..] + b;
      TotalSplit(a[1..], b);
    }
  }

  lemma {:induction false} TiledSplit(w: seq<Word>, lo: nat, a: seq<Block>, b: seq<Block>)
    ensures Total(a + b) == Total(a) + Total(b)
    ensures Tiled(w, lo, a + b) <==> Tiled(w, lo, a) && Tiled(w, lo + Total(a), b)
    ensures Tiled(w, lo, a + b) ==>
              Live(w, lo, a + b) == Live(w, lo, a) + Live(w, lo + Total(a), b)
    decreases a
  {
    hide Tag;
    if a == [] {
      assert a + b == b;
    } else {
      assert (a + b)[1..] == a[1..] + b;
      TiledSplit(w, lo + a[0].size, a[1..], b);
      if Tiled(w, lo, a + b) {
        OutOfRange(w, lo + Total(a), b, lo + 1);
        MapUpdateUnion(Live(w, lo + a[0].size, a[1..]), Live(w, lo + Total(a), b), lo + 1,
                       w[lo + 1..lo + a[0].size - 1]);
      }
    }
  }

  lemma {:induction false} MapUpdateUnion<K, V>(m: map<K, V>, n: map<K, V>, k: K, v: V)
    requires k !in n
    ensures (m + n)[k := v] == m[k := v] + n
  {
  }

  /** Blocks stay inside [lo, lo + Total(bs)), and so do their payloads. */
  lemma {:induction false} LiveBounds(w: seq<Word>, lo: nat, bs: seq<Block>)
    requires Tiled(w, lo, bs)
    ensures bs != [] ==> lo + Total(bs) <= |w|
    ensures Total(bs) % 2 == 0
    ensures forall p <- Live(w, lo, bs) ::
              lo < p && p + |Live(w, lo, bs)[p]| < lo + Total(bs) && (p - lo) % 2 == 1
    decreases bs
  {
    if bs != [] {
      LiveBounds(w, lo + bs[0].size, bs[1..]);
    }
  }

  lemma {:induction false} AllSized(w: seq<Word>, lo: nat, bs: seq<Block>)
    requires Tiled(w, lo, bs)
    ensures forall b <- bs :: WellSized(b)
    decreases bs
  {
    if bs != [] {
      AllSized(w, lo + bs[0].size, bs[1..]);
    }
  }

  lemma {:induction false} OutOfRange(w: seq<Word>, lo: nat, bs: seq<Block>, p: nat)
    requires Tiled(w, lo, bs) && (p <= lo || lo + Total(bs) <= p)
    ensures p !in Live(w, lo, bs)
  {
    LiveBounds(w, lo, bs);
  }

  /** The layout only depends on the words it covers. */
  lemma {:induction false} TiledFrame(w: seq<Word>, w': seq<Word>, lo: nat, bs: seq<Block>)
    requires Tiled(w, lo, bs)
    requires bs != [] ==> lo + Total(bs) <= |w'|
    requires forall i :: lo <= i < lo + Total(bs) && i < |w| && i < |w'| ==> w[i] == w'[i]
    ensures Tiled(w', lo, bs)
    ensures Live(w', lo, bs) == Live(w, lo, bs)
    decreases bs
  {
    if bs != [] {
      LiveBounds(w, lo, bs);
      TiledFrame(w, w', lo + bs[0].size, bs[1..]);
      assert w'[lo + 1..lo + bs[0].size - 1] == w[lo + 1..lo + bs[0].size - 1];
    }
  }

  /** Payloads of distinct live pointers do not overlap: between the end of one
      and the start of the next there is room for two tags. */
  lemma {:induction false} LiveDisjoint(w: seq<Word>, lo: nat, bs: seq<Block>, p: nat, q: nat)
    requires Tiled(w, lo, bs)
    requires p in Live(w, lo, bs) && q in Live(w, lo, bs) && p < q
    ensures p + |Live(w, lo, bs)[p]| + 2 <= q
    decreases bs
  {
    LiveBounds(w, lo + bs[0].size, bs[1..]);
    if p != lo + 1 {
      LiveDisjoint(w, lo + bs[0].size, bs[1..], p, q);
    }
  }

  /** Every live pointer belongs to one allocated block. */
  lemma {:induction false} LiveBlock(w: seq<Word>, lo: nat, bs: seq<Block>, p: nat) returns (k: nat)
    requires Tiled(w, lo, bs)
    requires p in Live(w, lo, bs)
    ensures k < |bs| && bs[k].used && p == lo + Total(bs[..k]) + 1
    decreases bs
  {
    if p == lo + 1 && bs[0].used {
      k := 0;
    } else {
      var j := LiveBlock(w, lo + bs[0].size, bs[1..], p);
      k := j + 1;
      assert bs[..k][1..] == bs[1..][..j];
    }
  }

  /** The heap as a whole: the blocks tile [root, brk) exactly, the prologue footer
      stands below them, and the epilogue above them is inside mapped memory. */
  ghost predicate Laid(w: seq<Word>, brk: nat, max: nat, bs: seq<Block>) {
    && max == |w|
    && max % PAGE_WORDS == 0
    && brk == ROOT + Total(bs)
    && brk % 2 == 1
    && brk < max
    && w[ROOT - 1] == Set(8, true)
    && w[brk] == Set(0, true)
    && Tiled(w, ROOT, bs)
  }

  /** Headers determine the blocks, so once the last footer of `left` is lost, no blocks tile the words. */
  lemma {:induction false} FooterLost(w: seq<Word>, w': seq<Word>, lo: nat, left: seq<Block>, bs: seq<Block>)
    requires Tiled(w, lo, left) && left != [] && |w'| == |w| && Total(left) <= Total(bs)
    requires forall i :: lo <= i < lo + Total(left) - 1 && i < |w| ==> w'[i] == w[i]
    requires 0 < lo + Total(left) <= |w| && w'[lo + Total(left) - 1] == Set(0, true)
    ensures !Tiled(w', lo, bs)
    decreases left
  {
    if Tiled(w', lo, bs) {
      LiveBounds(w, lo + left[0].size, left[1..]);
      TagRoundTrip(4 * left[0].size, left[0].used);
      TagRoundTrip(4 * bs[0].size, bs[0].used);
      TagRoundTrip(0, true);
      if |left| > 1 {
        FooterLost(w, w', lo + left[0].size, left[1..], bs[1..]);
      }
    }
  }

  /** Tags of a block of no words, written over a free block and the footer below it, leave no layout at all. */
  lemma {:induction false} NoTags(w: seq<Word>, w': seq<Word>, brk: nat, max: nat,
                                  a: seq<Block>, b: Block, c: seq<Block>)
    requires Laid(w, brk, max, a + [b] + c) && |w'| == |w|
    requires forall i :: 0 <= i < ROOT + Total(a) - 1 ==> i < |w| && w'[i] == w[i]
    requires ROOT + Total(a) <= |w| && w'[ROOT + Total(a) - 1] == Set(0, true)
    ensures forall bs :: !Laid(w', brk, max, bs)
  {
    hide Tiled, Live, Set;
    forall bs ensures !Laid(w', brk, max, bs) {
      if Laid(w', brk, max, bs) {
        TiledSplit(w, ROOT, a + [b], c);
        TiledSplit(w, ROOT, a, [b]);
        TagRoundTrip(0, true);
        TagRoundTrip(8, true);
        if a != [] {
          FooterLost(w, w', ROOT, a, bs);
        }
      }
    }
  }

  /** Rewriting words only inside the stretch of `mid`, so that it is tiled by
      `mid'` of the same length, replaces `mid` by `mid'` in the whole layout. */
  lemma {:induction false} Replace(w: seq<Word>, w': seq<Word>, brk: nat, max: nat,
                                   a: seq<Block>, mid: seq<Block>, mid': seq<Block>, c: seq<Block>)
    requires Laid(w, brk, max, a + mid + c)
    requires |w'| == |w| && Total(mid') == Total(mid)
    requires Tiled(w', ROOT + Total(a), mid')
    requires forall i :: 0 <= i < |w| && !(0 <= i - ROOT - Total(a) < Total(mid)) ==> w'[i] == w[i]
    ensures Laid(w', brk, max, a + mid' + c)
    ensures Tiled(w, ROOT, a) && Tiled(w, ROOT + Total(a), mid) && Tiled(w, ROOT + Total(a) + Total(mid), c)
    ensures Live(w, ROOT, a + mid + c) ==
              Live(w, ROOT, a) + Live(w, ROOT + Total(a), mid) + Live(w, ROOT + Total(a) + Total(mid), c)
    ensures Live(w', ROOT, a + mid' + c) ==
              Live(w, ROOT, a) + Live(w', ROOT + Total(a), mid') + Live(w, ROOT + Total(a) + Total(mid), c)
  {
    hide Tiled, Live, Total, Set;
    TiledSplit(w, ROOT, a + mid, c);
    TiledSplit(w, ROOT, a, mid);
    LiveBounds(w, ROOT, a);
    LiveBounds(w, ROOT + Total(a) + Total(mid), c);
    TiledFrame(w, w', ROOT, a);
    TiledFrame(w, w', ROOT + Total(a) + Total(mid), c);
    TiledSplit(w', ROOT, a + mid', c);
    TiledSplit(w', ROOT, a, mid');
  }

  /** The tags of the block `b`, and where it stands. */
  lemma {:induction false} Around(w: seq<Word>, brk: nat, max: nat, a: seq<Block>, b: Block, c: seq<Block>)
    requires Laid(w, brk, max, a + [b] + c)
    ensures |w| == max && brk < max
    ensures brk == ROOT + Total(a) + b.size + Total(c)
    ensures (ROOT + Total(a)) % 2 == 1
    ensures WellSized(b) && w[ROOT + Total(a)] == w[ROOT + Total(a) + b.size - 1] == Tag(b)
    ensures Siz(Tag(b)) == 4 * b.size && Aloc(Tag(b)) == b.used
    ensures b.used ==> ROOT + Total(a) + 1 in Live(w, ROOT, a + [b] + c)
  {
    hide Tiled, Live, Total, Set, Siz, Aloc;
    TiledSplit(w, ROOT, a + [b], c);
    TiledSplit(w, ROOT, a, [b]);
    OneBlock(w, ROOT + Total(a), b);
    LiveBounds(w, ROOT, a);
    TagRoundTrip(4 * b.size, b.used);
  }

  /** The word above a block: the next header, or the epilogue. */
  lemma {:induction false} NextTag(w: seq<Word>, brk: nat, max: nat, a: seq<Block>, b: Block, c: seq<Block>)
    requires Laid(w, brk, max, a + [b] + c)
    ensures |w| == max && brk < max
    ensures c == [] ==> ROOT + Total(a) + b.size == brk && Aloc(w[brk]) && Siz(w[brk]) == 0
    ensures c != [] ==>
              var next := ROOT + Total(a) + b.size;
              && WellSized(c[0]) && next + c[0].size <= brk
              && w[next] == w[next + c[0].size - 1] == Tag(c[0])
              && Siz(Tag(c[0])) == 4 * c[0].size && Aloc(Tag(c[0])) == c[0].used
  {
    hide Tiled, Live, Set, Siz, Aloc;
    Around(w, brk, max, a, b, c);
    if c == [] {
      TagRoundTrip(0, true);
    } else {
      assert a + [b] + c == a + [b] + [c[0]] + c[1..];
      TotalSplit(a, [b]);
      Around(w, brk, max, a + [b], c[0], c[1..]);
    }
  }

  /** The word below a block: the previous footer, or the prologue's. */
  lemma {:induction false} PrevTag(w: seq<Word>, brk: nat, max: nat, a: seq<Block>, b: Block, c: seq<Block>)
    requires Laid(w, brk, max, a + [b] + c)
    ensures |w| == max && brk < max && ROOT + Total(a) <= brk
    ensures a == [] ==> Total(a) == 0 && Aloc(w[ROOT - 1])
    ensures a != [] ==>
              var last, hdr := a[|a| - 1], ROOT + Total(a);
              && WellSized(last) && last.size <= Total(a)
              && Total(a[..|a| - 1]) == Total(a) - last.size
              && w[hdr - 1] == w[hdr - last.size] == Tag(last)
              && Siz(Tag(last)) == 4 * last.size && Aloc(Tag(last)) == last.used
  {
    hide Tiled, Live, Set, Siz, Aloc;
    Around(w, brk, max, a, b, c);
    if a == [] {
      TagRoundTrip(8, true);
    } else {
      var front, last := a[..|a| - 1], a[|a| - 1];
      assert a == front + [last];
      assert a + [b] + c == front + [last] + ([b] + c);
      TotalSplit(front, [last]);
      Around(w, brk, max, front, last, [b] + c);
    }
  }

  lemma {:induction false} OneBlock(w: seq<Word>, lo: nat, b: Block)
    ensures Tiled(w, lo, [b]) <==>
              WellSized(b) && lo + b.size <= |w| && w[lo] == w[lo + b.size - 1] == Tag(b)
    ensures Total([b]) == b.size
    ensures Tiled(w, lo, [b]) ==>
              Live(w, lo, [b]) == if b.used then map[lo + 1 := w[lo + 1..lo + b.size - 1]] else map[]
  {
    assert [b][1..] == [];
  }

  lemma {:induction false} TwoBlocks(w: seq<Word>, lo: nat, x: Block, y: Block)
    ensures Tiled(w, lo, [x, y]) <==> Tiled(w, lo, [x]) && Tiled(w, lo + x.size, [y])
    ensures Total([x, y]) == x.size + y.size
    ensures Tiled(w, lo, [x, y]) ==>
              Live(w, lo, [x, y]) == Live(w, lo, [x]) + Live(w, lo + x.size, [y])
  {
    assert [x, y] == [x] + [y];
    OneBlock(w, lo, x);
    OneBlock(w, lo + x.size, y);
    TiledSplit(w, lo, [x], [y]);
  }

  // ----- what the tag writes do to the layout

  lemma {:induction false} MapInsert<K, V>(a: map<K, V>, c: map<K, V>, k: K, v: V)
    requires k !in a && k !in c
    ensures k !in a + map[] + c
    ensures a + map[k := v] + c == (a + map[] + c)[k := v]
    ensures (a + map[k := v] + c) - {k} == a + map[] + c
  {
  }

  /** Writing one header and one footer over two free neighbours joins them. */
  lemma {:induction false} JoinTags(w: seq<Word>, brk: nat, max: nat, a: seq<Block>, x: Block, y: Block, c: seq<Block>)
      returns (w': seq<Word>)
    requires Laid(w, brk, max, a + [x, y] + c)
    requires !x.used && !y.used && x.size + y.size < TAG_LIMIT
    ensures WellSized(x) && WellSized(y) && ROOT + Total(a) + x.size + y.size <= |w|
    ensures var xy, at := Block(x.size + y.size, false), ROOT + Total(a);
            && w' == w[at := Tag(xy)][at + xy.size - 1 := Tag(xy)]
            && Laid(w', brk, max, a + [xy] + c)
            && Live(w', ROOT, a + [xy] + c) == Live(w, ROOT, a + [x, y] + c)
  {
    hide Tiled, Live, Total, Tag, Set;
    var xy, at := Block(x.size + y.size, false), ROOT + Total(a);
    TiledSplit(w, ROOT, a + [x, y], c);
    TiledSplit(w, ROOT, a, [x, y]);
    TwoBlocks(w, at, x, y);
    OneBlock(w, at, x);
    OneBlock(w, at + x.size, y);
    EvenSum(x.size, y.size);
    w' := w[at := Tag(xy)][at + xy.size - 1 := Tag(xy)];
    OneBlock(w', at, xy);
    Replace(w, w', brk, max, a, [x, y], [xy], c);
  }

  function Cut(b: Block, n: nat): seq<Block>
    requires n <= b.size
  {
    if b.size > n then [Block(n, true), Block(b.size - n, false)] else [Block(n, true)]
  }

  /** The tags of a cut block tile its stretch, with the new payload only. */
  lemma {:induction false} CutTiles(w: seq<Word>, at: nat, b: Block, n: nat)
    requires WellSized(b) && 2 <= n <= b.size && n % 2 == 0 && at + b.size <= |w|
    requires w[at] == w[at + n - 1] == Set(4 * n, true)
    requires b.size > n ==> w[at + n] == w[at + b.size - 1] == Set(4 * (b.size - n), false)
    ensures Total(Cut(b, n)) == b.size && Tiled(w, at, Cut(b, n))
    ensures Live(w, at, Cut(b, n)) == map[at + 1 := w[at + 1..at + n - 1]]
  {
    hide Tiled, Live, Total, Set;
    OneBlock(w, at, Block(n, true));
    if b.size > n {
      OneBlock(w, at + n, Block(b.size - n, false));
      TwoBlocks(w, at, Block(n, true), Block(b.size - n, false));
    }
  }

  /** Writing the tags of the pieces cuts a free block and makes one new pointer live. */
  lemma {:induction false} CutTags(w: seq<Word>, w': seq<Word>, brk: nat, max: nat,
                                   a: seq<Block>, b: Block, c: seq<Block>, n: nat)
    requires Laid(w, brk, max, a + [b] + c)
    requires !b.used && 2 <= n <= b.size && n % 2 == 0
    requires |w'| == |w| && ROOT + Total(a) + b.size <= |w|
    requires var at := ROOT + Total(a);
             && w'[at] == w'[at + n - 1] == Set(4 * n, true)
             && (b.size > n ==> w'[at + n] == w'[at + b.size - 1] == Set(4 * (b.size - n), false))
             && forall i :: 0 <= i < |w| && !(at <= i < at + b.size) ==> w'[i] == w[i]
    ensures Laid(w', brk, max, a + Cut(b, n) + c)
    ensures var at := ROOT + Total(a);
            && at + 1 !in Live(w, ROOT, a + [b] + c)
            && Live(w', ROOT, a + Cut(b, n) + c) == Live(w, ROOT, a + [b] + c)[at + 1 := w'[at + 1..at + n - 1]]
  {
    hide Tiled, Live, Total, Set, Cut;
    var at := ROOT + Total(a);
    TiledSplit(w, ROOT, a + [b], c);
    TiledSplit(w, ROOT, a, [b]);
    OneBlock(w, at, b);
    CutTiles(w', at, b, n);
    Replace(w, w', brk, max, a, [b], Cut(b, n), c);
    OutOfRange(w, ROOT, a, at + 1);
    OutOfRange(w, at + b.size, c, at + 1);
    MapInsert(Live(w, ROOT, a), Live(w, at + b.size, c), at + 1, w'[at + 1..at + n - 1]);
  }

  /** Clearing the allocation bit in both tags makes exactly one pointer dead. */
  lemma {:induction false} FreeTags(w: seq<Word>, brk: nat, max: nat, a: seq<Block>, b: Block, c: seq<Block>)
      returns (w': seq<Word>)
    requires Laid(w, brk, max, a + [b] + c)
    requires b.used
    ensures WellSized(b) && ROOT + Total(a) + b.size <= |w|
    ensures var b', at := Block(b.size, false), ROOT + Total(a);
            && w' == w[at := Set(4 * b.size, false)][at + b.size - 1 := Set(4 * b.size, false)]
            && Laid(w', brk, max, a + [b'] + c)
            && Live(w', ROOT, a + [b'] + c) == Live(w, ROOT, a + [b] + c) - {at + 1}
  {
    hide Tiled, Live, Total, Set;
    var b', at := Block(b.size, false), ROOT + Total(a);
    TiledSplit(w, ROOT, a + [b], c);
    TiledSplit(w, ROOT, a, [b]);
    OneBlock(w, at, b);
    w' := w[at := Set(4 * b.size, false)][at + b.size - 1 := Set(4 * b.size, false)];
    OneBlock(w', at, b');
    Replace(w, w', brk, max, a, [b], [b'], c);
    OutOfRange(w, ROOT, a, at + 1);
    OutOfRange(w, at + b.size, c, at + 1);
    MapInsert(Live(w, ROOT, a), Live(w, at + b.size, c), at + 1, w[at + 1..at + b.size - 1]);
  }

  function Poke(ws: seq<Word>, j: nat, v: Word): seq<Word>
    requires j < |ws|
  {
    ws[j := v]
  }

  /** A store inside one payload changes that payload only. */
  lemma {:induction false} StoreTags(w: seq<Word>, brk: nat, max: nat, a: seq<Block>, b: Block, c: seq<Block>,
                                     j: nat, v: Word) returns (w': seq<Word>)
    requires Laid(w, brk, max, a + [b] + c)
    requires b.used && j + 2 < b.size
    ensures ROOT + Total(a) + b.size <= |w|
    ensures var at := ROOT + Total(a);
            && w' == w[at + 1 + j := v]
            && Laid(w', brk, max, a + [b] + c)
            && at + 1 in Live(w, ROOT, a + [b] + c)
            && |Live(w, ROOT, a + [b] + c)[at + 1]| == b.size - 2
            && Live(w', ROOT, a + [b] + c) ==
                 Live(w, ROOT, a + [b] + c)[at + 1 := Poke(Live(w, ROOT, a + [b] + c)[at + 1], j, v)]
  {
    hide Laid, Tiled, Live, Total, Set;
    var at := ROOT + Total(a);
    StoreParts(w, brk, max, a, b, c, j, v);
    w' := w[at + 1 + j := v];
    var was, now := w[at + 1..at + b.size - 1], w'[at + 1..at + b.size - 1];
    assert now == Poke(was, j, v);
    MapChange(Live(w, ROOT, a), Live(w, at + b.size, c), at + 1, was, now);
  }

  /** A store inside a payload: the rest of the heap stands, and only that payload differs. */
  lemma {:induction false} StoreParts(w: seq<Word>, brk: nat, max: nat, a: seq<Block>, b: Block, c: seq<Block>, j: nat, v: Word)
    requires Laid(w, brk, max, a + [b] + c)
    requires b.used && j + 2 < b.size
    ensures ROOT + Total(a) + b.size <= |w|
    ensures var at := ROOT + Total(a);
            var w' := w[at + 1 + j := v];
            && Laid(w', brk, max, a + [b] + c)
            && Tiled(w, ROOT, a) && Tiled(w, at + b.size, c)
            && at + 1 !in Live(w, ROOT, a) && at + 1 !in Live(w, at + b.size, c)
            && Live(w, ROOT, a + [b] + c) ==
                 Live(w, ROOT, a) + map[at + 1 := w[at + 1..at + b.size - 1]] + Live(w, at + b.size, c)
            && Live(w', ROOT, a + [b] + c) ==
                 Live(w, ROOT, a) + map[at + 1 := w'[at + 1..at + b.size - 1]] + Live(w, at + b.size, c)
  {
    hide Tiled, Live, Total, Set;
    var at := ROOT + Total(a);
    TiledSplit(w, ROOT, a + [b], c);
    TiledSplit(w, ROOT, a, [b]);
    OneBlock(w, at, b);
    var w' := w[at + 1 + j := v];
    OneBlock(w', at, b);
    Replace(w, w', brk, max, a, [b], [b], c);
    OutOfRange(w, ROOT, a, at + 1);
    OutOfRange(w, at + b.size, c, at + 1);
  }

  lemma {:induction false} MapChange<K, V>(a: map<K, V>, c: map<K, V>, k: K, was: V, now: V)
    requires k !in a && k !in c
    ensures var m := a + map[k := was] + c; k in m && m[k] == was && a + map[k := now] + c == m[k := now]
  {
  }

  /** Appending a free block behind the last one and moving the epilogue. */
  lemma {:induction false} AppendTags(w: seq<Word>, brk: nat, max: nat, bs: seq<Block>, m: seq<Word>, n: nat)
      returns (w': seq<Word>)
    requires Laid(w, brk, max, bs)
    requires WellSized(Block(n, false))
    requires w <= m && |m| % PAGE_WORDS == 0 && brk + n <= |m|
    ensures brk + n < |m|
    ensures w' == m[brk := Set(4 * n, false)][brk + n - 1 := Set(4 * n, false)][brk + n := Set(0, true)]
    ensures Laid(w', brk + n, |m|, bs + [Block(n, false)])
    ensures Live(w', ROOT, bs + [Block(n, false)]) == Live(w, ROOT, bs)
  {
    hide Tiled, Live, Total, Set;
    w' := m[brk := Set(4 * n, false)][brk + n - 1 := Set(4 * n, false)][brk + n := Set(0, true)];
    TiledFrame(w, w', ROOT, bs);
    OneBlock(w', brk, Block(n, false));
    TiledSplit(w', ROOT, bs, [Block(n, false)]);
  }
}
