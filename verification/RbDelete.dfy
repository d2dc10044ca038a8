/**
 * Removing a node from the red-black tree of `RbTree`: the splice of
 * src/kernel/klib/rbtree.c, what it does to the order, exactly when it fails, and
 * exactly when the rules still hold afterwards.
 */
module RbDelete {
  import opened Basics
  import opened RbTree
  import opened RbMend

  // ----- places to the left of one another

  /** Place `k` is `d` steps down to the left of place `base`. */
  ghost predicate Chain(k: Around, d: nat, base: Around)
    decreases d
  {
    if d == 0 then k == base else k.InLeft? && Chain(k.up, d - 1, base)
  }

  /** What stands at the upper end of the chain when `t` stands at its lower end. */
  ghost function Climb(k: Around, d: nat, t: Shape): Shape
    decreases d
  {
    if d == 0 || !k.InLeft? then t else Climb(k.up, d - 1, Bin(t, k.n, k.c, k.r))
  }

  /** The same chain below another place. */
  ghost function Rebase(k: Around, d: nat, base: Around): Around
    decreases d
  {
    if d == 0 || !k.InLeft? then base else InLeft(Rebase(k.up, d - 1, base), k.n, k.c, k.r)
  }

  lemma {:induction false} ClimbFocus(h: Snapshot, root: Node?, k: Around, d: nat, base: Around, t: Shape)
    requires Chain(k, d, base)
    ensures Spells(h, root, k, t) <==> Spells(h, root, base, Climb(k, d, t))
    ensures Outer(k) + Nodes(t) == Outer(base) + Nodes(Climb(k, d, t))
    ensures Plug(k, t) == Plug(base, Climb(k, d, t))
    decreases d
  {
    hide Spells, Outer, Nodes;
    if d > 0 {
      Focus(h, root, k.up, t, k.n, k.c, k.r);
      ClimbFocus(h, root, k.up, d - 1, base, Bin(t, k.n, k.c, k.r));
    }
  }

  lemma {:induction false} RebaseChain(k: Around, d: nat, base: Around, other: Around, t: Shape)
    requires Chain(k, d, base)
    ensures Chain(Rebase(k, d, other), d, other) && Climb(Rebase(k, d, other), d, t) == Climb(k, d, t)
    decreases d
  {
    if d > 0 {
      RebaseChain(k.up, d - 1, base, other, Bin(t, k.n, k.c, k.r));
    }
  }

  lemma {:induction false} RebaseOrder(k: Around, d: nat, base: Around, other: Around)
    requires Chain(k, d, base) && After(base) == After(other)
    ensures Before(k) == Before(base) && Before(Rebase(k, d, other)) == Before(other)
    ensures After(Rebase(k, d, other)) == After(k)
    decreases d
  {
    hide InOrder;
    if d > 0 {
      RebaseOrder(k.up, d - 1, base, other);
    }
  }

  // ----- the order

  ghost predicate Without(was: seq<Node>, now: seq<Node>, z: Node) {
    exists i :: 0 <= i < |was| && was[i] == z && now == was[..i] + was[i + 1..]
  }

  lemma {:induction false} WithoutAt(was: seq<Node>, now: seq<Node>, z: Node, a: seq<Node>, b: seq<Node>)
    requires was == a + [z] + b && now == a + b
    ensures Without(was, now, z)
  {
    assert was[|a|] == z && was[..|a|] == a && was[|a| + 1..] == b;
  }

  lemma {:induction false} WithoutAscending(was: seq<Node>, now: seq<Node>, z: Node)
    requires Without(was, now, z) && Ascending(was)
    ensures Ascending(now)
  {
    var i :| 0 <= i < |was| && was[i] == z && now == was[..i] + was[i + 1..];
    forall a, b | 0 <= a < b < |now| ensures now[a].key < now[b].key {
      assert now[a] == was[if a < i then a else a + 1] && now[b] == was[if b < i then b else b + 1];
    }
  }

  /** Removing a node with at most one child removes it from the order. */
  lemma {:induction false} SpliceOrder(k: Around, l: Shape, z: Node, c: Color, r: Shape)
    requires l.Leaf? || r.Leaf?
    ensures Without(InOrder(Plug(k, Bin(l, z, c, r))), InOrder(Plug(k, if l.Leaf? then r else l)), z)
  {
    hide Plug, Before, After;
    var x := if l.Leaf? then r else l;
    PlugInOrder(k, Bin(l, z, c, r));
    PlugInOrder(k, x);
    if l.Leaf? {
      assert InOrder(Bin(l, z, c, r)) == [z] + InOrder(r);
      Halves(Before(k), [], z, InOrder(r), After(k));
      WithoutAt(InOrder(Plug(k, Bin(l, z, c, r))), InOrder(Plug(k, x)), z, Before(k) + [], InOrder(r) + After(k));
    } else {
      assert InOrder(Bin(l, z, c, r)) == InOrder(l) + [z];
      Halves(Before(k), InOrder(l), z, [], After(k));
      WithoutAt(InOrder(Plug(k, Bin(l, z, c, r))), InOrder(Plug(k, x)), z, Before(k) + InOrder(l), [] + After(k));
    }
  }

  lemma {:induction false} Halves(a: seq<Node>, x: seq<Node>, z: Node, y: seq<Node>, b: seq<Node>)
    ensures a + (x + [z] + y) + b == (a + x) + [z] + (y + b)
    ensures a + (x + y) + b == (a + x) + (y + b)
    ensures [] + [z] + y == [z] + y && x + [z] + [] == x + [z] && [] + y == y && x + [] == x
  {
  }

  /** Replacing a node with two children by its successor removes it from the order. */
  lemma {:induction false} SuccessorOrder(k: Around, l: Shape, z: Node, c: Color, kk: Around, d: nat, y: Node, cy: Color, x: Shape)
    requires Chain(kk, d, InRight(k, z, c, l))
    ensures Without(InOrder(Plug(kk, Bin(Leaf, y, cy, x))), InOrder(Plug(Rebase(kk, d, InRight(k, y, c, l)), x)), z)
  {
    hide Plug;
    var base, other := InRight(k, z, c, l), InRight(k, y, c, l);
    var kr := Rebase(kk, d, other);
    RebaseOrder(kk, d, base, other);
    PlugInOrder(kk, Bin(Leaf, y, cy, x));
    PlugInOrder(kr, x);
    Shift(Before(k), InOrder(l), z, y, InOrder(x), After(kk));
    WithoutAt(InOrder(Plug(kk, Bin(Leaf, y, cy, x))), InOrder(Plug(kr, x)), z,
              Before(k) + InOrder(l), [y] + InOrder(x) + After(kk));
  }

  lemma {:induction false} Shift(a: seq<Node>, l: seq<Node>, z: Node, y: Node, x: seq<Node>, b: seq<Node>)
    ensures a + (l + [z]) + ([] + [y] + x) + b == (a + l) + [z] + ([y] + x + b)
    ensures a + (l + [y]) + x + b == (a + l) + ([y] + x + b)
  {
  }

  // ----- the rules

  /** The same surroundings but for which nodes they are. */
  ghost predicate Alike(k: Around, k': Around) {
    match k
    case Top => k'.Top?
    case InLeft(up, _, c, r) => k'.InLeft? && k'.c == c && k'.r == r && Alike(up, k'.up)
    case InRight(up, _, c, l) => k'.InRight? && k'.c == c && k'.l == l && Alike(up, k'.up)
  }

  lemma {:induction false} AlikeSelf(k: Around)
    ensures Alike(k, k)
  {
    if !k.Top? {
      AlikeSelf(k.up);
    }
  }

  lemma {:induction false} RebaseAlike(kk: Around, d: nat, k: Around, z: Node, y: Node, c: Color, l: Shape)
    requires Chain(kk, d, InRight(k, z, c, l))
    ensures Alike(kk, Rebase(kk, d, InRight(k, y, c, l)))
    decreases d
  {
    AlikeSelf(k);
    if d > 0 {
      RebaseAlike(kk.up, d - 1, k, z, y, c, l);
    }
  }

  lemma {:induction false} AlikeRb(k: Around, k': Around, h: Level)
    requires Alike(k, k')
    ensures RbOuter(k, h) <==> RbOuter(k', h)
    decreases k
  {
    hide Rb;
    if !k.Top? {
      AlikeRb(k.up, k'.up, Raise(h, k.c));
    }
  }

  lemma {:induction false} AlikeStuck(k: Around, k': Around)
    requires Alike(k, k')
    ensures Stuck(k) <==> Stuck(k')
    decreases k
  {
    if !k.Top? {
      AlikeStuck(k.up, k'.up);
    }
  }

  lemma {:induction false} HeightUnique(t: Shape, g: nat, h: nat)
    requires Rb(t, Some(g)) && Rb(t, Some(h))
    ensures g == h
  {
    match t
    case Leaf =>
    case Bin(l, n, c, r) => HeightUnique(l, g - Weight(c), h - Weight(c));
  }

  /** The place at which a node with the one child `x` goes without breaking the rules: the node is
      red, or its child can take over its blackness, or nothing is left of the tree. */
  ghost predicate Spare(k: Around, c: Color, x: Shape) {
    c.Red? || x.Bin? || k.Top?
  }

  /** The child that takes the place of a node, blackened when the node was black. */
  ghost function Heir(c: Color, x: Shape): Shape {
    if c.Black? then Blacken(x) else x
  }

  /** A node of a red-black tree with at most one child: the child is red and has none itself. */
  lemma {:induction false} OneChild(l: Shape, z: Node, c: Color, r: Shape, h: nat)
    requires Rb(Bin(l, z, c, r), Some(h)) && (l.Leaf? || r.Leaf?)
    ensures var x := if l.Leaf? then r else l;
      h == Weight(c) && (x.Bin? ==> c.Black? && x.c.Red?) && Rb(Heir(c, x), Some(if Spare(Top, c, x) && x.Bin? then h else 0))
  {
  }

  /** Splicing out keeps the rules if and only if the node can be spared. */
  lemma {:induction false} SpliceRules(k: Around, k': Around, l: Shape, z: Node, c: Color, r: Shape)
    requires RedBlack(Plug(k, Bin(l, z, c, r))) && (l.Leaf? || r.Leaf?) && Alike(k, k')
    ensures var x := if l.Leaf? then r else l;
      RedBlack(Plug(k', Heir(c, x))) <==> Spare(k, c, x)
  {
    hide Rb, Plug, RedBlack, Alike;
    var x := if l.Leaf? then r else l;
    var h := UnplugRb(k, Bin(l, z, c, r), true);
    OneChild(l, z, c, r, h.value);
    AlikeRb(k, k', h);
    AlikeTop(k, k');
    if Spare(k, c, x) {
      SpareRules(k', c, x, h.value);
    } else {
      BrokenRules(k, k', h.value);
    }
  }

  lemma {:induction false} AlikeTop(k: Around, k': Around)
    requires Alike(k, k')
    ensures k.Top? <==> k'.Top?
    ensures !k.Top? ==> k'.c == k.c
    ensures k.InLeft? ==> k'.InLeft? && k'.r == k.r
    ensures k.InRight? ==> k'.InRight? && k'.l == k.l
  {
  }

  lemma {:induction false} SpareRules(k: Around, c: Color, x: Shape, h: nat)
    requires Spare(k, c, x) && h == Weight(c) && RbOuter(k, Some(h)) && (x.Bin? ==> c.Black? && x.c.Red?)
    requires Rb(Heir(c, x), Some(if x.Bin? then h else 0)) && (k.Top? ==> c.Black?)
    ensures RedBlack(Plug(k, Heir(c, x)))
  {
    var t := Heir(c, x);
    if k.Top? {
      assert Rb(t, Some(if x.Bin? then h else 0));
    } else {
      PlugRb(k, t, Some(h));
      assert Height(k, Some(h)) == Some(Height(k, Some(h)).value);
    }
  }

  /** A black node without children leaves its sibling one black node too high. */
  lemma {:induction false} BrokenRules(k: Around, k': Around, h: nat)
    requires !k.Top? && RbOuter(k, Some(h)) && h == 1 && Alike(k, k')
    ensures !RedBlack(Plug(k', Leaf))
  {
    hide Plug, RedBlack, Alike;
    AlikeTop(k, k');
    if RedBlack(Plug(k', Leaf)) {
      var g := UnplugRb(k', Leaf, true);
      HeightUnique(Sibling(k), g.value, h);
    }
  }

  // ----- the writes

  /** A tree is spelled by any snapshot that agrees on its nodes. */
  lemma {:induction false} SpellsKept(h: Snapshot, h': Snapshot, root: Node?, k: Around, t: Shape)
    requires Spells(h, root, k, t) && Same(h, h', Outer(k) + Nodes(t))
    ensures Spells(h', root, k, t)
  {
    LinksKept(h, h', t, Above(k));
    OuterKept(h, h', root, k, Head(t));
  }

  /** The writes that put the only child `x` of a node in its place. */
  ghost function SpliceWrites(h: Snapshot, k: Around, x: Shape): Snapshot
    requires (x.Bin? ==> x.n in h) && (!k.Top? ==> k.n in h)
  {
    Hang(if x.Bin? then h[x.n := h[x.n].(parent := Above(k))] else h, k, Head(x))
  }

  lemma {:induction false} Splices(h: Snapshot, root: Node?, k: Around, l: Shape, z: Node, c: Color, r: Shape)
    requires Spells(h, root, k, Bin(l, z, c, r)) && (l.Leaf? || r.Leaf?)
    ensures var x := if l.Leaf? then r else l;
      && (x.Bin? ==> x.n in h) && (!k.Top? ==> k.n in h)
      && Spells(SpliceWrites(h, k, x), if k.Top? then Head(x) else root, k, x)
      && z in h && z !in Outer(k) && z !in Nodes(x)
  {
    var x := if l.Leaf? then r else l;
    PartsHave(h, root, k, l, z, c, r);
    assert x.Bin? ==> x.n in Nodes(x);
    assert !k.Top? ==> k.n in Outer(k);
    var h', root' := SpliceWrites(h, k, x), if k.Top? then Head(x) else root;
    LinksMoved(h, h', x, z, Above(k));
    assert Rehung(h, h', root, root', k, Head(x));
    OuterRehung(h, h', root, root', k, z, Head(x));
  }

  /** The writes that put `y` in the place of `z`, as far as both cases share them. */
  ghost function TakeOver(h: Snapshot, k: Around, z: Node, ln: Node, y: Node): Snapshot
    requires z in h && y in h && ln in h && (!k.Top? ==> k.n in h)
  {
    var h1 := Hang(h, k, y);
    var h2 := h1[y := h1[y].(parent := h1[z].parent)];
    var h3 := h2[y := h2[y].(left := h2[z].left)];
    var h4 := h3[ln := h3[ln].(parent := y)];
    h4[y := h4[y].(color := h4[z].color)]
  }

  /** They amount to the replacement of `z` by `y`, except at `z` itself. */
  lemma {:induction false} TakesOver(h: Snapshot, g: Snapshot, k: Around, l: Shape, z: Node, c: Color, r: Shape, y: Node)
    requires Apart(h, k, l, z, r, y) && l.Bin? && h[z] == Fields(c, Head(l), Head(r), Above(k))
    requires g.Keys == h.Keys && g[z].color == c && g[z].left == l.n && g[z].parent == Above(k) && g[y].right == Head(r)
    requires r.Bin? ==> r.n in h && g[r.n] == h[r.n].(parent := y)
    requires forall n <- h :: n != y && n != z && n != Head(r) ==> g[n] == h[n]
    ensures (!k.Top? ==> k.n in h) && l.n in h && (r.Bin? ==> r.n in h)
    ensures TakeOver(g, k, z, l.n, y).Keys == h.Keys
    ensures forall n <- h :: n != z ==> TakeOver(g, k, z, l.n, y)[n] == ReplaceWrites(h, k, l, z, r, y)[n]
  {
    ReplaceHeads(h, k, l, z, r, y);
  }

  /** `y`, spliced out below `z`, then takes its place. */
  lemma {:induction false} Succeeds(h: Snapshot, g: Snapshot, root: Node?, k: Around, l: Shape, z: Node, c: Color, r: Shape, y: Node)
    requires Spells(h, root, k, Bin(l, z, c, r)) && y in h && y !in Outer(k) && y !in Nodes(Bin(l, z, c, r))
    requires l.Bin? && g.Keys == h.Keys
    requires z in g && y in g && g[z].color == c && g[z].left == l.n && g[z].parent == Above(k) && g[y].right == Head(r)
    requires r.Bin? ==> r.n in h && g[r.n] == h[r.n].(parent := y)
    requires forall n <- h :: n != y && n != z && n != Head(r) ==> g[n] == h[n]
    ensures l.n in g && (!k.Top? ==> k.n in g)
    ensures Spells(TakeOver(g, k, z, l.n, y), if k.Top? then y else root, k, Bin(l, y, c, r))
  {
    hide Spells, Links, OuterLinks, TakeOver, ReplaceWrites, Nodes, Outer, Apart;
    ReplaceApart(h, root, k, l, z, c, r, y);
    Replaces(h, root, k, l, z, c, r, y);
    ReplaceHeads(h, k, l, z, r, y);
    TakesOver(h, g, k, l, z, c, r, y);
    var a, b := ReplaceWrites(h, k, l, z, r, y), TakeOver(g, k, z, l.n, y);
    ReplacedNodes(h, k, l, z, c, r, y);
    SpellsKept(a, b, if k.Top? then y else root, k, Bin(l, y, c, r));
  }

  lemma {:induction false} ReplacedNodes(h: Snapshot, k: Around, l: Shape, z: Node, c: Color, r: Shape, y: Node)
    requires Apart(h, k, l, z, r, y)
    ensures z !in Outer(k) + Nodes(Bin(l, y, c, r)) && Outer(k) + Nodes(Bin(l, y, c, r)) <= h.Keys
    ensures z in h && (!k.Top? ==> k.n in h) && (l.Bin? ==> l.n in h) && (r.Bin? ==> r.n in h)
    ensures ReplaceWrites(h, k, l, z, r, y).Keys == h.Keys
  {
    ReplaceHeads(h, k, l, z, r, y);
  }

  // ----- the successor below a node with two children

  /** The leftmost node of a shape, with its right subtree. */
  ghost function Least(t: Shape): Shape {
    if t.Leaf? || t.l.Leaf? then t else Least(t.l)
  }

  /** Where that node stands, when the shape stands at `k`. */
  ghost function LeastPlace(k: Around, t: Shape): Around
    decreases t
  {
    if t.Leaf? || t.l.Leaf? then k else LeastPlace(InLeft(k, t.n, t.c, t.r), t.l)
  }

  /** The node that leaves place `k` has colour `c` and the one child `x`: the fix-up comes to a place
      without a sibling. */
  ghost predicate Breaks(k: Around, c: Color, x: Shape) {
    c.Black? && Falls(k, x)
  }

  /** Whether removing `z` fails. */
  ghost predicate Fails(k: Around, l: Shape, z: Node, c: Color, r: Shape) {
    if l.Leaf? then Breaks(k, c, r)
    else if r.Leaf? then Breaks(k, c, l)
    else Least(r).Bin? && Breaks(LeastPlace(InRight(k, z, c, l), r), Least(r).c, Least(r).r)
  }

  /** Whether a node can go without breaking the rules: it or, when it has two children, its
      successor can be spared. */
  ghost predicate Removable(k: Around, l: Shape, c: Color, r: Shape) {
    if l.Leaf? then Spare(k, c, r)
    else if r.Leaf? then Spare(k, c, l)
    else Least(r).Bin? && Spare(InRight(k, Least(r).n, c, l), Least(r).c, Least(r).r)
  }

  /** The spliced successor and the node it goes for. */
  lemma {:induction false} SuccessorOut(h: Snapshot, root: Node?, k: Around, l: Shape, z: Node, c: Color,
                                        kk: Around, d: nat, y: Node, cy: Color, x: Shape)
    requires Spells(h, root, kk, Bin(Leaf, y, cy, x)) && Chain(kk, d, InRight(k, z, c, l))
    ensures (x.Bin? ==> x.n in h) && kk.n in h && y in h
    ensures var hs, r := SpliceWrites(h, kk, x), Climb(kk, d, x);
      && Spells(hs, root, k, Bin(l, z, c, r)) && hs.Keys == h.Keys
      && y !in Outer(k) && y !in Nodes(Bin(l, z, c, r))
  {
    hide Spells, SpliceWrites, Outer, Nodes;
    Splices(h, root, kk, Leaf, y, cy, x);
    var hs, base := SpliceWrites(h, kk, x), InRight(k, z, c, l);
    ChainNotTop(kk, d, k, z, c, l);
    ClimbFocus(hs, root, kk, d, base, x);
    Focus(hs, root, k, l, z, c, Climb(kk, d, x));
    SpliceKeys(h, kk, x);
    NotIn(y, Outer(kk), Nodes(x), Outer(k), Nodes(Bin(l, z, c, Climb(kk, d, x))));
  }

  lemma {:induction false} NotIn(y: Node, a: set<Node>, b: set<Node>, a': set<Node>, b': set<Node>)
    requires y !in a && y !in b && a + b == a' + b'
    ensures y !in a' && y !in b'
  {
    assert y !in a + b;
  }

  lemma {:induction false} SpliceKeys(h: Snapshot, k: Around, x: Shape)
    requires (x.Bin? ==> x.n in h) && (!k.Top? ==> k.n in h)
    ensures SpliceWrites(h, k, x).Keys == h.Keys
  {
  }

  lemma {:induction false} ChainNotTop(kk: Around, d: nat, k: Around, z: Node, c: Color, l: Shape)
    requires Chain(kk, d, InRight(k, z, c, l))
    ensures !kk.Top? && (d > 0 ==> kk.InLeft?) && (d == 0 ==> kk.InRight? && kk.n == z)
  {
  }

  lemma {:induction false} ClimbHead(kk: Around, d: nat, base: Around, t: Shape, t': Shape)
    requires Chain(kk, d, base) && d > 0
    ensures Climb(kk, d, t).Bin? && Head(Climb(kk, d, t)) == Head(Climb(kk, d, t'))
    decreases d
  {
    if d > 1 {
      ClimbHead(kk.up, d - 1, base, Bin(t, kk.n, kk.c, kk.r), Bin(t', kk.n, kk.c, kk.r));
    }
  }

  /** The successor is the right child: nothing needs to be spliced first. */
  lemma {:induction false} NearSuccessor(h: Snapshot, root: Node?, k: Around, l: Shape, z: Node, c: Color, y: Node, cy: Color, x: Shape)
    requires Spells(h, root, InRight(k, z, c, l), Bin(Leaf, y, cy, x)) && l.Bin?
    ensures z in h && y in h && l.n in h && (!k.Top? ==> k.n in h) && h[y].right == Head(x)
    ensures x.Bin? ==> x.n in h && h[x.n].parent == y
    ensures Spells(TakeOver(h, k, z, l.n, y), if k.Top? then y else root, k, Bin(l, y, c, x))
  {
    hide TakeOver;
    var kk := InRight(k, z, c, l);
    SuccessorOut(h, root, k, l, z, c, kk, 0, y, cy, x);
    Focus(h, root, k, l, z, c, Bin(Leaf, y, cy, x));
    PartsHave(h, root, k, l, z, c, Bin(Leaf, y, cy, x));
    PartsHave(h, root, kk, Leaf, y, cy, x);
    var hs := SpliceWrites(h, kk, x);
    assert x.Bin? ==> h[x.n].parent == y && x.n in Nodes(x);
    Succeeds(hs, h, root, k, l, z, c, x, y);
  }

  /** The writes that splice out a successor further down and give it the right subtree. */
  ghost function LowerOut(h: Snapshot, kk: Around, x: Shape, y: Node, rn: Node): Snapshot
    requires (x.Bin? ==> x.n in h) && !kk.Top? && kk.n in h && y in h && rn in h
  {
    var h1 := SpliceWrites(h, kk, x);
    var h2 := h1[y := h1[y].(right := rn)];
    h2[rn := h2[rn].(parent := y)]
  }

  lemma {:induction false} FarSuccessor(h: Snapshot, root: Node?, k: Around, l: Shape, z: Node, c: Color,
                                        kk: Around, d: nat, y: Node, cy: Color, x: Shape)
    requires Spells(h, root, kk, Bin(Leaf, y, cy, x)) && Chain(kk, d, InRight(k, z, c, l)) && d > 0 && l.Bin?
    ensures kk.InLeft? && (x.Bin? ==> x.n in h) && kk.n in h && y in h && z in h && l.n in h && (!k.Top? ==> k.n in h)
    ensures Climb(kk, d, x).Bin? && Climb(kk, d, x).n in h
    ensures var rn := Climb(kk, d, x).n;
      var g := LowerOut(h, kk, x, y, rn);
      && z in g && y in g && l.n in g && (!k.Top? ==> k.n in g)
      && Spells(TakeOver(g, k, z, l.n, y), if k.Top? then y else root, k, Bin(l, y, c, Climb(kk, d, x)))
  {
    hide TakeOver, Spells, SpliceWrites, Nodes, Outer;
    SuccessorOut(h, root, k, l, z, c, kk, d, y, cy, x);
    ChainNotTop(kk, d, k, z, c, l);
    var hs, r := SpliceWrites(h, kk, x), Climb(kk, d, x);
    ClimbHead(kk, d, InRight(k, z, c, l), x, x);
    FarParts(hs, root, k, l, z, c, r, y);
    var g := LowerOut(h, kk, x, y, r.n);
    Succeeds(hs, g, root, k, l, z, c, r, y);
  }

  lemma {:induction false} FarParts(h: Snapshot, root: Node?, k: Around, l: Shape, z: Node, c: Color, r: Shape, y: Node)
    requires Spells(h, root, k, Bin(l, z, c, r)) && l.Bin? && r.Bin? && y in h && y !in Nodes(Bin(l, z, c, r))
    ensures z in h && h[z] == Fields(c, Head(l), Head(r), Above(k)) && r.n in h && l.n in h && (!k.Top? ==> k.n in h)
    ensures r.n != y && r.n != z && y != z
  {
    PartsHave(h, root, k, l, z, c, r);
    assert r.n in Nodes(r) && l.n in Nodes(l);
    assert !k.Top? ==> k.n in Outer(k);
  }

  // ----- the code

  lemma {:induction false} ClimbNodes(kk: Around, d: nat, base: Around, t: Shape)
    requires Chain(kk, d, base)
    ensures Nodes(t) <= Nodes(Climb(kk, d, t)) && (d > 0 ==> kk.n in Nodes(Climb(kk, d, t)))
    decreases d
  {
    if d > 0 {
      ClimbNodes(kk.up, d - 1, base, Bin(t, kk.n, kk.c, kk.r));
    }
  }

  /** How a node hangs below its parent. */
  lemma {:induction false} HangsBelow(t: Tree, s: set<Node>, k: Around, l: Shape, z: Node, c: Color, r: Shape)
    requires t.Holds(s, k, Bin(l, z, c, r))
    ensures z in s && z.color == c && z.left == Head(l) && z.right == Head(r) && z.parent == Above(k)
    ensures (l.Bin? ==> l.n in s && l.n != z) && (r.Bin? ==> r.n in s && r.n != z)
    ensures !k.Top? ==> k.n in s && k.n != z && (k.n.left == z <==> k.InLeft?)
    ensures !k.Top? ==> (l.Bin? ==> l.n != k.n) && (r.Bin? ==> r.n != k.n)
    ensures Snap(s).Keys == s
  {
    t.Reads(s, k, l, z, c, r);
    assert (l.Bin? ==> l.n in Nodes(l)) && (r.Bin? ==> r.n in Nodes(r));
    if !k.Top? {
      assert k.n in Outer(k);
      var here := Bin(l, z, c, r);
      var pl, pr := if k.InLeft? then here else k.l, if k.InLeft? then k.r else here;
      t.Refocus(s, k.up, pl, k.n, k.c, pr);
      t.Reads(s, k.up, pl, k.n, k.c, pr);
    }
  }

  lemma {:induction false} SpliceReads(t: Tree, s: set<Node>, k: Around, l: Shape, z: Node, c: Color, r: Shape)
    requires t.Holds(s, k, Bin(l, z, c, r)) && (l.Leaf? || r.Leaf?)
    ensures var x := if l.Leaf? then r else l;
      && (x.Bin? ==> x.n in Snap(s)) && (!k.Top? ==> k.n in Snap(s)) && Outer(k) + Nodes(x) <= s
      && Spells(SpliceWrites(Snap(s), k, x), if k.Top? then Head(x) else t.root, k, x)
  {
    Splices(Snap(s), t.root, k, l, z, c, r);
  }

  /** The first two cases: the only child, if there is one, takes the node's place. */
  method SpliceOut(t: Tree, z: Node, x: Node?, ghost s: set<Node>, ghost k: Around, ghost l: Shape, ghost c: Color, ghost r: Shape)
    requires t.Holds(s, k, Bin(l, z, c, r)) && (l.Leaf? || r.Leaf?) && x == Head(if l.Leaf? then r else l)
    modifies t, s
    ensures t.Holds(s, k, if l.Leaf? then r else l)
  {
    hide Spells, Outer, Nodes, Snap;
    HangsBelow(t, s, k, l, z, c, r);
    SpliceReads(t, s, k, l, z, c, r);
    if x != null {
      SetParent(x, z.parent, s);
    }
    HangInstead(t, z, x, s, k);
  }

  /** The pointer that leads to `z` leads to `v` instead. */
  method HangInstead(t: Tree, z: Node, v: Node?, ghost s: set<Node>, ghost k: Around)
    requires z in s && z.parent == Above(k) && (!k.Top? ==> k.n in s && k.n in Snap(s) && (k.n.left == z <==> k.InLeft?))
    modifies t, if k.Top? then {} else {k.n}
    ensures t.root == if k.Top? then v else old(t.root)
    ensures !k.Top? ==> k.n.parent == old(k.n.parent) && k.n.color == old(k.n.color)
    ensures !k.Top? ==> k.n in old(Snap(s))
    ensures Snap(s) == Hang(old(Snap(s)), k, v)
  {
    hide Snap;
    if z.parent == null {
      t.root := v;
    } else if z == z.parent.left {
      SetLeft(z.parent, v, s);
    } else {
      SetRight(z.parent, v, s);
    }
  }

  /** The leftmost node below a place. */
  method Minimum(t: Tree, x: Node, ghost s: set<Node>, ghost base: Around, ghost r: Shape)
      returns (y: Node, ghost kk: Around, ghost d: nat, ghost cy: Color, ghost yr: Shape)
    requires t.Holds(s, base, r) && r.Bin? && x == r.n
    ensures Least(r).Bin? && y == Least(r).n && kk == LeastPlace(base, r)
    ensures Chain(kk, d, base) && t.Holds(s, kk, Bin(Leaf, y, cy, yr))
    ensures Climb(kk, d, Bin(Leaf, y, cy, yr)) == r && Least(r) == Bin(Leaf, y, cy, yr)
  {
    hide Spells, Outer, Nodes, Snap;
    y := x;
    ghost var here := r;
    kk, d := base, 0;
    t.Reads(s, kk, here.l, here.n, here.c, here.r);
    while y.left != null
      invariant t.Holds(s, kk, here) && here.Bin? && y == here.n && y.left == Head(here.l)
      invariant Chain(kk, d, base) && Climb(kk, d, here) == r && Least(here) == Least(r)
      invariant LeastPlace(kk, here) == LeastPlace(base, r)
      decreases here
    {
      t.Refocus(s, kk, here.l, here.n, here.c, here.r);
      kk, d, here := InLeft(kk, here.n, here.c, here.r), d + 1, here.l;
      y := y.left;
      t.Reads(s, kk, here.l, here.n, here.c, here.r);
    }
    cy, yr := here.c, here.r;
  }

  /** The last writes of the third case: `y` takes the place of `z`. */
  method TakePlace(t: Tree, z: Node, y: Node, ghost s: set<Node>, ghost k: Around, ghost ln: Node)
    requires z in s && y in s && ln in s && z != y && y != ln && z != ln && Snap(s).Keys == s
    requires z.parent == Above(k) && z.left == ln
    requires !k.Top? ==> k.n in s && k.n != z && k.n != y && k.n != ln && (k.n.left == z <==> k.InLeft?)
    modifies t, s
    ensures t.root == if k.Top? then y else old(t.root)
    ensures ln in old(Snap(s)) && (!k.Top? ==> k.n in old(Snap(s))) && z in old(Snap(s)) && y in old(Snap(s))
    ensures Snap(s) == TakeOver(old(Snap(s)), k, z, ln, y)
  {
    SnapAt(s, z);
    hide Snap;
    HangInstead(t, z, y, s, k);
    CopyLinks(z, y, s, ln);
  }

  /** `y` gets the parent, the left subtree and the colour of `z`. */
  method CopyLinks(z: Node, y: Node, ghost s: set<Node>, ghost ln: Node)
    requires z in s && y in s && ln in s && z != y && y != ln && z != ln && z.left == ln && Snap(s).Keys == s
    modifies s
    ensures z in old(Snap(s)) && y in old(Snap(s)) && ln in old(Snap(s))
    ensures var h := old(Snap(s));
      var h2 := h[y := h[y].(parent := h[z].parent)];
      var h3 := h2[y := h2[y].(left := h2[z].left)];
      var h4 := h3[ln := h3[ln].(parent := y)];
      Snap(s) == h4[y := h4[y].(color := h4[z].color)]
  {
    SnapAt(s, z);
    hide Snap;
    SetParent(y, z.parent, s);
    SetLeft(y, z.left, s);
    SetParent(y.left, y, s);
    SetColor(y, z.color, s);
  }

  lemma {:induction false} SnapAt(s: set<Node>, n: Node)
    requires n in s
    ensures n in Snap(s) && Snap(s)[n] == Fields(n.color, n.left, n.right, n.parent)
  {
  }

  /** What the third case reads, before anything is written. */
  lemma {:induction false} TwoReads(t: Tree, s: set<Node>, k: Around, l: Shape, z: Node, c: Color,
                                    kk: Around, d: nat, y: Node, cy: Color, x: Shape)
    requires t.Holds(s, kk, Bin(Leaf, y, cy, x)) && Chain(kk, d, InRight(k, z, c, l)) && l.Bin?
    ensures z in s && y in s && l.n in s && kk.InLeft? == (d > 0) && !kk.Top? && kk.n in s && (x.Bin? ==> x.n in s)
    ensures z.parent == Above(k) && z.left == l.n && y.right == Head(x) && y.parent == kk.n
    ensures z.right == Head(Climb(kk, d, Bin(Leaf, y, cy, x))) && (kk.n == z <==> d == 0)
    ensures z.right != null && z.right in s && z.right != z
    ensures z != y && l.n != z && l.n != y && (x.Bin? ==> x.n != z && x.n != y && x.n != l.n)
    ensures !k.Top? ==> k.n in s && k.n != z && k.n != y && k.n != l.n && k.n != kk.n && (k.n.left == z <==> k.InLeft?)
    ensures Snap(s).Keys == s
  {
    var sub, base := Bin(Leaf, y, cy, x), InRight(k, z, c, l);
    var r := Climb(kk, d, sub);
    ChainNotTop(kk, d, k, z, c, l);
    ClimbFocus(Snap(s), t.root, kk, d, base, sub);
    ClimbNodes(kk, d, base, sub);
    assert r.Bin? by {
      assert y in Nodes(sub);
    }
    Focus(Snap(s), t.root, k, l, z, c, r);
    HangsBelow(t, s, k, l, z, c, r);
    HangsBelow(t, s, kk, Leaf, y, cy, x);
    assert y in Nodes(sub) && (x.Bin? ==> x.n in Nodes(sub)) && l.n in Nodes(l);
    assert !k.Top? ==> k.n in Outer(k);
  }

  lemma {:induction false} SuccessorHolds(t: Tree, s: set<Node>, k: Around, l: Shape, y: Node, c: Color,
                                          kk: Around, d: nat, z: Node, x: Shape)
    requires t.Holds(s, k, Bin(l, y, c, Climb(kk, d, x))) && Chain(kk, d, InRight(k, z, c, l))
    ensures t.Holds(s, Rebase(kk, d, InRight(k, y, c, l)), x)
  {
    hide Spells, Outer, Nodes, Snap;
    var other := InRight(k, y, c, l);
    var kr := Rebase(kk, d, other);
    Focus(Snap(s), t.root, k, l, y, c, Climb(kk, d, x));
    RebaseChain(kk, d, InRight(k, z, c, l), other, x);
    ClimbFocus(Snap(s), t.root, kr, d, other, x);
  }

  lemma {:induction false} SuccessorWithin(s: set<Node>, k: Around, l: Shape, z: Node, c: Color,
                                           kk: Around, d: nat, y: Node, cy: Color, x: Shape)
    requires Outer(kk) + Nodes(Bin(Leaf, y, cy, x)) <= s && Chain(kk, d, InRight(k, z, c, l))
    ensures Outer(k) + Nodes(Bin(l, y, c, Climb(kk, d, x))) <= s
  {
    var base := InRight(k, z, c, l);
    ClimbFocus(map[], null, kk, d, base, x);
    assert Outer(kk) + Nodes(x) == Outer(base) + Nodes(Climb(kk, d, x));
    assert Outer(base) == Outer(k) + {z} + Nodes(l);
  }

  /** The third case: the successor `y` is spliced out and takes the place of `z`. */
  method Succeed(t: Tree, z: Node, y: Node, ghost s: set<Node>, ghost k: Around, ghost l: Shape, ghost c: Color,
                 ghost kk: Around, ghost d: nat, ghost cy: Color, ghost x: Shape)
    requires t.Holds(s, kk, Bin(Leaf, y, cy, x)) && Chain(kk, d, InRight(k, z, c, l)) && l.Bin?
    modifies t, s
    ensures t.Holds(s, Rebase(kk, d, InRight(k, y, c, l)), x)
  {
    hide Spells, Outer, Nodes, Snap, Climb, TakeOver;
    TwoReads(t, s, k, l, z, c, kk, d, y, cy, x);
    SuccessorWithin(s, k, l, z, c, kk, d, y, cy, x);
    var child := y.right;
    if y.parent == z {
      NearSuccessor(Snap(s), t.root, k, l, z, c, y, cy, x);
      ClimbNone(kk, x);
      ghost var h := Snap(s);
      if child != null {
        SetParent(child, y, s);
        assert Snap(s) == h;
      }
    } else {
      ghost var r := Climb(kk, d, x);
      FarSuccessor(Snap(s), t.root, k, l, z, c, kk, d, y, cy, x);
      ClimbHead(kk, d, InRight(k, z, c, l), x, Bin(Leaf, y, cy, x));
      if child != null {
        SetParent(child, y.parent, s);
      }
      SetLeft(y.parent, child, s);
      SetRight(y, z.right, s);
      SetParent(y.right, y, s);
    }
    TakePlace(t, z, y, s, k, l.n);
    SuccessorHolds(t, s, k, l, y, c, kk, d, z, x);
  }

  lemma {:induction false} ClimbNone(kk: Around, x: Shape)
    ensures Climb(kk, 0, x) == x
  {
  }

  /** In a red-black tree the only child of a node is red, and the node black. */
  lemma {:induction false} ChildIsRed(k: Around, l: Shape, z: Node, c: Color, r: Shape)
    requires RedBlack(Plug(k, Bin(l, z, c, r))) && (l.Leaf? || r.Leaf?)
    ensures var x := if l.Leaf? then r else l; x.Bin? ==> c.Black? && x.c.Red?
  {
    hide Plug, RedBlack, Rb;
    var h := UnplugRb(k, Bin(l, z, c, r), true);
    OneChild(l, z, c, r, h.value);
  }

  /** What is known where the child `x` of a node of colour `c` has taken its place. */
  ghost predicate Spliced(k: Around, c: Color, x: Shape) {
    RbOuter(k, None) && Rb(x, None) && (c.Red? ==> !IsRed(x) && !k.Top?)
  }

  /** Everything a splice does, in surroundings that only swap a node for another. */
  lemma {:induction false} SpliceEffect(k: Around, k': Around, l: Shape, z: Node, c: Color, r: Shape)
    requires Colored(Plug(k, Bin(l, z, c, r))) && (l.Leaf? || r.Leaf?) && Alike(k, k')
    ensures var x := if l.Leaf? then r else l;
      && Spliced(k', c, x) && (Breaks(k', c, x) <==> Breaks(k, c, x))
      && (RedBlack(Plug(k, Bin(l, z, c, r))) ==>
            (x.Bin? ==> x.c.Red?) && (RedBlack(Plug(k', Heir(c, x))) <==> Spare(k, c, x)))
  {
    hide Plug, RedBlack, Stuck, Alike;
    var h := UnplugRb(k, Bin(l, z, c, r), false);
    AlikeRb(k, k', None);
    AlikeTop(k, k');
    AlikeStuck(k, k');
    if RedBlack(Plug(k, Bin(l, z, c, r))) {
      ChildIsRed(k, l, z, c, r);
      SpliceRules(k, k', l, z, c, r);
    }
  }

  lemma {:induction false} SplicedColored(k: Around, c: Color, x: Shape)
    requires Spliced(k, c, x) && (c.Red? || x.Leaf?)
    ensures Colored(Plug(k, x))
  {
    if !k.Top? {
      PlugRb(k, x, None);
    }
  }

  /** The fix-up after a splice: `kp` is where the child `x` of a node of colour `cy` now stands. */
  method Settle(t: Tree, black: bool, child: Node?, ghost s: set<Node>, ghost kp: Around, ghost cy: Color, ghost x: Shape)
      returns (fault: bool, ghost now: Shape)
    requires t.Holds(s, kp, x) && child == Head(x) && black == cy.Black? && Spliced(kp, cy, x)
    modifies t, s
    ensures fault <==> Breaks(kp, cy, x)
    ensures !fault ==> t.Holds(s, Top, now) && Colored(now) && InOrder(now) == InOrder(Plug(kp, x))
    ensures (x.Bin? ==> x.c.Red?) ==> now == Plug(kp, Heir(cy, x))
  {
    hide Spells, Outer, Nodes, Snap, Stuck, Colored, Plug, RbOuter;
    fault, now := false, Plug(kp, x);
    if black && child != null {
      fault, now := FixupDel(t, child, s, kp, x);
    } else {
      SplicedColored(kp, cy, x);
      t.FromRoot(s, kp, x);
    }
  }

  /** Every node of a tree has a place from which it can be removed. */
  lemma {:induction false} PlaceOf(t: Tree, s: set<Node>, k: Around, here: Shape, z: Node)
      returns (kz: Around, l: Shape, c: Color, r: Shape)
    requires t.Holds(s, k, here) && z in Nodes(here)
    ensures t.Holds(s, kz, Bin(l, z, c, r)) && Plug(kz, Bin(l, z, c, r)) == Plug(k, here)
    decreases here
  {
    hide Spells, Outer, Snap;
    if here.n == z {
      kz, l, c, r := k, here.l, here.c, here.r;
    } else {
      t.Refocus(s, k, here.l, here.n, here.c, here.r);
      if z in Nodes(here.l) {
        kz, l, c, r := PlaceOf(t, s, InLeft(k, here.n, here.c, here.r), here.l, z);
      } else {
        kz, l, c, r := PlaceOf(t, s, InRight(k, here.n, here.c, here.l), here.r, z);
      }
    }
  }

  /** `rbtree_delete` on a tree that obeys the rules on colours. It fails if and only if a fix-up comes to
      a place without a sibling. Otherwise the order loses exactly `z` and the rules on colours hold; from
      a red-black tree it never fails, and the result is one if and only if the node that leaves its place
      is red, has a child, or is the last one. */
  method Delete(t: Tree, z: Node, ghost s: set<Node>, ghost k: Around, ghost l: Shape, ghost c: Color, ghost r: Shape)
      returns (fault: bool, ghost now: Shape)
    requires t.Holds(s, k, Bin(l, z, c, r)) && Colored(Plug(k, Bin(l, z, c, r)))
    modifies t, s
    ensures fault <==> Fails(k, l, z, c, r)
    ensures !fault ==> t.Holds(s, Top, now) && Colored(now)
    ensures !fault ==> Without(InOrder(Plug(k, Bin(l, z, c, r))), InOrder(now), z)
    ensures !fault && Ascending(InOrder(Plug(k, Bin(l, z, c, r)))) ==> Ascending(InOrder(now))
    ensures l.Leaf? && r.Leaf? ==> now == Plug(k, Leaf)
    ensures RedBlack(Plug(k, Bin(l, z, c, r))) ==> !fault && (RedBlack(now) <==> Removable(k, l, c, r))
  {
    hide Spells, Outer, Nodes, Snap, Plug, RedBlack, Colored, InOrder, Without, Alike, Stuck, RbOuter, Ascending;
    ghost var was := InOrder(Plug(k, Bin(l, z, c, r)));
    t.Reads(s, k, l, z, c, r);
    AlikeSelf(k);
    if z.left == null {
      SpliceOrder(k, l, z, c, r);
      SpliceEffect(k, k, l, z, c, r);
      var x := z.right;
      var black := z.color == Black;
      SpliceOut(t, z, x, s, k, l, c, r);
      fault, now := Settle(t, black, x, s, k, c, r);
    } else if z.right == null {
      SpliceOrder(k, l, z, c, r);
      SpliceEffect(k, k, l, z, c, r);
      var x := z.left;
      var black := z.color == Black;
      SpliceOut(t, z, x, s, k, l, c, r);
      fault, now := Settle(t, black, x, s, k, c, l);
    } else {
      fault, now := DeleteInner(t, z, s, k, l, c, r);
    }
    if !fault && Ascending(was) {
      WithoutAscending(was, InOrder(now), z);
    }
  }

  method DeleteInner(t: Tree, z: Node, ghost s: set<Node>, ghost k: Around, ghost l: Shape, ghost c: Color, ghost r: Shape)
      returns (fault: bool, ghost now: Shape)
    requires t.Holds(s, k, Bin(l, z, c, r)) && Colored(Plug(k, Bin(l, z, c, r))) && l.Bin? && r.Bin?
    modifies t, s
    ensures fault <==> Fails(k, l, z, c, r)
    ensures !fault ==> t.Holds(s, Top, now) && Colored(now)
    ensures !fault ==> Without(InOrder(Plug(k, Bin(l, z, c, r))), InOrder(now), z)
    ensures RedBlack(Plug(k, Bin(l, z, c, r))) ==> !fault && (RedBlack(now) <==> Removable(k, l, c, r))
  {
    hide Spells, Outer, Nodes, Snap, Plug, RedBlack, Colored, InOrder, Without, Alike, Rebase, Climb, Stuck, RbOuter;
    t.Reads(s, k, l, z, c, r);
    ghost var base := InRight(k, z, c, l);
    t.Refocus(s, k, l, z, c, r);
    Focus(Snap(s), t.root, k, l, z, c, r);
    ghost var kk, d, cy, xs;
    var y;
    y, kk, d, cy, xs := Minimum(t, z.right, s, base, r);
    ghost var sub := Bin(Leaf, y, cy, xs);
    ClimbFocus(Snap(s), t.root, kk, d, base, sub);
    ghost var kr := Rebase(kk, d, InRight(k, y, c, l));
    SuccessorOrder(k, l, z, c, kk, d, y, cy, xs);
    RebaseAlike(kk, d, k, z, y, c, l);
    SpliceEffect(kk, kr, Leaf, y, cy, xs);
    ChainNotTop(kk, d, k, z, c, l);
    t.Reads(s, kk, Leaf, y, cy, xs);
    var black := y.color == Black;
    var x := y.right;
    Succeed(t, z, y, s, k, l, c, kk, d, cy, xs);
    fault, now := Settle(t, black, x, s, kr, cy, xs);
  }

  /** For instance, taking a child away from a black node with two black children leaves the other
      one too high. */
  lemma {:induction false} BlackLeafBreaks(a: Node, b: Node, p: Node)
    ensures var k := InLeft(Top, p, Black, Bin(Leaf, b, Black, Leaf));
      RedBlack(Plug(k, Bin(Leaf, a, Black, Leaf))) && !Removable(k, Leaf, Black, Leaf) && !RedBlack(Plug(k, Leaf))
  {
    var sibling := Bin(Leaf, b, Black, Leaf);
    var k := InLeft(Top, p, Black, sibling);
    OneBlack(a);
    OneBlack(b);
    PlugRb(k, Bin(Leaf, a, Black, Leaf), Some(1));
    assert Rb(Plug(k, Bin(Leaf, a, Black, Leaf)), Some(Height(k, Some(1)).value));
    AlikeSelf(k);
    BrokenRules(k, k, 1);
  }

  lemma {:induction false} OneBlack(n: Node)
    ensures Rb(Bin(Leaf, n, Black, Leaf), Some(1))
  {
    assert Rb(Leaf, Some(0));
  }

  ghost function Lone(n: Node): Shape {
    Bin(Leaf, n, Black, Leaf)
  }

  /** For instance, seven black nodes: once 5, 7, 6 and 1 have been removed, each without children at its
      turn, removing 2 fails. */
  lemma {:induction false} RunsDry(n1: Node, n2: Node, n3: Node, n4: Node, n5: Node, n6: Node, n7: Node)
    ensures var low := Bin(Lone(n1), n2, Black, Lone(n3));
      var at5 := InLeft(InRight(Top, n4, Black, low), n6, Black, Lone(n7));
      var at7 := InRight(InRight(Top, n4, Black, low), n6, Black, Leaf);
      var at6 := InRight(Top, n4, Black, low);
      var at1 := InLeft(InLeft(Top, n4, Black, Leaf), n2, Black, Lone(n3));
      var at2 := InLeft(Top, n4, Black, Leaf);
      && RedBlack(Plug(at5, Lone(n5)))
      && Plug(at5, Leaf) == Plug(at7, Lone(n7)) && Plug(at7, Leaf) == Plug(at6, Lone(n6))
      && Plug(at6, Leaf) == Plug(at1, Lone(n1)) && Plug(at1, Leaf) == Plug(at2, Bin(Leaf, n2, Black, Lone(n3)))
      && Colored(Plug(at2, Bin(Leaf, n2, Black, Lone(n3)))) && Fails(at2, Leaf, n2, Black, Lone(n3))
  {
    hide RedBlack;
    var low := Bin(Lone(n1), n2, Black, Lone(n3));
    OneBlack(n1);
    OneBlack(n3);
    OneBlack(n5);
    OneBlack(n7);
    TwoBlack(Lone(n1), n2, Lone(n3), 1);
    TwoBlack(Lone(n5), n6, Lone(n7), 1);
    var up, high := InRight(Top, n4, Black, low), Bin(Lone(n5), n6, Black, Lone(n7));
    TwoBlack(low, n4, high, 2);
    assert Plug(InLeft(up, n6, Black, Lone(n7)), Lone(n5)) == Plug(up, high) == Plug(Top, Bin(low, n4, Black, high));
    assert Rb(Lone(n3), None) && Rb(Bin(Leaf, n2, Black, Lone(n3)), None);
  }

  lemma {:induction false} TwoBlack(l: Shape, n: Node, r: Shape, h: nat)
    requires Rb(l, Some(h)) && Rb(r, Some(h))
    ensures Rb(Bin(l, n, Black, r), Some(h + 1)) && RedBlack(Bin(l, n, Black, r))
  {
  }
}
