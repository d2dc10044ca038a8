/** The red-black tree of src/kernel/klib/rbtree.c: nodes with parent links, in-place
    rotations, and the insertion fix-up. */
module RbTree {
  import opened Basics

  datatype Color = Red | Black

  /** A node, with the key of the record it is embedded in. */
  class Node {
    const key: nat
    var color: Color
    var left: Node?
    var right: Node?
    var parent: Node?

    constructor (key: nat)
      ensures this.key == key
    {
      this.key := key;
      color, left, right, parent := Red, null, null, null;
    }
  }

  /** The tree a node heads, and what surrounds it: the path up to the root with the
      siblings left behind. */
  datatype Shape = Leaf | Bin(l: Shape, n: Node, c: Color, r: Shape)
  datatype Around = Top | InLeft(up: Around, n: Node, c: Color, r: Shape) | InRight(up: Around, n: Node, c: Color, l: Shape)

  ghost function Nodes(t: Shape): set<Node> {
    match t
    case Leaf => {}
    case Bin(l, n, _, r) => Nodes(l) + {n} + Nodes(r)
  }

  ghost function Outer(k: Around): set<Node> {
    match k
    case Top => {}
    case InLeft(up, n, _, r) => Outer(up) + {n} + Nodes(r)
    case InRight(up, n, _, l) => Outer(up) + {n} + Nodes(l)
  }

  ghost function Head(t: Shape): Node? {
    if t.Leaf? then null else t.n
  }

  ghost function Above(k: Around): Node? {
    if k.Top? then null else k.n
  }

  /** No node occurs twice. */
  ghost predicate Distinct(t: Shape) {
    match t
    case Leaf => true
    case Bin(l, n, _, r) => n !in Nodes(l) && n !in Nodes(r) && Nodes(l) !! Nodes(r) && Distinct(l) && Distinct(r)
  }

  ghost predicate DistinctOuter(k: Around) {
    match k
    case Top => true
    case InLeft(up, n, _, r) => n !in Outer(up) && n !in Nodes(r) && Outer(up) !! Nodes(r) && DistinctOuter(up) && Distinct(r)
    case InRight(up, n, _, l) => n !in Outer(up) && n !in Nodes(l) && Outer(up) !! Nodes(l) && DistinctOuter(up) && Distinct(l)
  }

  ghost function InOrder(t: Shape): seq<Node> {
    match t
    case Leaf => []
    case Bin(l, n, _, r) => InOrder(l) + [n] + InOrder(r)
  }

  ghost function Plug(k: Around, t: Shape): Shape {
    match k
    case Top => t
    case InLeft(up, n, c, r) => Plug(up, Bin(t, n, c, r))
    case InRight(up, n, c, l) => Plug(up, Bin(l, n, c, t))
  }

  ghost function Depth(k: Around): nat {
    if k.Top? then 0 else 1 + Depth(k.up)
  }

  // ----- the red-black rules

  ghost predicate IsRed(t: Shape) {
    t.Bin? && t.c.Red?
  }

  ghost function Weight(c: Color): nat {
    if c.Black? then 1 else 0
  }

  /** How many black nodes every path has to cross; nothing is asked of the paths when they are not counted. */
  type Level = Option<nat>

  ghost function Raise(h: Level, c: Color): Level {
    if h.None? then None else Some(h.value + Weight(c))
  }

  ghost function Lower(h: Level, c: Color): Level
    requires h.Some? ==> h.value >= Weight(c)
  {
    if h.None? then None else Some(h.value - Weight(c))
  }

  /** No red node has a red child, and every path down crosses `h` black nodes. */
  ghost predicate Rb(t: Shape, h: Level) {
    match t
    case Leaf => h.Some? ==> h.value == 0
    case Bin(l, n, c, r) =>
      && (h.Some? ==> h.value >= Weight(c)) && Rb(l, Lower(h, c)) && Rb(r, Lower(h, c))
      && (c.Red? ==> !IsRed(l) && !IsRed(r))
  }

  /** Surroundings that obey the rules around a part of black height `h`, leaving
      open only whether that part's head clashes with a red parent. A red node
      has a black parent, so the root is black. */
  ghost predicate RbOuter(k: Around, h: Level) {
    match k
    case Top => true
    case InLeft(up, n, c, r) =>
      && Rb(r, h) && (c.Red? ==> !IsRed(r) && !up.Top? && up.c.Black?) && RbOuter(up, Raise(h, c))
    case InRight(up, n, c, l) =>
      && Rb(l, h) && (c.Red? ==> !IsRed(l) && !up.Top? && up.c.Black?) && RbOuter(up, Raise(h, c))
  }

  ghost function Height(k: Around, h: Level): Level {
    if k.Top? then h else Height(k.up, Raise(h, k.c))
  }

  /** The rules on colours alone: the root is black and no red node has a red child. */
  ghost predicate Colored(t: Shape) {
    !IsRed(t) && Rb(t, None)
  }

  /** A red-black tree: all paths cross equally many black nodes as well. */
  ghost predicate RedBlack(t: Shape) {
    !IsRed(t) && exists h :: Rb(t, Some(h))
  }

  ghost predicate Ruled(t: Shape, even: bool) {
    if even then RedBlack(t) else Colored(t)
  }

  lemma {:induction false} Uncounted(t: Shape, h: Level)
    requires Rb(t, h)
    ensures Rb(t, None)
  {
    match t
    case Leaf =>
    case Bin(l, n, c, r) =>
      Uncounted(l, Lower(h, c));
      Uncounted(r, Lower(h, c));
  }

  lemma {:induction false} RuledColored(t: Shape, even: bool)
    requires Ruled(t, even)
    ensures Colored(t)
  {
    if even {
      var h :| Rb(t, Some(h));
      Uncounted(t, Some(h));
    }
  }

  /** A part and surroundings that obey the rules, without a clash between them,
      make a tree that obeys them. */
  lemma {:induction false} PlugRb(k: Around, t: Shape, h: Level)
    requires RbOuter(k, h) && Rb(t, h) && !k.Top? && (k.c.Red? ==> !IsRed(t))
    ensures Rb(Plug(k, t), Height(k, h)) && !IsRed(Plug(k, t)) && Height(k, h).Some? == h.Some?
    decreases k
  {
    var up, t' := k.up, if k.InLeft? then Bin(t, k.n, k.c, k.r) else Bin(k.l, k.n, k.c, t);
    assert Rb(t', Raise(h, k.c)) && Plug(k, t) == Plug(up, t');
    if !up.Top? {
      PlugRb(up, t', Raise(h, k.c));
    } else {
      assert Height(up, Raise(h, k.c)) == Raise(h, k.c);
    }
  }

  /** Any place of a tree that obeys the rules has surroundings that obey them. */
  lemma {:induction false} UnplugRb(k: Around, t: Shape, even: bool) returns (h: Level)
    requires Ruled(Plug(k, t), even)
    ensures h.Some? == even
    ensures Rb(t, h) && RbOuter(k, h) && (k.Top? || k.c.Red? ==> !IsRed(t))
    decreases k
  {
    match k
    case Top =>
      h := None;
      if even {
        var g :| Rb(t, Some(g));
        h := Some(g);
      }
    case InLeft(up, n, c, r) =>
      var g := UnplugRb(up, Bin(t, n, c, r), even);
      h := Lower(g, c);
    case InRight(up, n, c, l) =>
      var g := UnplugRb(up, Bin(l, n, c, t), even);
      h := Lower(g, c);
  }

  /** The state of the fix-up: everything obeys the rules, except that the red node
      with subtrees `l` and `r` may have a red parent. */
  ghost predicate Fixing(k: Around, l: Shape, r: Shape, h: Level) {
    Rb(l, h) && Rb(r, h) && !IsRed(l) && !IsRed(r) && RbOuter(k, h)
  }

  // What the rounds of the fix-up do to the rules and to the order, with the red
  // parent a left child of the grandparent.

  ghost predicate ClashLeft(k: Around) {
    !k.Top? && k.c.Red? && k.up.InLeft?
  }

  ghost function Blacken(t: Shape): Shape {
    if t.Bin? then Bin(t.l, t.n, Black, t.r) else t
  }

  ghost function ParentOf(k: Around, zt: Shape): (t: Shape)
    requires !k.Top?
    ensures t.Bin? && t.n == k.n && t.c == k.c
  {
    if k.InLeft? then Bin(zt, k.n, k.c, k.r) else Bin(k.l, k.n, k.c, zt)
  }

  lemma {:induction false} RecolorLeft(k: Around, l: Shape, z: Node, r: Shape, h: Level)
    requires ClashLeft(k) && Fixing(k, l, r, h) && IsRed(k.up.r)
    ensures var pt, ut := Blacken(ParentOf(k, Bin(l, z, Red, r))), Blacken(k.up.r);
            && Fixing(k.up.up, pt, ut, Raise(h, Black))
            && InOrder(Plug(k.up.up, Bin(pt, k.up.n, Red, ut))) == InOrder(Plug(k, Bin(l, z, Red, r)))
    ensures k.up.c.Black? && Depth(k.up.up) < Depth(k)
  {
    var zt := Bin(l, z, Red, r);
    var pt, ut := ParentOf(k, zt), k.up.r;
    assert RbOuter(k.up, h) && Rb(ut, h) && RbOuter(k.up.up, Raise(h, Black));
    assert Rb(zt, h) && Rb(Blacken(pt), Raise(h, Black)) && Rb(Blacken(ut), Raise(h, Black));
    assert Plug(k, zt) == Plug(k.up, pt) == Plug(k.up.up, Bin(pt, k.up.n, k.up.c, ut));
    assert InOrder(Blacken(pt)) == InOrder(pt) && InOrder(Blacken(ut)) == InOrder(ut);
    PlugOrder(k.up.up, Bin(pt, k.up.n, k.up.c, ut), Bin(Blacken(pt), k.up.n, Red, Blacken(ut)));
  }

  /** Surroundings of the red node after the final rotation of a left clash. */
  ghost function TurnedRightOf(k: Around, p: Node, sib: Shape): Around
    requires ClashLeft(k)
  {
    InLeft(k.up.up, p, Black, Bin(sib, k.up.n, Red, k.up.r))
  }

  lemma {:induction false} TurnLeft(k: Around, l: Shape, r: Shape, h: Level)
    requires ClashLeft(k) && Fixing(k, l, r, h) && !IsRed(k.up.r)
    ensures k.InLeft? ==> Fixing(TurnedRightOf(k, k.n, k.r), l, r, h)
    ensures forall z :: k.InRight? ==> Fixing(TurnedRightOf(k, z, r), k.l, l, h)
    ensures k.up.c.Black? && Depth(k.up.up) + 2 == Depth(k)
  {
    assert RbOuter(k.up, h) && Rb(k.up.r, h) && RbOuter(k.up.up, Raise(h, Black));
  }

  lemma {:induction false} TurnLeftOrder(k: Around, l: Shape, z: Node, r: Shape)
    requires ClashLeft(k)
    ensures k.InLeft? ==>
              InOrder(Plug(TurnedRightOf(k, k.n, k.r), Bin(l, z, Red, r))) == InOrder(Plug(k, Bin(l, z, Red, r)))
    ensures k.InRight? ==>
              InOrder(Plug(TurnedRightOf(k, z, r), Bin(k.l, k.n, Red, l))) == InOrder(Plug(k, Bin(l, z, Red, r)))
  {
    var kg, g, ut, zt := k.up.up, k.up.n, k.up.r, Bin(l, z, Red, r);
    var pt := ParentOf(k, zt);
    assert Plug(k, zt) == Plug(k.up, pt) == Plug(kg, Bin(pt, g, k.up.c, ut));
    if k.InLeft? {
      TurnParts(zt, k.n, Black, k.r, g, Red, ut);
      PlugOrder(kg, Bin(pt, g, k.up.c, ut), Bin(zt, k.n, Black, Bin(k.r, g, Red, ut)));
    } else {
      TurnParts(k.l, k.n, Red, l, z, Red, r);
      TurnParts(Bin(k.l, k.n, Red, l), z, Black, r, g, Red, ut);
      PlugOrder(kg, Bin(pt, g, k.up.c, ut), Bin(Bin(k.l, k.n, Red, l), z, Black, Bin(r, g, Red, ut)));
    }
  }

  lemma {:induction false} RedHasParent(k: Around, l: Shape, r: Shape, h: Level)
    requires Fixing(k, l, r, h) && !k.Top? && k.c.Red?
    ensures !k.up.Top? && k.up.c.Black?
  {
  }

  lemma {:induction false} SameOrder(t: Shape)
    requires t.Bin?
    ensures InOrder(Bin(t.l, t.n, Black, t.r)) == InOrder(t)
  {
  }

  /** When the loop ends, blackening the root gives a tree that obeys the rules. */
  lemma {:induction false} FixedRb(k: Around, l: Shape, z: Node, r: Shape, h: Level)
    requires Fixing(k, l, r, h) && (k.Top? || k.c.Black?)
    ensures Plug(k, Bin(l, z, Red, r)).Bin?
    ensures Ruled(Blacken(Plug(k, Bin(l, z, Red, r))), h.Some?)
  {
    var t := Bin(l, z, Red, r);
    if k.Top? {
      assert Rb(Blacken(t), Raise(h, Black));
    } else {
      PlugRb(k, t, h);
      PlugBin(k, t);
      assert Blacken(Plug(k, t)) == Plug(k, t);
    }
  }

  lemma {:induction false} PlugBin(k: Around, t: Shape)
    requires t.Bin?
    ensures Plug(k, t).Bin?
    decreases k
  {
    match k
    case Top =>
    case InLeft(up, n, c, r) => PlugBin(up, Bin(t, n, c, r));
    case InRight(up, n, c, l) => PlugBin(up, Bin(l, n, c, t));
  }

  lemma {:induction false} EmptyFixing(k: Around, h: Level)
    requires Rb(Leaf, h) && RbOuter(k, h)
    ensures Fixing(k, Leaf, Leaf, h)
  {
  }

  // The same with the red parent a right child.

  ghost predicate ClashRight(k: Around) {
    !k.Top? && k.c.Red? && k.up.InRight?
  }

  lemma {:induction false} RecolorRight(k: Around, l: Shape, z: Node, r: Shape, h: Level)
    requires ClashRight(k) && Fixing(k, l, r, h) && IsRed(k.up.l)
    ensures var pt, ut := Blacken(ParentOf(k, Bin(l, z, Red, r))), Blacken(k.up.l);
            && Fixing(k.up.up, ut, pt, Raise(h, Black))
            && InOrder(Plug(k.up.up, Bin(ut, k.up.n, Red, pt))) == InOrder(Plug(k, Bin(l, z, Red, r)))
    ensures k.up.c.Black? && Depth(k.up.up) < Depth(k)
  {
    var zt := Bin(l, z, Red, r);
    var pt, ut := ParentOf(k, zt), k.up.l;
    assert RbOuter(k.up, h) && Rb(ut, h) && RbOuter(k.up.up, Raise(h, Black));
    assert Rb(zt, h) && Rb(Blacken(pt), Raise(h, Black)) && Rb(Blacken(ut), Raise(h, Black));
    assert Plug(k, zt) == Plug(k.up, pt) == Plug(k.up.up, Bin(ut, k.up.n, k.up.c, pt));
    assert InOrder(Blacken(pt)) == InOrder(pt) && InOrder(Blacken(ut)) == InOrder(ut);
    PlugOrder(k.up.up, Bin(ut, k.up.n, k.up.c, pt), Bin(Blacken(ut), k.up.n, Red, Blacken(pt)));
  }

  ghost function TurnedLeftOf(k: Around, p: Node, sib: Shape): Around
    requires ClashRight(k)
  {
    InRight(k.up.up, p, Black, Bin(k.up.l, k.up.n, Red, sib))
  }

  lemma {:induction false} TurnRight(k: Around, l: Shape, r: Shape, h: Level)
    requires ClashRight(k) && Fixing(k, l, r, h) && !IsRed(k.up.l)
    ensures k.InRight? ==> Fixing(TurnedLeftOf(k, k.n, k.l), l, r, h)
    ensures forall z :: k.InLeft? ==> Fixing(TurnedLeftOf(k, z, l), r, k.r, h)
    ensures k.up.c.Black? && Depth(k.up.up) + 2 == Depth(k)
  {
    assert RbOuter(k.up, h) && Rb(k.up.l, h) && RbOuter(k.up.up, Raise(h, Black));
  }

  lemma {:induction false} TurnRightOrder(k: Around, l: Shape, z: Node, r: Shape)
    requires ClashRight(k)
    ensures k.InRight? ==>
              InOrder(Plug(TurnedLeftOf(k, k.n, k.l), Bin(l, z, Red, r))) == InOrder(Plug(k, Bin(l, z, Red, r)))
    ensures k.InLeft? ==>
              InOrder(Plug(TurnedLeftOf(k, z, l), Bin(r, k.n, Red, k.r))) == InOrder(Plug(k, Bin(l, z, Red, r)))
  {
    var kg, g, ut, zt := k.up.up, k.up.n, k.up.l, Bin(l, z, Red, r);
    var pt := ParentOf(k, zt);
    assert Plug(k, zt) == Plug(k.up, pt) == Plug(kg, Bin(ut, g, k.up.c, pt));
    if k.InRight? {
      TurnParts(ut, g, Red, k.l, k.n, Black, zt);
      PlugOrder(kg, Bin(ut, g, k.up.c, pt), Bin(Bin(ut, g, Red, k.l), k.n, Black, zt));
    } else {
      TurnParts(l, z, Red, r, k.n, Red, k.r);
      TurnParts(ut, g, Red, l, z, Black, Bin(r, k.n, Red, k.r));
      PlugOrder(kg, Bin(ut, g, k.up.c, pt), Bin(Bin(ut, g, Red, l), z, Black, Bin(r, k.n, Red, k.r)));
    }
  }

  /** The fields of nodes at one moment. */
  datatype Fields = Fields(color: Color, left: Node?, right: Node?, parent: Node?)
  type Snapshot = map<Node, Fields>

  /** The fields of the nodes of `t` spell out `t`, below parent `p`. */
  ghost predicate Links(h: Snapshot, t: Shape, p: Node?) {
    match t
    case Leaf => true
    case Bin(l, n, c, r) =>
      n in h && h[n] == Fields(c, Head(l), Head(r), p) && Links(h, l, n) && Links(h, r, n)
  }

  /** The fields along the path spell out the surroundings of a hole headed `hole`. */
  ghost predicate OuterLinks(h: Snapshot, root: Node?, k: Around, hole: Node?) {
    match k
    case Top => root == hole
    case InLeft(up, n, c, r) =>
      n in h && h[n] == Fields(c, hole, Head(r), Above(up)) && Links(h, r, n) && OuterLinks(h, root, up, n)
    case InRight(up, n, c, l) =>
      n in h && h[n] == Fields(c, Head(l), hole, Above(up)) && Links(h, l, n) && OuterLinks(h, root, up, n)
  }

  /** Shape `t` in surroundings `k`, with consistent parent links and no node twice. */
  ghost predicate Spells(h: Snapshot, root: Node?, k: Around, t: Shape) {
    && Distinct(t) && DistinctOuter(k) && Nodes(t) !! Outer(k)
    && Links(h, t, Above(k)) && OuterLinks(h, root, k, Head(t))
  }

  ghost predicate Same(h: Snapshot, h': Snapshot, s: set<Node>) {
    forall n <- s :: n in h && n in h' && h'[n] == h[n]
  }

  lemma {:induction false} LinksKept(h: Snapshot, h': Snapshot, t: Shape, p: Node?)
    requires Links(h, t, p) && Same(h, h', Nodes(t))
    ensures Links(h', t, p)
  {
    match t
    case Leaf =>
    case Bin(l, n, c, r) =>
      LinksKept(h, h', l, n);
      LinksKept(h, h', r, n);
  }

  /** A subtree keeps its shape when only its head's parent changes. */
  lemma {:induction false} LinksMoved(h: Snapshot, h': Snapshot, t: Shape, p: Node?, q: Node?)
    requires Distinct(t) && Links(h, t, p)
    requires t.Bin? ==> Same(h, h', Nodes(t) - {t.n}) && t.n in h' && h'[t.n] == h[t.n].(parent := q)
    ensures Links(h', t, q)
  {
    match t
    case Leaf =>
    case Bin(l, n, c, r) =>
      LinksKept(h, h', l, n);
      LinksKept(h, h', r, n);
  }

  lemma {:induction false} OuterKept(h: Snapshot, h': Snapshot, root: Node?, k: Around, hole: Node?)
    requires OuterLinks(h, root, k, hole) && Same(h, h', Outer(k))
    ensures OuterLinks(h', root, k, hole)
  {
    match k
    case Top =>
    case InLeft(up, n, c, r) =>
      LinksKept(h, h', r, n);
      OuterKept(h, h', root, up, n);
    case InRight(up, n, c, l) =>
      LinksKept(h, h', l, n);
      OuterKept(h, h', root, up, n);
  }

  /** What a write of the hole's pointer in its surroundings amounts to. */
  ghost predicate Rehung(h: Snapshot, h': Snapshot, root: Node?, root': Node?, k: Around, now: Node?) {
    match k
    case Top => root' == now
    case InLeft(up, n, _, _) => root' == root && n in h && n in h' && h'[n] == h[n].(left := now) && Same(h, h', Outer(k) - {n})
    case InRight(up, n, _, _) => root' == root && n in h && n in h' && h'[n] == h[n].(right := now) && Same(h, h', Outer(k) - {n})
  }

  lemma {:induction false} OuterRehung(h: Snapshot, h': Snapshot, root: Node?, root': Node?, k: Around, was: Node?, now: Node?)
    requires DistinctOuter(k) && OuterLinks(h, root, k, was) && Rehung(h, h', root, root', k, now)
    ensures OuterLinks(h', root', k, now)
  {
    match k
    case Top =>
    case InLeft(up, n, c, r) =>
      LinksKept(h, h', r, n);
      OuterKept(h, h', root, up, n);
    case InRight(up, n, c, l) =>
      LinksKept(h, h', l, n);
      OuterKept(h, h', root, up, n);
  }

  /** The field writes of a left rotation, */
  ghost predicate TurnedLeft(h: Snapshot, h': Snapshot, root: Node?, root': Node?, k: Around, a: Shape, x: Node, b: Shape, y: Node, c: Shape) {
    && Rehung(h, h', root, root', k, y)
    && x in h && x in h' && h'[x] == h[x].(right := Head(b), parent := y)
    && y in h && y in h' && h'[y] == h[y].(left := x, parent := Above(k))
    && Same(h, h', Nodes(a)) && Same(h, h', Nodes(c))
    && (b.Bin? ==> Same(h, h', Nodes(b) - {b.n}) && b.n in h && b.n in h' && h'[b.n] == h[b.n].(parent := x))
  }

  /** and the shape they leave. */
  lemma {:induction false} RotatesLeft(h: Snapshot, h': Snapshot, root: Node?, root': Node?, k: Around,
                                       a: Shape, x: Node, cx: Color, b: Shape, y: Node, cy: Color, c: Shape)
    requires Spells(h, root, k, Bin(a, x, cx, Bin(b, y, cy, c)))
    requires TurnedLeft(h, h', root, root', k, a, x, b, y, c)
    ensures Spells(h', root', k, Bin(Bin(a, x, cx, b), y, cy, c))
  {
    hide Rehung;
    TurnParts(a, x, cx, b, y, cy, c);
    assert Links(h, Bin(b, y, cy, c), x);
    LinksKept(h, h', a, x);
    LinksMoved(h, h', b, y, x);
    LinksKept(h, h', c, y);
    OuterRehung(h, h', root, root', k, x, y);
    assert Links(h', Bin(a, x, cx, b), y);
  }

  /** Both shapes of a rotation hold the same nodes in the same order. */
  lemma {:induction false} TurnParts(a: Shape, x: Node, cx: Color, b: Shape, y: Node, cy: Color, c: Shape)
    ensures Nodes(Bin(Bin(a, x, cx, b), y, cy, c)) == Nodes(Bin(a, x, cx, Bin(b, y, cy, c)))
    ensures Distinct(Bin(Bin(a, x, cx, b), y, cy, c)) <==> Distinct(Bin(a, x, cx, Bin(b, y, cy, c)))
    ensures Distinct(Bin(a, x, cx, Bin(b, y, cy, c))) <==>
              && x !in Nodes(a) && x !in Nodes(b) && x !in Nodes(c) && x != y
              && y !in Nodes(a) && y !in Nodes(b) && y !in Nodes(c)
              && Nodes(a) !! Nodes(b) && Nodes(a) !! Nodes(c) && Nodes(b) !! Nodes(c)
              && Distinct(a) && Distinct(b) && Distinct(c)
    ensures InOrder(Bin(Bin(a, x, cx, b), y, cy, c)) == InOrder(Bin(a, x, cx, Bin(b, y, cy, c)))
  {
    hide Nodes, Distinct, InOrder;
    BinParts(b, y, cy, c);
    BinParts(a, x, cx, b);
    BinParts(a, x, cx, Bin(b, y, cy, c));
    BinParts(Bin(a, x, cx, b), y, cy, c);
    SameSequence(InOrder(a), x, InOrder(b), y, InOrder(c));
  }

  lemma {:induction false} BinParts(l: Shape, n: Node, c: Color, r: Shape)
    ensures Nodes(Bin(l, n, c, r)) == Nodes(l) + {n} + Nodes(r)
    ensures Distinct(Bin(l, n, c, r)) <==>
              n !in Nodes(l) && n !in Nodes(r) && Nodes(l) !! Nodes(r) && Distinct(l) && Distinct(r)
    ensures InOrder(Bin(l, n, c, r)) == InOrder(l) + [n] + InOrder(r)
  {
  }

  lemma {:induction false} SameSequence(a: seq<Node>, x: Node, b: seq<Node>, y: Node, c: seq<Node>)
    ensures a + [x] + b + [y] + c == a + [x] + (b + [y] + c)
  {
  }

  /** Nodes outside of the tree are not written. */
  ghost predicate Others(h: Snapshot, h': Snapshot, tree: set<Node>) {
    h'.Keys == h.Keys && forall n <- h :: n !in tree ==> h'[n] == h[n]
  }

  /** The writes of a left rotation, in program order. */
  ghost function LeftWrites(h: Snapshot, k: Around, x: Node, b: Shape, y: Node): Snapshot
    requires x in h && y in h && (b.Bin? ==> b.n in h) && (!k.Top? ==> k.n in h)
  {
    var h1 := h[x := h[x].(right := Head(b))];
    var h2 := if b.Bin? then h1[b.n := h1[b.n].(parent := x)] else h1;
    var h3 := h2[y := h2[y].(parent := Above(k))];
    var h4 := if k.Top? then h3
              else if k.InLeft? then h3[k.n := h3[k.n].(left := y)]
              else h3[k.n := h3[k.n].(right := y)];
    var h5 := h4[y := h4[y].(left := x)];
    h5[x := h5[x].(parent := y)]
  }

  lemma {:induction false} LeftWritesOthers(h: Snapshot, k: Around, x: Node, b: Shape, y: Node, tree: set<Node>)
    requires x in h && y in h && (b.Bin? ==> b.n in h) && (!k.Top? ==> k.n in h)
    requires x in tree && y in tree && (b.Bin? ==> b.n in tree) && (!k.Top? ==> k.n in tree)
    ensures Others(h, LeftWrites(h, k, x, b, y), tree)
  {
  }

  lemma {:induction false} LeftWritesTurn(h: Snapshot, root: Node?, k: Around,
                                          a: Shape, x: Node, cx: Color, b: Shape, y: Node, cy: Color, c: Shape)
    requires Spells(h, root, k, Bin(a, x, cx, Bin(b, y, cy, c)))
    requires Outer(k) + Nodes(Bin(a, x, cx, Bin(b, y, cy, c))) <= h.Keys
    ensures x in h && y in h && (b.Bin? ==> b.n in h) && (!k.Top? ==> k.n in h)
    ensures h[x] == Fields(cx, Head(a), y, Above(k)) && h[y].left == Head(b)
    ensures !k.Top? ==> (h[k.n].left == x <==> k.InLeft?)
    ensures Spells(LeftWrites(h, k, x, b, y), if k.Top? then y else root, k, Bin(Bin(a, x, cx, b), y, cy, c))
  {
    TurnParts(a, x, cx, b, y, cy, c);
    assert b.Bin? ==> b.n in Nodes(b);
    assert !k.Top? ==> k.n in Outer(k);
    assert Links(h, Bin(b, y, cy, c), x);
    var h' := LeftWrites(h, k, x, b, y);
    assert Nodes(Bin(a, x, cx, Bin(b, y, cy, c))) == Nodes(a) + {x} + (Nodes(b) + {y} + Nodes(c));
    assert TurnedLeft(h, h', root, if k.Top? then y else root, k, a, x, b, y, c);
    RotatesLeft(h, h', root, if k.Top? then y else root, k, a, x, cx, b, y, cy, c);
  }

  /** The writes of a right rotation, in program order. */
  ghost function RightWrites(h: Snapshot, k: Around, x: Node, b: Shape, y: Node): Snapshot
    requires x in h && y in h && (b.Bin? ==> b.n in h) && (!k.Top? ==> k.n in h)
  {
    var h1 := h[y := h[y].(left := Head(b))];
    var h2 := if b.Bin? then h1[b.n := h1[b.n].(parent := y)] else h1;
    var h3 := h2[x := h2[x].(parent := Above(k))];
    var h4 := if k.Top? then h3
              else if k.InLeft? then h3[k.n := h3[k.n].(left := x)]
              else h3[k.n := h3[k.n].(right := x)];
    var h5 := h4[x := h4[x].(right := y)];
    h5[y := h5[y].(parent := x)]
  }

  ghost predicate TurnedRight(h: Snapshot, h': Snapshot, root: Node?, root': Node?, k: Around, a: Shape, x: Node, b: Shape, y: Node, c: Shape) {
    && Rehung(h, h', root, root', k, x)
    && y in h && y in h' && h'[y] == h[y].(left := Head(b), parent := x)
    && x in h && x in h' && h'[x] == h[x].(right := y, parent := Above(k))
    && Same(h, h', Nodes(a)) && Same(h, h', Nodes(c))
    && (b.Bin? ==> Same(h, h', Nodes(b) - {b.n}) && b.n in h && b.n in h' && h'[b.n] == h[b.n].(parent := y))
  }

  lemma {:induction false} RotatesRight(h: Snapshot, h': Snapshot, root: Node?, root': Node?, k: Around,
                                        a: Shape, x: Node, cx: Color, b: Shape, y: Node, cy: Color, c: Shape)
    requires Spells(h, root, k, Bin(Bin(a, x, cx, b), y, cy, c))
    requires TurnedRight(h, h', root, root', k, a, x, b, y, c)
    ensures Spells(h', root', k, Bin(a, x, cx, Bin(b, y, cy, c)))
  {
    hide Rehung;
    TurnParts(a, x, cx, b, y, cy, c);
    assert Links(h, Bin(a, x, cx, b), y);
    LinksKept(h, h', a, x);
    LinksMoved(h, h', b, x, y);
    LinksKept(h, h', c, y);
    OuterRehung(h, h', root, root', k, y, x);
    assert Links(h', Bin(b, y, cy, c), x);
  }

  lemma {:induction false} RightWritesOthers(h: Snapshot, k: Around, x: Node, b: Shape, y: Node, tree: set<Node>)
    requires x in h && y in h && (b.Bin? ==> b.n in h) && (!k.Top? ==> k.n in h)
    requires x in tree && y in tree && (b.Bin? ==> b.n in tree) && (!k.Top? ==> k.n in tree)
    ensures Others(h, RightWrites(h, k, x, b, y), tree)
  {
  }

  lemma {:induction false} RightWritesTurn(h: Snapshot, root: Node?, k: Around,
                                           a: Shape, x: Node, cx: Color, b: Shape, y: Node, cy: Color, c: Shape)
    requires Spells(h, root, k, Bin(Bin(a, x, cx, b), y, cy, c))
    requires Outer(k) + Nodes(Bin(Bin(a, x, cx, b), y, cy, c)) <= h.Keys
    ensures x in h && y in h && (b.Bin? ==> b.n in h) && (!k.Top? ==> k.n in h)
    ensures h[y] == Fields(cy, x, Head(c), Above(k)) && h[x].right == Head(b)
    ensures !k.Top? ==> (h[k.n].left == y <==> k.InLeft?)
    ensures Spells(RightWrites(h, k, x, b, y), if k.Top? then x else root, k, Bin(a, x, cx, Bin(b, y, cy, c)))
  {
    TurnParts(a, x, cx, b, y, cy, c);
    assert b.Bin? ==> b.n in Nodes(b);
    assert !k.Top? ==> k.n in Outer(k);
    assert Links(h, Bin(a, x, cx, b), y);
    var h' := RightWrites(h, k, x, b, y);
    assert Nodes(Bin(Bin(a, x, cx, b), y, cy, c)) == Nodes(a) + {x} + Nodes(b) + {y} + Nodes(c);
    assert TurnedRight(h, h', root, if k.Top? then x else root, k, a, x, b, y, c);
    RotatesRight(h, h', root, if k.Top? then x else root, k, a, x, cx, b, y, cy, c);
  }

  /** Changing the colour of a head changes its colour in the shape. */
  lemma {:induction false} Painted(h: Snapshot, root: Node?, k: Around, l: Shape, n: Node, c: Color, r: Shape, c': Color)
    requires Spells(h, root, k, Bin(l, n, c, r))
    ensures n in h && Spells(h[n := h[n].(color := c')], root, k, Bin(l, n, c', r))
  {
    var h' := h[n := h[n].(color := c')];
    OuterHas(h, root, k, n);
    LinksHas(h, l, n);
    LinksHas(h, r, n);
    LinksKept(h, h', l, n);
    LinksKept(h, h', r, n);
    OuterKept(h, h', root, k, n);
  }

  lemma {:induction false} LinksHas(h: Snapshot, t: Shape, p: Node?)
    requires Links(h, t, p)
    ensures Nodes(t) <= h.Keys
  {
    match t
    case Leaf =>
    case Bin(l, n, c, r) =>
      LinksHas(h, l, n);
      LinksHas(h, r, n);
  }

  lemma {:induction false} OuterHas(h: Snapshot, root: Node?, k: Around, hole: Node?)
    requires OuterLinks(h, root, k, hole)
    ensures Outer(k) <= h.Keys
    ensures !k.Top? ==> root in Outer(k)
  {
    match k
    case Top =>
    case InLeft(up, n, c, r) =>
      LinksHas(h, r, n);
      OuterHas(h, root, up, n);
    case InRight(up, n, c, l) =>
      LinksHas(h, l, n);
      OuterHas(h, root, up, n);
  }

  /** Writing the pointer that leads into the hole. */
  ghost function Hang(h: Snapshot, k: Around, v: Node?): Snapshot
    requires !k.Top? ==> k.n in h
  {
    if k.Top? then h
    else if k.InLeft? then h[k.n := h[k.n].(left := v)]
    else h[k.n := h[k.n].(right := v)]
  }

  /** The four fields of a node written one after the other. */
  ghost function FourWrites(h: Snapshot, n: Node, f: Fields): Snapshot
    requires n in h
  {
    var h1 := h[n := h[n].(color := f.color)];
    var h2 := h1[n := h1[n].(left := f.left)];
    var h3 := h2[n := h2[n].(right := f.right)];
    h3[n := h3[n].(parent := f.parent)]
  }

  lemma {:induction false} FourWritesAtOnce(h: Snapshot, n: Node, f: Fields)
    requires n in h
    ensures FourWrites(h, n, f) == h[n := f]
  {
  }

  /** The writes that link a new red node into an empty place. */
  ghost function LinkWrites(h: Snapshot, k: Around, n: Node): Snapshot
    requires n in h && (!k.Top? ==> k.n in h)
  {
    Hang(h[n := Fields(Red, null, null, Above(k))], k, n)
  }

  lemma {:induction false} LinksNew(h: Snapshot, root: Node?, k: Around, n: Node)
    requires Spells(h, root, k, Leaf) && n in h && n !in Outer(k)
    ensures !k.Top? ==> k.n in h
    ensures Spells(LinkWrites(h, k, n), if k.Top? then n else root, k, Bin(Leaf, n, Red, Leaf))
  {
    OuterHas(h, root, k, null);
    var h' := LinkWrites(h, k, n);
    assert !k.Top? ==> k.n in Outer(k);
    assert Rehung(h, h', root, if k.Top? then n else root, k, n);
    OuterRehung(h, h', root, if k.Top? then n else root, k, null, n);
  }

  /** The writes that put a node in the place of another. */
  ghost function ReplaceWrites(h: Snapshot, k: Around, l: Shape, o: Node, r: Shape, n: Node): Snapshot
    requires n in h && o in h && (!k.Top? ==> k.n in h) && (l.Bin? ==> l.n in h) && (r.Bin? ==> r.n in h)
  {
    var h1 := h[n := h[o]];
    var h2 := if l.Bin? then h1[l.n := h1[l.n].(parent := n)] else h1;
    var h3 := if r.Bin? then h2[r.n := h2[r.n].(parent := n)] else h2;
    Hang(h3, k, n)
  }

  /** The nodes a replacement touches are all different. */
  ghost predicate Apart(h: Snapshot, k: Around, l: Shape, o: Node, r: Shape, n: Node) {
    && o in h && n in h && o != n && Nodes(l) <= h.Keys && Nodes(r) <= h.Keys && Outer(k) <= h.Keys
    && Nodes(l) !! Nodes(r) && (Nodes(l) + Nodes(r)) !! Outer(k)
    && o !in Nodes(l) + Nodes(r) + Outer(k) && n !in Nodes(l) + Nodes(r) + Outer(k)
  }

  lemma {:induction false} ReplaceApart(h: Snapshot, root: Node?, k: Around, l: Shape, o: Node, c: Color, r: Shape, n: Node)
    requires Spells(h, root, k, Bin(l, o, c, r)) && n in h && n !in Outer(k) && n !in Nodes(Bin(l, o, c, r))
    ensures Apart(h, k, l, o, r, n) && h[o] == Fields(c, Head(l), Head(r), Above(k))
  {
    hide Links, OuterLinks;
    PartsHave(h, root, k, l, o, c, r);
  }

  lemma {:induction false} ReplaceHeads(h: Snapshot, k: Around, l: Shape, o: Node, r: Shape, n: Node)
    requires Apart(h, k, l, o, r, n)
    ensures o in h && (!k.Top? ==> k.n in h) && (l.Bin? ==> l.n in h) && (r.Bin? ==> r.n in h)
    ensures o != n && (l.Bin? ==> l.n != o && l.n != n) && (r.Bin? ==> r.n != o && r.n != n) && (l.Bin? && r.Bin? ==> l.n != r.n)
    ensures !k.Top? ==> k.n != o && k.n != n && (l.Bin? ==> l.n != k.n) && (r.Bin? ==> r.n != k.n)
  {
    assert l.Bin? ==> l.n in Nodes(l);
    assert r.Bin? ==> r.n in Nodes(r);
    assert !k.Top? ==> k.n in Outer(k);
  }

  lemma {:induction false} ReplaceChild(h: Snapshot, k: Around, l: Shape, o: Node, r: Shape, n: Node)
    requires Apart(h, k, l, o, r, n)
    ensures o in h && (!k.Top? ==> k.n in h) && (l.Bin? ==> l.n in h) && (r.Bin? ==> r.n in h)
    ensures var h' := ReplaceWrites(h, k, l, o, r, n);
            && n in h' && h'[n] == h[o]
            && (l.Bin? ==> Same(h, h', Nodes(l) - {l.n}) && l.n in h' && h'[l.n] == h[l.n].(parent := n))
            && (r.Bin? ==> Same(h, h', Nodes(r) - {r.n}) && r.n in h' && h'[r.n] == h[r.n].(parent := n))
  {
    ReplaceHeads(h, k, l, o, r, n);
    assert l.Bin? ==> l.n in Nodes(l);
    assert r.Bin? ==> r.n in Nodes(r);
    assert !k.Top? ==> k.n in Outer(k);
  }

  lemma {:induction false} ReplaceAbove(h: Snapshot, root: Node?, k: Around, l: Shape, o: Node, r: Shape, n: Node)
    requires Apart(h, k, l, o, r, n)
    ensures o in h && (!k.Top? ==> k.n in h) && (l.Bin? ==> l.n in h) && (r.Bin? ==> r.n in h)
    ensures Rehung(h, ReplaceWrites(h, k, l, o, r, n), root, if k.Top? then n else root, k, n)
  {
    ReplaceHeads(h, k, l, o, r, n);
    assert l.Bin? ==> l.n in Nodes(l);
    assert r.Bin? ==> r.n in Nodes(r);
    assert !k.Top? ==> k.n in Outer(k);
  }

  lemma {:induction false} ReplaceParts(h: Snapshot, root: Node?, k: Around, l: Shape, o: Node, c: Color, r: Shape, n: Node)
    requires Spells(h, root, k, Bin(l, o, c, r)) && n in h && n !in Outer(k) && n !in Nodes(Bin(l, o, c, r))
    ensures o in h && (!k.Top? ==> k.n in h) && (l.Bin? ==> l.n in h) && (r.Bin? ==> r.n in h)
    ensures h[o] == Fields(c, Head(l), Head(r), Above(k))
    ensures o != n && (l.Bin? ==> l.n != o && l.n != n) && (r.Bin? ==> r.n != o && r.n != n) && (l.Bin? && r.Bin? ==> l.n != r.n)
    ensures !k.Top? ==> k.n != o && k.n != n && (l.Bin? ==> l.n != k.n) && (r.Bin? ==> r.n != k.n)
    ensures var h' := ReplaceWrites(h, k, l, o, r, n);
            && Rehung(h, h', root, if k.Top? then n else root, k, n)
            && n in h' && h'[n] == h[o]
            && (l.Bin? ==> Same(h, h', Nodes(l) - {l.n}) && l.n in h' && h'[l.n] == h[l.n].(parent := n))
            && (r.Bin? ==> Same(h, h', Nodes(r) - {r.n}) && r.n in h' && h'[r.n] == h[r.n].(parent := n))
  {
    hide Spells, Nodes, Outer, Apart, Same, Rehung, ReplaceWrites;
    ReplaceApart(h, root, k, l, o, c, r, n);
    ReplaceHeads(h, k, l, o, r, n);
    ReplaceChild(h, k, l, o, r, n);
    ReplaceAbove(h, root, k, l, o, r, n);
  }

  lemma {:induction false} PartsHave(h: Snapshot, root: Node?, k: Around, l: Shape, o: Node, c: Color, r: Shape)
    requires Spells(h, root, k, Bin(l, o, c, r))
    ensures Nodes(l) <= h.Keys && Nodes(r) <= h.Keys && Outer(k) <= h.Keys
    ensures o in h && h[o] == Fields(c, Head(l), Head(r), Above(k))
    ensures Links(h, l, o) && Links(h, r, o)
  {
    OuterHas(h, root, k, o);
    LinksHas(h, l, o);
    LinksHas(h, r, o);
  }

  lemma {:induction false} Replaces(h: Snapshot, root: Node?, k: Around, l: Shape, o: Node, c: Color, r: Shape, n: Node)
    requires Spells(h, root, k, Bin(l, o, c, r)) && n in h && n !in Outer(k) && n !in Nodes(Bin(l, o, c, r))
    ensures o in h && (!k.Top? ==> k.n in h) && (l.Bin? ==> l.n in h) && (r.Bin? ==> r.n in h)
    ensures h[o] == Fields(c, Head(l), Head(r), Above(k))
    ensures Spells(ReplaceWrites(h, k, l, o, r, n), if k.Top? then n else root, k, Bin(l, n, c, r))
  {
    hide ReplaceWrites, Rehung, Same;
    ReplaceParts(h, root, k, l, o, c, r, n);
    PartsHave(h, root, k, l, o, c, r);
    var h' := ReplaceWrites(h, k, l, o, r, n);
    LinksMoved(h, h', l, o, n);
    LinksMoved(h, h', r, o, n);
    OuterRehung(h, h', root, if k.Top? then n else root, k, o, n);
  }

  /** The same tree, focused on a node or on one of its children. */
  lemma {:induction false} Focus(h: Snapshot, root: Node?, k: Around, l: Shape, n: Node, c: Color, r: Shape)
    ensures Spells(h, root, k, Bin(l, n, c, r)) <==> Spells(h, root, InLeft(k, n, c, r), l)
    ensures Spells(h, root, k, Bin(l, n, c, r)) <==> Spells(h, root, InRight(k, n, c, l), r)
    ensures Outer(k) + Nodes(Bin(l, n, c, r)) == Outer(InLeft(k, n, c, r)) + Nodes(l) == Outer(InRight(k, n, c, l)) + Nodes(r)
    ensures Plug(k, Bin(l, n, c, r)) == Plug(InLeft(k, n, c, r), l) == Plug(InRight(k, n, c, l), r)
  {
  }

  /** The whole tree, seen from its root. */
  lemma {:induction false} FocusTop(h: Snapshot, root: Node?, k: Around, t: Shape)
    requires Spells(h, root, k, t)
    ensures Spells(h, root, Top, Plug(k, t))
    ensures Nodes(Plug(k, t)) == Outer(k) + Nodes(t)
  {
    match k
    case Top =>
    case InLeft(up, n, c, r) =>
      Focus(h, root, up, t, n, c, r);
      FocusTop(h, root, up, Bin(t, n, c, r));
    case InRight(up, n, c, l) =>
      Focus(h, root, up, l, n, c, t);
      FocusTop(h, root, up, Bin(l, n, c, t));
  }

  /** The nodes before and after a place, in order. */
  ghost function Before(k: Around): seq<Node> {
    match k
    case Top => []
    case InLeft(up, _, _, _) => Before(up)
    case InRight(up, n, _, l) => Before(up) + (InOrder(l) + [n])
  }

  ghost function After(k: Around): seq<Node> {
    match k
    case Top => []
    case InLeft(up, n, _, r) => [n] + InOrder(r) + After(up)
    case InRight(up, _, _, _) => After(up)
  }

  lemma {:induction false} Regroup(a: seq<Node>, x: seq<Node>, n: seq<Node>, y: seq<Node>, b: seq<Node>)
    ensures a + (x + n + y) + b == a + x + (n + y + b) == a + (x + n) + y + b
  {
  }

  lemma {:induction false} PlugInOrder(k: Around, t: Shape)
    ensures InOrder(Plug(k, t)) == Before(k) + InOrder(t) + After(k)
    decreases k
  {
    match k
    case Top =>
    case InLeft(up, n, c, r) =>
      PlugInOrder(up, Bin(t, n, c, r));
      Regroup(Before(up), InOrder(t), [n], InOrder(r), After(up));
    case InRight(up, n, c, l) =>
      PlugInOrder(up, Bin(l, n, c, t));
      Regroup(Before(up), InOrder(l), [n], InOrder(t), After(up));
  }

  ghost predicate Ascending(ns: seq<Node>) {
    forall i, j :: 0 <= i < j < |ns| ==> ns[i].key < ns[j].key
  }

  /** A place of a search for `key`: everything before it is smaller, everything
      after it larger. */
  ghost predicate Searched(k: Around, key: nat) {
    (forall m <- Before(k) :: m.key < key) && (forall m <- After(k) :: m.key > key)
  }

  lemma {:induction false} AscendingParts(a: seq<Node>, x: seq<Node>, n: Node, y: seq<Node>, b: seq<Node>)
    requires Ascending(a + (x + [n] + y) + b)
    ensures forall m <- x :: m.key < n.key
    ensures forall m <- y :: m.key > n.key
  {
    var all, i := a + (x + [n] + y) + b, |a| + |x|;
    assert all[i] == n;
    forall m <- x ensures m.key < n.key {
      var j :| 0 <= j < |x| && x[j] == m;
      assert all[|a| + j] == m;
    }
    forall m <- y ensures m.key > n.key {
      var j :| 0 <= j < |y| && y[j] == m;
      assert all[i + 1 + j] == m;
    }
  }

  lemma {:induction false} AscendingInsert(a: seq<Node>, n: Node, b: seq<Node>)
    requires Ascending(a + b) && (forall m <- a :: m.key < n.key) && (forall m <- b :: m.key > n.key)
    ensures Ascending(a + [n] + b)
  {
    var was, now := a + b, a + [n] + b;
    forall i, j | 0 <= i < j < |now| ensures now[i].key < now[j].key {
      var i', j' := if i > |a| then i - 1 else i, if j > |a| then j - 1 else j;
      if i == |a| {
        assert now[j] == b[j - |a| - 1];
      } else if j == |a| {
        assert now[i] == a[i];
      } else {
        assert now[i] == was[i'] && now[j] == was[j'] && i' < j';
      }
    }
  }

  lemma {:induction false} SearchDown(k: Around, l: Shape, n: Node, c: Color, r: Shape, key: nat)
    requires Searched(k, key) && Ascending(InOrder(Plug(k, Bin(l, n, c, r))))
    ensures n.key < key ==> Searched(InRight(k, n, c, l), key)
    ensures n.key > key ==> Searched(InLeft(k, n, c, r), key)
  {
    hide Ascending, Plug;
    PlugInOrder(k, Bin(l, n, c, r));
    AscendingParts(Before(k), InOrder(l), n, InOrder(r), After(k));
  }

  /** Putting a node into the empty place of its key keeps the order ascending. */
  lemma {:induction false} InsertOrder(k: Around, n: Node)
    requires Searched(k, n.key) && Ascending(InOrder(Plug(k, Leaf)))
    ensures InOrder(Plug(k, Leaf)) == Before(k) + After(k)
    ensures InOrder(Plug(k, Bin(Leaf, n, Red, Leaf))) == Before(k) + [n] + After(k)
    ensures Ascending(InOrder(Plug(k, Bin(Leaf, n, Red, Leaf))))
  {
    PlugInOrder(k, Leaf);
    PlugInOrder(k, Bin(Leaf, n, Red, Leaf));
    assert InOrder(Leaf) == [] && InOrder(Bin(Leaf, n, Red, Leaf)) == [n];
    assert Before(k) + [] + After(k) == Before(k) + After(k);
    AscendingInsert(Before(k), n, After(k));
  }

  /** A search that ends in an empty place was for a new key. */
  lemma {:induction false} NewKey(k: Around, key: nat)
    requires Searched(k, key)
    ensures forall m <- InOrder(Plug(k, Leaf)) :: m.key != key
  {
    PlugInOrder(k, Leaf);
  }

  /** Replacing a part by one with the same nodes in order keeps the whole order. */
  lemma {:induction false} PlugOrder(k: Around, t: Shape, t': Shape)
    requires InOrder(t) == InOrder(t')
    ensures InOrder(Plug(k, t)) == InOrder(Plug(k, t'))
  {
    match k
    case Top =>
    case InLeft(up, n, c, r) =>
      PlugOrder(up, Bin(t, n, c, r), Bin(t', n, c, r));
    case InRight(up, n, c, l) =>
      PlugOrder(up, Bin(l, n, c, t), Bin(l, n, c, t'));
  }

  ghost function Snap(s: set<Node>): Snapshot
    reads s
  {
    map n | n in s :: Fields(n.color, n.left, n.right, n.parent)
  }

  // Field writes, as seen by a snapshot of nodes that contains the written one.

  method SetColor(n: Node, c: Color, ghost s: set<Node>)
    requires n in s
    modifies n`color
    ensures n.color == c
    ensures Snap(s) == old(Snap(s))[n := old(Snap(s))[n].(color := c)]
  {
    n.color := c;
  }

  method SetLeft(n: Node, v: Node?, ghost s: set<Node>)
    requires n in s
    modifies n`left
    ensures n.left == v
    ensures Snap(s) == old(Snap(s))[n := old(Snap(s))[n].(left := v)]
  {
    n.left := v;
  }

  method SetRight(n: Node, v: Node?, ghost s: set<Node>)
    requires n in s
    modifies n`right
    ensures n.right == v
    ensures Snap(s) == old(Snap(s))[n := old(Snap(s))[n].(right := v)]
  {
    n.right := v;
  }

  method SetParent(n: Node, v: Node?, ghost s: set<Node>)
    requires n in s
    modifies n`parent
    ensures n.parent == v
    ensures Snap(s) == old(Snap(s))[n := old(Snap(s))[n].(parent := v)]
  {
    n.parent := v;
  }

  /** Where a node can hang: the root pointer or a child field. */
  datatype Slot = AtRoot | AtLeft(p: Node) | AtRight(p: Node)

  ghost function SlotOf(k: Around): Slot {
    match k
    case Top => AtRoot
    case InLeft(_, n, _, _) => AtLeft(n)
    case InRight(_, n, _, _) => AtRight(n)
  }

  class Tree {
    var root: Node?

    /** The empty tree, over any nodes that may come into it. */
    constructor (ghost s: set<Node>)
      ensures Holds(s, Top, Leaf) && Colored(Leaf) && RedBlack(Leaf) && Ascending(InOrder(Leaf))
    {
      root := null;
      new;
      assert Rb(Leaf, Some(0));
    }

    /** The heap holds shape `t` in surroundings `k`, over nodes from `s`. */
    ghost predicate Holds(s: set<Node>, k: Around, t: Shape)
      reads this, s
    {
      Outer(k) + Nodes(t) <= s && Spells(Snap(s), root, k, t)
    }

    lemma {:induction false} LeftReads(s: set<Node>, k: Around, a: Shape, x: Node, cx: Color, b: Shape, y: Node, cy: Color, c: Shape)
      requires Holds(s, k, Bin(a, x, cx, Bin(b, y, cy, c)))
      ensures x in s && y in s && (b.Bin? ==> b.n in s) && (!k.Top? ==> k.n in s)
      ensures x.right == y && y.left == Head(b) && x.parent == Above(k)
      ensures !k.Top? ==> (k.n.left == x <==> k.InLeft?)
      ensures x != y && (b.Bin? ==> b.n != x && b.n != y) && (!k.Top? ==> k.n != x && k.n != y && (b.Bin? ==> b.n != k.n))
      ensures var h := Snap(s);
              && x in h && y in h && (b.Bin? ==> b.n in h) && (!k.Top? ==> k.n in h)
              && Spells(LeftWrites(h, k, x, b, y), if k.Top? then y else root, k, Bin(Bin(a, x, cx, b), y, cy, c))
              && Others(h, LeftWrites(h, k, x, b, y), Outer(k) + Nodes(Bin(a, x, cx, Bin(b, y, cy, c))))
      ensures Nodes(Bin(Bin(a, x, cx, b), y, cy, c)) == Nodes(Bin(a, x, cx, Bin(b, y, cy, c)))
    {
      hide Others;
      LeftWritesTurn(Snap(s), root, k, a, x, cx, b, y, cy, c);
      TurnParts(a, x, cx, b, y, cy, c);
      assert b.Bin? ==> b.n in Nodes(b);
      assert !k.Top? ==> k.n in Outer(k);
      assert Nodes(Bin(a, x, cx, Bin(b, y, cy, c))) == Nodes(a) + {x} + (Nodes(b) + {y} + Nodes(c));
      LeftWritesOthers(Snap(s), k, x, b, y, Outer(k) + Nodes(Bin(a, x, cx, Bin(b, y, cy, c))));
    }

    method RotateLeft(x: Node, ghost s: set<Node>, ghost k: Around, ghost a: Shape, ghost cx: Color, ghost b: Shape, ghost y: Node, ghost cy: Color, ghost c: Shape)
        returns (top: Node)
      requires Holds(s, k, Bin(a, x, cx, Bin(b, y, cy, c)))
      modifies this, s
      ensures top == y
      ensures Holds(s, k, Bin(Bin(a, x, cx, b), y, cy, c))
      ensures Others(old(Snap(s)), Snap(s), Outer(k) + Nodes(Bin(a, x, cx, Bin(b, y, cy, c))))
    {
      hide Spells, Outer, Nodes, Snap, Others;
      LeftReads(s, k, a, x, cx, b, y, cy, c);
      var r := x.right;
      SetRight(x, r.left, s);
      if r.left != null {
        SetParent(r.left, x, s);
      }
      SetParent(r, x.parent, s);
      if x.parent == null {
        root := r;
      } else if x == x.parent.left {
        SetLeft(x.parent, r, s);
      } else {
        SetRight(x.parent, r, s);
      }
      SetLeft(r, x, s);
      SetParent(x, r, s);
      return r;
    }

    lemma {:induction false} RightReads(s: set<Node>, k: Around, a: Shape, x: Node, cx: Color, b: Shape, y: Node, cy: Color, c: Shape)
      requires Holds(s, k, Bin(Bin(a, x, cx, b), y, cy, c))
      ensures x in s && y in s && (b.Bin? ==> b.n in s) && (!k.Top? ==> k.n in s)
      ensures y.left == x && x.right == Head(b) && y.parent == Above(k)
      ensures !k.Top? ==> (k.n.left == y <==> k.InLeft?)
      ensures x != y && (b.Bin? ==> b.n != x && b.n != y) && (!k.Top? ==> k.n != x && k.n != y && (b.Bin? ==> b.n != k.n))
      ensures var h := Snap(s);
              && x in h && y in h && (b.Bin? ==> b.n in h) && (!k.Top? ==> k.n in h)
              && Spells(RightWrites(h, k, x, b, y), if k.Top? then x else root, k, Bin(a, x, cx, Bin(b, y, cy, c)))
              && Others(h, RightWrites(h, k, x, b, y), Outer(k) + Nodes(Bin(a, x, cx, Bin(b, y, cy, c))))
      ensures Nodes(Bin(Bin(a, x, cx, b), y, cy, c)) == Nodes(Bin(a, x, cx, Bin(b, y, cy, c)))
    {
      hide Others;
      RightWritesTurn(Snap(s), root, k, a, x, cx, b, y, cy, c);
      TurnParts(a, x, cx, b, y, cy, c);
      assert b.Bin? ==> b.n in Nodes(b);
      assert !k.Top? ==> k.n in Outer(k);
      assert Nodes(Bin(Bin(a, x, cx, b), y, cy, c)) == Nodes(a) + {x} + Nodes(b) + {y} + Nodes(c);
      RightWritesOthers(Snap(s), k, x, b, y, Outer(k) + Nodes(Bin(a, x, cx, Bin(b, y, cy, c))));
    }

    method RotateRight(y: Node, ghost s: set<Node>, ghost k: Around, ghost a: Shape, ghost x: Node, ghost cx: Color, ghost b: Shape, ghost cy: Color, ghost c: Shape)
        returns (top: Node)
      requires Holds(s, k, Bin(Bin(a, x, cx, b), y, cy, c))
      modifies this, s
      ensures top == x
      ensures Holds(s, k, Bin(a, x, cx, Bin(b, y, cy, c)))
      ensures Others(old(Snap(s)), Snap(s), Outer(k) + Nodes(Bin(a, x, cx, Bin(b, y, cy, c))))
    {
      hide Spells, Outer, Nodes, Snap, Others;
      RightReads(s, k, a, x, cx, b, y, cy, c);
      var l := y.left;
      SetLeft(y, l.right, s);
      if l.right != null {
        SetParent(l.right, y, s);
      }
      SetParent(l, y.parent, s);
      if y.parent == null {
        root := l;
      } else if y == y.parent.left {
        SetLeft(y.parent, l, s);
      } else {
        SetRight(y.parent, l, s);
      }
      SetRight(l, y, s);
      SetParent(y, l, s);
      return l;
    }

    method Paint(n: Node, c': Color, ghost s: set<Node>, ghost k: Around, ghost l: Shape, ghost c: Color, ghost r: Shape)
      requires Holds(s, k, Bin(l, n, c, r))
      modifies s
      ensures Holds(s, k, Bin(l, n, c', r))
    {
      Painted(Snap(s), root, k, l, n, c, r, c');
      assert n in Nodes(Bin(l, n, c, r)) && Nodes(Bin(l, n, c, r)) == Nodes(Bin(l, n, c', r));
      hide Spells, Outer, Nodes, Snap;
      SetColor(n, c', s);
    }

    lemma {:induction false} Refocus(s: set<Node>, k: Around, l: Shape, n: Node, c: Color, r: Shape)
      ensures Holds(s, k, Bin(l, n, c, r)) <==> Holds(s, InLeft(k, n, c, r), l)
      ensures Holds(s, k, Bin(l, n, c, r)) <==> Holds(s, InRight(k, n, c, l), r)
    {
      Focus(Snap(s), root, k, l, n, c, r);
    }

    /** The fields of a node whose place is known. */
    lemma {:induction false} Reads(s: set<Node>, k: Around, l: Shape, n: Node, c: Color, r: Shape)
      requires Holds(s, k, Bin(l, n, c, r))
      ensures n in s && n.color == c && n.left == Head(l) && n.right == Head(r) && n.parent == Above(k)
      ensures l.Bin? && r.Bin? ==> l.n != r.n
      ensures l.Bin? ==> l.n in s && l.n.color == l.c
      ensures r.Bin? ==> r.n in s && r.n.color == r.c
    {
      assert Links(Snap(s), l, n) && Links(Snap(s), r, n);
      assert Snap(s)[n] == Fields(n.color, n.left, n.right, n.parent);
      assert l.Bin? ==> l.n in Nodes(l) && Snap(s)[l.n].color == l.n.color;
      assert r.Bin? ==> r.n in Nodes(r) && Snap(s)[r.n].color == r.n.color;
    }

    /** The recolouring step of the fix-up, at the grandparent `g`. */
    method Recolor(p: Node, u: Node, g: Node, ghost s: set<Node>, ghost k: Around, ghost pl: Shape, ghost pr: Shape, ghost ul: Shape, ghost ur: Shape)
      requires Holds(s, k, Bin(Bin(pl, p, Red, pr), g, Black, Bin(ul, u, Red, ur)))
      modifies s
      ensures Holds(s, k, Bin(Bin(pl, p, Black, pr), g, Red, Bin(ul, u, Black, ur)))
    {
      hide Holds, Spells;
      Refocus(s, k, Bin(pl, p, Red, pr), g, Black, Bin(ul, u, Red, ur));
      Paint(p, Black, s, InLeft(k, g, Black, Bin(ul, u, Red, ur)), pl, Red, pr);
      Refocus(s, k, Bin(pl, p, Black, pr), g, Black, Bin(ul, u, Red, ur));
      Paint(u, Black, s, InRight(k, g, Black, Bin(pl, p, Black, pr)), ul, Red, ur);
      Refocus(s, k, Bin(pl, p, Black, pr), g, Black, Bin(ul, u, Black, ur));
      Paint(g, Red, s, k, Bin(pl, p, Black, pr), Black, Bin(ul, u, Black, ur));
    }

    /** One round of the fix-up when the red parent is a left child. */
    method FixLeft(z: Node, ghost s: set<Node>, ghost k: Around, ghost l: Shape, ghost r: Shape, ghost h: Level)
        returns (z': Node, ghost k': Around, ghost l': Shape, ghost r': Shape, ghost h': Level)
      requires Holds(s, k, Bin(l, z, Red, r)) && Fixing(k, l, r, h)
      requires ClashLeft(k)
      modifies this, s
      ensures Holds(s, k', Bin(l', z', Red, r')) && Fixing(k', l', r', h') && h'.Some? == h.Some?
      ensures Depth(k') < Depth(k)
      ensures InOrder(Plug(k', Bin(l', z', Red, r'))) == InOrder(Plug(k, Bin(l, z, Red, r)))
    {
      hide Holds, Spells, Plug, InOrder;
      ghost var kg, ut, zt := k.up.up, k.up.r, Bin(l, z, Red, r);
      ghost var pl, pr := if k.InLeft? then zt else k.l, if k.InLeft? then k.r else zt;
      Refocus(s, k.up, pl, k.n, Red, pr);
      Refocus(s, kg, Bin(pl, k.n, Red, pr), k.up.n, Black, ut);
      Reads(s, k, l, z, Red, r);
      Reads(s, k.up, pl, k.n, Red, pr);
      Reads(s, kg, Bin(pl, k.n, Red, pr), k.up.n, Black, ut);
      var p := z.parent;
      var g := p.parent;
      var u := g.right;
      if u != null && u.color == Red {
        RecolorLeft(k, l, z, r, h);
        Recolor(p, u, g, s, kg, pl, pr, ut.l, ut.r);
        z', k', l', r', h' := g, kg, Bin(pl, p, Black, pr), Bin(ut.l, u, Black, ut.r), Raise(h, Black);
      } else {
        TurnLeft(k, l, r, h);
        TurnLeftOrder(k, l, z, r);
        ghost var sib := pr;
        z', l', r' := z, l, r;
        if z == p.right {
          z' := p;
          var _ := RotateLeft(p, s, k.up, k.l, Red, l, z, Red, r);
          l', r', sib := k.l, l, r;
          Refocus(s, kg, Bin(Bin(l', z', Red, r'), z, Red, sib), g, Black, ut);
          Refocus(s, k.up, Bin(l', z', Red, r'), z, Red, sib);
          Reads(s, k.up, Bin(l', z', Red, r'), z, Red, sib);
          Reads(s, InLeft(k.up, z, Red, sib), l', z', Red, r');
          p := z'.parent;
          g := p.parent;
        }
        Paint(p, Black, s, k.up, Bin(l', z', Red, r'), Red, sib);
        Refocus(s, kg, Bin(Bin(l', z', Red, r'), p, Black, sib), g, Black, ut);
        Paint(g, Red, s, kg, Bin(Bin(l', z', Red, r'), p, Black, sib), Black, ut);
        var _ := RotateRight(g, s, kg, Bin(l', z', Red, r'), p, Black, sib, Red, ut);
        Refocus(s, kg, Bin(l', z', Red, r'), p, Black, Bin(sib, g, Red, ut));
        k', h' := InLeft(kg, p, Black, Bin(sib, g, Red, ut)), h;
      }
    }

    /** One round of the fix-up when the red parent is a right child. */
    method FixRight(z: Node, ghost s: set<Node>, ghost k: Around, ghost l: Shape, ghost r: Shape, ghost h: Level)
        returns (z': Node, ghost k': Around, ghost l': Shape, ghost r': Shape, ghost h': Level)
      requires Holds(s, k, Bin(l, z, Red, r)) && Fixing(k, l, r, h) && ClashRight(k)
      modifies this, s
      ensures Holds(s, k', Bin(l', z', Red, r')) && Fixing(k', l', r', h') && h'.Some? == h.Some?
      ensures Depth(k') < Depth(k)
      ensures InOrder(Plug(k', Bin(l', z', Red, r'))) == InOrder(Plug(k, Bin(l, z, Red, r)))
    {
      hide Holds, Spells, Plug, InOrder;
      ghost var kg, ut, zt := k.up.up, k.up.l, Bin(l, z, Red, r);
      ghost var pl, pr := if k.InLeft? then zt else k.l, if k.InLeft? then k.r else zt;
      Refocus(s, k.up, pl, k.n, Red, pr);
      Refocus(s, kg, ut, k.up.n, Black, Bin(pl, k.n, Red, pr));
      Reads(s, k, l, z, Red, r);
      Reads(s, k.up, pl, k.n, Red, pr);
      Reads(s, kg, ut, k.up.n, Black, Bin(pl, k.n, Red, pr));
      var p := z.parent;
      var g := p.parent;
      var u := g.left;
      if u != null && u.color == Red {
        RecolorRight(k, l, z, r, h);
        Recolor(u, p, g, s, kg, ut.l, ut.r, pl, pr);
        z', k', l', r', h' := g, kg, Bin(ut.l, u, Black, ut.r), Bin(pl, p, Black, pr), Raise(h, Black);
      } else {
        TurnRight(k, l, r, h);
        TurnRightOrder(k, l, z, r);
        ghost var sib := pl;
        z', l', r' := z, l, r;
        if z == p.left {
          z' := p;
          var _ := RotateRight(p, s, k.up, l, z, Red, r, Red, k.r);
          l', r', sib := r, k.r, l;
          Refocus(s, kg, ut, g, Black, Bin(sib, z, Red, Bin(l', z', Red, r')));
          Refocus(s, k.up, sib, z, Red, Bin(l', z', Red, r'));
          Reads(s, k.up, sib, z, Red, Bin(l', z', Red, r'));
          Reads(s, InRight(k.up, z, Red, sib), l', z', Red, r');
          p := z'.parent;
          g := p.parent;
        }
        Paint(p, Black, s, k.up, sib, Red, Bin(l', z', Red, r'));
        Refocus(s, kg, ut, g, Black, Bin(sib, p, Black, Bin(l', z', Red, r')));
        Paint(g, Red, s, kg, ut, Black, Bin(sib, p, Black, Bin(l', z', Red, r')));
        var _ := RotateLeft(g, s, kg, ut, Red, sib, p, Black, Bin(l', z', Red, r'));
        Refocus(s, kg, Bin(ut, g, Red, sib), p, Black, Bin(l', z', Red, r'));
        k', h' := InRight(kg, p, Black, Bin(ut, g, Red, sib)), h;
      }
    }

    /** The shape as seen from the root. */
    lemma {:induction false} FromRoot(s: set<Node>, k: Around, t: Shape)
      requires Holds(s, k, t)
      ensures Holds(s, Top, Plug(k, t))
      ensures root == Head(Plug(k, t))
      ensures !k.Top? && t.Bin? ==> root != t.n
      ensures k.Top? ==> root == Head(t)
    {
      FocusTop(Snap(s), root, k, t);
      OuterHas(Snap(s), root, k, Head(t));
    }

    /** `fixup`: starting from a tree in which only the red node `z` may clash with its
        parent, restores the rules over the same nodes in the same order. */
    method Fixup(z0: Node, ghost s: set<Node>, ghost k0: Around, ghost l0: Shape, ghost r0: Shape, ghost h0: Level) returns (ghost t: Shape)
      requires Holds(s, k0, Bin(l0, z0, Red, r0)) && Fixing(k0, l0, r0, h0)
      modifies this, s
      ensures Holds(s, Top, t) && Ruled(t, h0.Some?)
      ensures InOrder(t) == InOrder(Plug(k0, Bin(l0, z0, Red, r0)))
    {
      hide Holds, Spells, InOrder, Rb, RbOuter;
      var z := z0;
      ghost var k, l, r, h := k0, l0, r0, h0;
      FromRoot(s, k, Bin(l, z, Red, r));
      Reads(s, k, l, z, Red, r);
      AboveReads(s, k, Bin(l, z, Red, r));
      while z != root && z.parent != null && z.parent.color == Red
        invariant Holds(s, k, Bin(l, z, Red, r)) && Fixing(k, l, r, h) && h.Some? == h0.Some?
        invariant InOrder(Plug(k, Bin(l, z, Red, r))) == InOrder(Plug(k0, Bin(l0, z0, Red, r0)))
        invariant z in s && z.parent == Above(k) && (z == root <==> k.Top?)
        invariant !k.Top? ==> k.n in s && k.n.color == k.c && k.n.parent == Above(k.up)
        invariant !k.Top? && !k.up.Top? ==> k.up.n in s && (k.n == k.up.n.left <==> k.up.InLeft?)
        decreases Depth(k)
      {
        RedHasParent(k, l, r, h);
        if z.parent == z.parent.parent.left {
          z, k, l, r, h := FixLeft(z, s, k, l, r, h);
        } else {
          z, k, l, r, h := FixRight(z, s, k, l, r, h);
        }
        FromRoot(s, k, Bin(l, z, Red, r));
        Reads(s, k, l, z, Red, r);
        AboveReads(s, k, Bin(l, z, Red, r));
      }
      FromRoot(s, k, Bin(l, z, Red, r));
      FixedRb(k, l, z, r, h);
      t := Plug(k, Bin(l, z, Red, r));
      Paint(root, Black, s, Top, t.l, t.c, t.r);
      SameOrder(t);
      t := Bin(t.l, t.n, Black, t.r);
    }

    lemma {:induction false} AboveReads(s: set<Node>, k: Around, t: Shape)
      requires Holds(s, k, t)
      ensures !k.Top? ==> k.n in s && k.n.color == k.c && k.n.parent == Above(k.up)
      ensures !k.Top? && !k.up.Top? ==> k.up.n in s && (k.n == k.up.n.left <==> k.up.InLeft?)
    {
      if !k.Top? {
        var pl, pr := if k.InLeft? then t else k.l, if k.InLeft? then k.r else t;
        Refocus(s, k.up, pl, k.n, k.c, pr);
        Reads(s, k.up, pl, k.n, k.c, pr);
        if !k.up.Top? {
          var p := Bin(pl, k.n, k.c, pr);
          var gl, gr := if k.up.InLeft? then p else k.up.l, if k.up.InLeft? then k.up.r else p;
          Refocus(s, k.up.up, gl, k.up.n, k.up.c, gr);
          Reads(s, k.up.up, gl, k.up.n, k.up.c, gr);
        }
      }
    }

    /** The pointer a slot stands for: `&t->root`, or a child field of a node. */
    function Deref(slot: Slot): Node?
      reads this, if slot.AtRoot? then {} else {slot.p}
    {
      match slot
      case AtRoot => root
      case AtLeft(p) => p.left
      case AtRight(p) => p.right
    }

    method Assign(slot: Slot, v: Node, ghost s: set<Node>, ghost k: Around)
      requires slot == SlotOf(k) && (!k.Top? ==> k.n in s)
      modifies this, s
      ensures root == if k.Top? then v else old(root)
      ensures !k.Top? ==> k.n in old(Snap(s))
      ensures Snap(s) == Hang(old(Snap(s)), k, v)
    {
      match slot
      case AtRoot => root := v;
      case AtLeft(p) => SetLeft(p, v, s);
      case AtRight(p) => SetRight(p, v, s);
    }

    lemma {:induction false} SlotReads(s: set<Node>, k: Around, t: Shape)
      requires Holds(s, k, t)
      ensures Deref(SlotOf(k)) == Head(t)
      ensures !k.Top? ==> k.n in s && k.n in Snap(s)
      ensures t.Bin? ==> t.n in s && Snap(s)[t.n] == Fields(t.n.color, t.n.left, t.n.right, t.n.parent)
    {
      assert !k.Top? ==> k.n in Outer(k) && Snap(s)[k.n] == Fields(k.n.color, k.n.left, k.n.right, k.n.parent);
    }

    lemma {:induction false} LinkReads(s: set<Node>, k: Around, n: Node)
      requires Holds(s, k, Leaf) && n in s && n !in Outer(k)
      ensures Outer(k) + Nodes(Bin(Leaf, n, Red, Leaf)) <= s && (!k.Top? ==> k.n in s)
      ensures var h := Snap(s);
              && n in h && (!k.Top? ==> k.n in h)
              && FourWrites(h, n, Fields(Red, null, null, Above(k))) == h[n := Fields(Red, null, null, Above(k))]
              && Spells(LinkWrites(h, k, n), if k.Top? then n else root, k, Bin(Leaf, n, Red, Leaf))
    {
      LinksNew(Snap(s), root, k, n);
      SlotReads(s, k, Leaf);
      FourWritesAtOnce(Snap(s), n, Fields(Red, null, null, Above(k)));
      assert Nodes(Bin(Leaf, n, Red, Leaf)) == {n};
    }

    /** `rbtree_link` at an empty place: the new node hangs there, red. */
    method LinkEmpty(n: Node, slot: Slot, p: Node?, ghost s: set<Node>, ghost k: Around)
      requires Holds(s, k, Leaf) && n in s && n !in Outer(k) && slot == SlotOf(k) && p == Above(k)
      modifies this, s
      ensures Holds(s, k, Bin(Leaf, n, Red, Leaf))
    {
      hide Spells, Outer, Nodes, Snap;
      LinkReads(s, k, n);
      SetColor(n, Red, s);
      SetLeft(n, null, s);
      SetRight(n, null, s);
      SetParent(n, p, s);
      Assign(slot, n, s, k);
    }

    lemma {:induction false} ReplaceReads(s: set<Node>, k: Around, l: Shape, o: Node, c: Color, r: Shape, n: Node)
      requires Holds(s, k, Bin(l, o, c, r)) && n in s && n !in Outer(k) && n !in Nodes(Bin(l, o, c, r))
      ensures Outer(k) + Nodes(Bin(l, n, c, r)) <= s
      ensures o in s && (!k.Top? ==> k.n in s) && (l.Bin? ==> l.n in s) && (r.Bin? ==> r.n in s)
      ensures Deref(SlotOf(k)) == o && o.color == c && o.left == Head(l) && o.right == Head(r) && o.parent == Above(k)
      ensures o != n
      ensures var h := Snap(s);
              && n in h && o in h && (!k.Top? ==> k.n in h) && (l.Bin? ==> l.n in h) && (r.Bin? ==> r.n in h)
              && h[o] == Fields(c, Head(l), Head(r), Above(k))
              && FourWrites(h, n, h[o]) == h[n := h[o]]
              && Spells(ReplaceWrites(h, k, l, o, r, n), if k.Top? then n else root, k, Bin(l, n, c, r))
    {
      Replaces(Snap(s), root, k, l, o, c, r, n);
      SlotReads(s, k, Bin(l, o, c, r));
      FourWritesAtOnce(Snap(s), n, Snap(s)[o]);
      assert Nodes(Bin(l, n, c, r)) == Nodes(l) + {n} + Nodes(r) && Nodes(l) + Nodes(r) <= s;
    }

    /** `rbtree_link` at an occupied place: the new node takes over colour, children
        and parent of the old one. */
    method Replace(n: Node, slot: Slot, ghost s: set<Node>, ghost k: Around, ghost l: Shape, ghost o: Node, ghost c: Color, ghost r: Shape)
      requires Holds(s, k, Bin(l, o, c, r)) && n in s && n !in Outer(k) && n !in Nodes(Bin(l, o, c, r)) && slot == SlotOf(k)
      modifies this, s
      ensures Holds(s, k, Bin(l, n, c, r))
    {
      hide Spells, Outer, Nodes, Snap;
      ReplaceReads(s, k, l, o, c, r, n);
      var old_ := Deref(slot);
      SetColor(n, old_.color, s);
      SetLeft(n, old_.left, s);
      SetRight(n, old_.right, s);
      SetParent(n, old_.parent, s);
      if old_.left != null {
        SetParent(old_.left, n, s);
      }
      if old_.right != null {
        SetParent(old_.right, n, s);
      }
      Assign(slot, n, s, k);
    }

    /** `rbtree_link`: the new node hangs red in an empty place, or takes over the
        place of the node already there. */
    method Link(n: Node, slot: Slot, p: Node?, ghost s: set<Node>, ghost k: Around, ghost t: Shape)
      requires Holds(s, k, t) && n in s && n !in Outer(k) && n !in Nodes(t) && slot == SlotOf(k) && p == Above(k)
      modifies this, s
      ensures Holds(s, k, if t.Leaf? then Bin(Leaf, n, Red, Leaf) else Bin(t.l, n, t.c, t.r))
    {
      SlotReads(s, k, t);
      hide Spells, Snap;
      if Deref(slot) != null {
        Replace(n, slot, s, k, t.l, t.n, t.c, t.r);
      } else {
        LinkEmpty(n, slot, p, s, k);
      }
    }

    /** Inserting a node, as the callers of `rbtree_link` do: search for its empty place,
        link it there, and fix the tree up. The search does not move on at an equal key, so
        it ends if and only if the key is new. Then the result holds the old
        nodes and the new one in key order and obeys the rules on colours, and it is a
        red-black tree if the old one was, which it need not be after a deletion. */
    method Insert(n: Node, ghost s: set<Node>, ghost t: Shape) returns (endless: bool, ghost t': Shape)
      requires Holds(s, Top, t) && Colored(t) && Ascending(InOrder(t))
      requires n in s && n !in Nodes(t)
      modifies this, s
      ensures endless <==> exists m <- InOrder(t) :: m.key == n.key
      ensures Holds(s, Top, t') && Colored(t') && Ascending(InOrder(t'))
      ensures RedBlack(t) ==> RedBlack(t')
      ensures endless ==> t' == t
      ensures !endless ==> exists a, b :: InOrder(t) == a + b && InOrder(t') == a + [n] + b
    {
      hide Spells, Snap, RedBlack, Colored, Ascending, Searched, Outer;
      ghost var k, here := Top, t;
      var p: Node?, slot := null, AtRoot;
      PlaceStarts(s, t, n);
      var cur := root;
      while cur != null
        invariant Holds(s, k, here) && Plug(k, here) == t && cur == Head(here)
        invariant p == Above(k) && slot == SlotOf(k)
        invariant Searched(k, n.key)
        invariant n !in Outer(k) && n !in Nodes(here)
        decreases here
      {
        p := cur;
        Reads(s, k, here.l, here.n, here.c, here.r);
        PlaceStep(s, k, here, n, t);
        if cur.key < n.key {
          slot := AtRight(cur);
          k, here := InRight(k, here.n, here.c, here.l), here.r;
          cur := cur.right;
        } else if cur.key > n.key {
          slot := AtLeft(cur);
          k, here := InLeft(k, here.n, here.c, here.r), here.l;
          cur := cur.left;
        } else {
          FromRoot(s, k, here);
          return true, t;
        }
      }
      endless := false;
      NewKey(k, n.key);
      Link(n, slot, p, s, k, here);
      ghost var h := UnplugRb(k, Leaf, RedBlack(t));
      EmptyFixing(k, h);
      t' := Fixup(n, s, k, Leaf, Leaf, h);
      RuledColored(t', h.Some?);
      InsertOrder(k, n);
    }

    lemma {:induction false} PlaceStarts(s: set<Node>, t: Shape, n: Node)
      requires Holds(s, Top, t)
      ensures root == Head(t) && Searched(Top, n.key) && n !in Outer(Top)
    {
    }

    /** One step of the search keeps the place right. */
    lemma {:induction false} PlaceStep(s: set<Node>, k: Around, here: Shape, n: Node, t: Shape)
      requires Holds(s, k, here) && here.Bin? && Plug(k, here) == t && Ascending(InOrder(t)) && Searched(k, n.key)
      requires n !in Outer(k) && n !in Nodes(here)
      ensures here.n in InOrder(t)
      ensures var kr := InRight(k, here.n, here.c, here.l);
              && Holds(s, kr, here.r) && Plug(kr, here.r) == t && n !in Outer(kr) && n !in Nodes(here.r)
              && (here.n.key < n.key ==> Searched(kr, n.key))
      ensures var kl := InLeft(k, here.n, here.c, here.r);
              && Holds(s, kl, here.l) && Plug(kl, here.l) == t && n !in Outer(kl) && n !in Nodes(here.l)
              && (here.n.key > n.key ==> Searched(kl, n.key))
    {
      Refocus(s, k, here.l, here.n, here.c, here.r);
      SearchDown(k, here.l, here.n, here.c, here.r, n.key);
      PlugInOrder(k, here);
      assert here.n in InOrder(here);
      assert here.n in InOrder(t);
    }
  }
}
