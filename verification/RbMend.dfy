/**
 * The fix-up after a removal from the red-black tree of `RbTree`: what it does to trees whose
 * paths need not cross equally many black nodes, and exactly when it finds no sibling.
 */
module RbMend {
  import opened Basics
  import opened RbTree

  /** The state of the fix-up: everything obeys the rules on colours once the node that heads `t`
      is black. */
  ghost predicate Mending(k: Around, t: Shape) {
    t.Bin? && RbOuter(k, None) && Rb(Blacken(t), None)
  }

  ghost function Sibling(k: Around): Shape
    requires !k.Top?
  {
    if k.InLeft? then k.r else k.l
  }

  /** The sibling's child on the side of the place itself. */
  ghost function Near(k: Around): Shape
    requires !k.Top? && Sibling(k).Bin?
  {
    if k.InLeft? then k.r.l else k.l.r
  }

  /** A round for a black node at `k` finds no sibling, at once or under a red one. */
  ghost predicate NoSibling(k: Around)
    requires !k.Top?
  {
    Sibling(k).Leaf? || (IsRed(Sibling(k)) && Near(k).Leaf?)
  }

  ghost predicate BlackNephews(k: Around)
    requires !k.Top? && Sibling(k).Bin?
  {
    !IsRed(Sibling(k).l) && !IsRed(Sibling(k).r)
  }

  /** Some round of the fix-up of a black node at `k` finds no sibling: the rounds go up as long as
      parent, sibling and nephews are black. */
  ghost predicate Stuck(k: Around) {
    !k.Top? &&
    (NoSibling(k) || (Sibling(k).c.Black? && BlackNephews(k) && k.c.Black? && Stuck(k.up)))
  }

  ghost predicate Falls(k: Around, t: Shape) {
    t.Bin? && t.c.Black? && Stuck(k)
  }

  /** Bounds the rounds that are left. */
  ghost function Rank(k: Around, t: Shape): nat {
    if k.Top? || IsRed(t) then 0 else 1 + Depth(k)
  }

  /** The tree is still one, in the same order, and the node to go on with is known. */
  ghost predicate Goes(t: Tree, s: set<Node>, k: Around, xs: Shape, x: Node, k': Around, xs': Shape)
    reads t, s
  {
    t.Holds(s, k', xs') && Mending(k', xs') && x == xs'.n && InOrder(Plug(k', xs')) == InOrder(Plug(k, xs))
  }

  /** What a round with a black sibling does. */
  ghost predicate Mended(k: Around, k': Around, xs': Shape)
    requires !k.Top? && Sibling(k).Bin?
  {
    if BlackNephews(k) then k' == k.up && xs'.Bin? && xs'.c == k.c else k'.Top?
  }

  /** What every round does. */
  ghost predicate Rounded(k: Around, xs: Shape, k': Around, xs': Shape) {
    Rank(k', xs') < Rank(k, xs) && (Falls(k', xs') <==> Falls(k, xs))
  }

  lemma {:induction false} RoundedFrom(k: Around, k1: Around, xs: Shape, k': Around, xs': Shape)
    requires !k.Top? && !k1.Top? && xs.Bin? && xs.c.Black? && !NoSibling(k) && Sibling(k1).Bin? && Mended(k1, k', xs')
    requires if IsRed(Sibling(k)) then k1.c.Red? else k1 == k
    ensures Rounded(k, xs, k', xs')
  {
  }

  // ----- a round when the node is a left child

  /** The place after a red sibling has been turned above the parent. */
  ghost function LoweredLeft(k: Around): Around
    requires k.InLeft? && k.r.Bin?
  {
    InLeft(InLeft(k.up, k.r.n, Black, k.r.r), k.n, Red, k.r.l)
  }

  lemma {:induction false} RedSiblingLeft(k: Around, t: Shape)
    requires Mending(k, t) && k.InLeft? && IsRed(k.r)
    ensures Mending(LoweredLeft(k), t) && !IsRed(k.r.l)
    ensures InOrder(Plug(LoweredLeft(k), t)) == InOrder(Plug(k, t))
  {
    var p, w := k.n, k.r;
    TurnParts(t, p, Red, w.l, w.n, Black, w.r);
    PlugOrder(k.up, Bin(t, p, k.c, w), Bin(Bin(t, p, Red, w.l), w.n, Black, w.r));
  }

  lemma {:induction false} BlackNephewsLeft(k: Around, t: Shape)
    requires Mending(k, t) && k.InLeft? && t.c.Black? && k.r.Bin? && !IsRed(k.r.l) && !IsRed(k.r.r)
    ensures var t' := Bin(t, k.n, k.c, Bin(k.r.l, k.r.n, Red, k.r.r));
      Mending(k.up, t') && InOrder(Plug(k.up, t')) == InOrder(Plug(k, t))
  {
    var w := k.r;
    PlugOrder(k.up, Bin(t, k.n, k.c, w), Bin(t, k.n, k.c, Bin(w.l, w.n, Red, w.r)));
  }

  /** The place after a red near nephew has been turned above the sibling. */
  ghost function TuckedLeft(k: Around): Around
    requires k.InLeft? && k.r.Bin? && k.r.l.Bin?
  {
    InLeft(k.up, k.n, k.c, Bin(k.r.l.l, k.r.l.n, Black, Bin(k.r.l.r, k.r.n, Red, k.r.r)))
  }

  lemma {:induction false} NearNephewLeft(k: Around, t: Shape)
    requires Mending(k, t) && k.InLeft? && k.r.Bin? && IsRed(k.r.l) && !IsRed(k.r.r)
    ensures Mending(TuckedLeft(k), t)
    ensures InOrder(Plug(TuckedLeft(k), t)) == InOrder(Plug(k, t))
  {
    var w, m := k.r, k.r.l;
    var w' := Bin(m.l, m.n, Black, Bin(m.r, w.n, Red, w.r));
    assert Rb(m, None) && Rb(Bin(m.r, w.n, Red, w.r), None);
    assert InOrder(Blacken(m)) == InOrder(m);
    TurnParts(m.l, m.n, Black, m.r, w.n, Red, w.r);
    PlugOrder(k.up, Bin(t, k.n, k.c, w), Bin(t, k.n, k.c, w'));
  }

  /** What stands at the parent's place after the sibling has been turned above the parent. */
  ghost function BorrowedLeft(k: Around, t: Shape): Shape
    requires k.InLeft? && k.r.Bin?
  {
    Bin(Bin(t, k.n, Black, k.r.l), k.r.n, k.c, Blacken(k.r.r))
  }

  lemma {:induction false} FarNephewLeft(k: Around, t: Shape)
    requires Mending(k, t) && k.InLeft? && t.c.Black? && k.r.Bin? && IsRed(k.r.r)
    ensures var all := Plug(k.up, BorrowedLeft(k, t)); Mending(Top, all) && InOrder(all) == InOrder(Plug(k, t))
  {
    var w, t' := k.r, BorrowedLeft(k, t);
    assert Rb(w.r, None) && Rb(Blacken(w.r), None) && Rb(Bin(t, k.n, Black, w.l), None);
    assert InOrder(Blacken(w.r)) == InOrder(w.r);
    PlugBin(k.up, t');
    if !k.up.Top? {
      PlugRb(k.up, t', None);
    }
    TurnParts(t, k.n, Black, w.l, w.n, k.c, Blacken(w.r));
    PlugOrder(k.up, Bin(t, k.n, k.c, w), t');
  }

  method LowerLeft(t: Tree, p: Node, w: Node, ghost s: set<Node>, ghost k: Around, ghost xs: Shape)
    requires t.Holds(s, k, xs) && k.InLeft? && k.r.Bin? && p == k.n && w == k.r.n
    modifies t, s
    ensures t.Holds(s, LoweredLeft(k), xs)
  {
    hide t.Holds;
    ghost var wl, wr := k.r.l, k.r.r;
    t.Refocus(s, k.up, xs, p, k.c, k.r);
    t.Paint(w, Black, s, InRight(k.up, p, k.c, xs), wl, k.r.c, wr);
    t.Refocus(s, k.up, xs, p, k.c, Bin(wl, w, Black, wr));
    t.Paint(p, Red, s, k.up, xs, k.c, Bin(wl, w, Black, wr));
    var _ := t.RotateLeft(p, s, k.up, xs, Red, wl, w, Black, wr);
    t.Refocus(s, k.up, Bin(xs, p, Red, wl), w, Black, wr);
    t.Refocus(s, InLeft(k.up, w, Black, wr), xs, p, Red, wl);
  }

  method TuckLeft(t: Tree, p: Node, w: Node, m: Node, ghost s: set<Node>, ghost k: Around, ghost xs: Shape)
    requires t.Holds(s, k, xs) && k.InLeft? && k.r.Bin? && k.r.l.Bin? && p == k.n && w == k.r.n && m == k.r.l.n
    modifies t, s
    ensures t.Holds(s, TuckedLeft(k), xs)
  {
    hide t.Holds;
    ghost var a, b, wr, kw := k.r.l.l, k.r.l.r, k.r.r, InRight(k.up, p, k.c, xs);
    t.Refocus(s, k.up, xs, p, k.c, k.r);
    t.Refocus(s, kw, k.r.l, w, k.r.c, wr);
    t.Paint(m, Black, s, InLeft(kw, w, k.r.c, wr), a, k.r.l.c, b);
    t.Refocus(s, kw, Bin(a, m, Black, b), w, k.r.c, wr);
    t.Paint(w, Red, s, kw, Bin(a, m, Black, b), k.r.c, wr);
    var _ := t.RotateRight(w, s, kw, a, m, Black, b, Red, wr);
    t.Refocus(s, k.up, xs, p, k.c, Bin(a, m, Black, Bin(b, w, Red, wr)));
  }

  method BorrowLeft(t: Tree, p: Node, w: Node, f: Node, ghost s: set<Node>, ghost k: Around, ghost xs: Shape)
    requires t.Holds(s, k, xs) && k.InLeft? && k.r.Bin? && k.r.r.Bin? && p == k.n && w == k.r.n && f == k.r.r.n
    modifies t, s
    ensures t.Holds(s, k.up, BorrowedLeft(k, xs))
  {
    hide t.Holds;
    ghost var wl, wr := k.r.l, k.r.r;
    t.Refocus(s, k.up, xs, p, k.c, k.r);
    t.Reads(s, k.up, xs, p, k.c, k.r);
    t.Paint(w, p.color, s, InRight(k.up, p, k.c, xs), wl, k.r.c, wr);
    t.Refocus(s, k.up, xs, p, k.c, Bin(wl, w, k.c, wr));
    t.Paint(p, Black, s, k.up, xs, k.c, Bin(wl, w, k.c, wr));
    t.Refocus(s, k.up, xs, p, Black, Bin(wl, w, k.c, wr));
    ghost var kw := InRight(k.up, p, Black, xs);
    t.Refocus(s, kw, wl, w, k.c, wr);
    t.Paint(f, Black, s, InRight(kw, w, k.c, wl), wr.l, wr.c, wr.r);
    t.Refocus(s, kw, wl, w, k.c, Blacken(wr));
    t.Refocus(s, k.up, xs, p, Black, Bin(wl, w, k.c, Blacken(wr)));
    var _ := t.RotateLeft(p, s, k.up, xs, Black, wl, w, k.c, Blacken(wr));
  }

  /** The rest of a round, with a black sibling `w`. */
  method MendLeft(t: Tree, p: Node, w0: Node, ghost s: set<Node>, ghost k: Around, ghost xs: Shape)
      returns (x: Node, ghost k': Around, ghost xs': Shape)
    requires t.Holds(s, k, xs) && Mending(k, xs) && xs.c.Black? && k.InLeft? && p == k.n
    requires k.r.Bin? && k.r.c.Black? && w0 == k.r.n
    modifies t, s
    ensures Goes(t, s, k, xs, x, k', xs') && Mended(k, k', xs')
  {
    hide t.Holds, Spells, RbOuter, Rb, InOrder;
    var w := w0;
    ghost var kw := InRight(k.up, p, k.c, xs);
    t.Refocus(s, k.up, xs, p, k.c, k.r);
    t.Reads(s, kw, k.r.l, w, k.r.c, k.r.r);
    if (w.left == null || w.left.color == Black) && (w.right == null || w.right.color == Black) {
      BlackNephewsLeft(k, xs);
      t.Paint(w, Red, s, kw, k.r.l, k.r.c, k.r.r);
      x, k', xs' := p, k.up, Bin(xs, k.n, k.c, Bin(k.r.l, k.r.n, Red, k.r.r));
      t.Refocus(s, k.up, xs, p, k.c, xs'.r);
    } else {
      ghost var k1 := k;
      if w.right == null || w.right.color == Black {
        NearNephewLeft(k, xs);
        TuckLeft(t, p, w, w.left, s, k, xs);
        k1 := TuckedLeft(k);
        t.Refocus(s, k.up, xs, p, k.c, k1.r);
        t.Reads(s, k.up, xs, p, k.c, k1.r);
        w := p.right;
        t.Reads(s, kw, k1.r.l, w, k1.r.c, k1.r.r);
      }
      FarNephewLeft(k1, xs);
      BorrowLeft(t, p, w, w.right, s, k1, xs);
      k', xs' := Top, Plug(k1.up, BorrowedLeft(k1, xs));
      t.FromRoot(s, k1.up, BorrowedLeft(k1, xs));
      x := t.root;
    }
  }

  /** One round; it fails when there is no sibling, or none under a red one. */
  method RoundLeft(t: Tree, x: Node, ghost s: set<Node>, ghost k: Around, ghost xs: Shape)
      returns (fault: bool, x': Node, ghost k': Around, ghost xs': Shape)
    requires t.Holds(s, k, xs) && Mending(k, xs) && x == xs.n && xs.c.Black? && k.InLeft?
    modifies t, s
    ensures fault <==> NoSibling(k)
    ensures !fault ==> Goes(t, s, k, xs, x', k', xs') && Rounded(k, xs, k', xs')
  {
    hide t.Holds, Spells, InOrder, Plug;
    t.Reads(s, k, xs.l, xs.n, xs.c, xs.r);
    t.Refocus(s, k.up, xs, k.n, k.c, k.r);
    t.Reads(s, k.up, xs, k.n, k.c, k.r);
    var p := x.parent;
    var w := p.right;
    x', k', xs' := x, k, xs;
    ghost var k1 := k;
    if w != null && w.color == Red {
      RedSiblingLeft(k, xs);
      LowerLeft(t, p, w, s, k, xs);
      k1 := LoweredLeft(k);
      t.Refocus(s, k1.up, xs, p, k1.c, k1.r);
      t.Reads(s, k1.up, xs, p, k1.c, k1.r);
      w := p.right;
    }
    fault := w == null;
    if !fault {
      x', k', xs' := MendLeft(t, p, w, s, k1, xs);
      RoundedFrom(k, k1, xs, k', xs');
    }
  }

  // ----- the same when the node is a right child

  ghost function LoweredRight(k: Around): Around
    requires k.InRight? && k.l.Bin?
  {
    InRight(InRight(k.up, k.l.n, Black, k.l.l), k.n, Red, k.l.r)
  }

  lemma {:induction false} RedSiblingRight(k: Around, t: Shape)
    requires Mending(k, t) && k.InRight? && IsRed(k.l)
    ensures Mending(LoweredRight(k), t) && !IsRed(k.l.r)
    ensures InOrder(Plug(LoweredRight(k), t)) == InOrder(Plug(k, t))
  {
    var p, w := k.n, k.l;
    TurnParts(w.l, w.n, Black, w.r, p, Red, t);
    PlugOrder(k.up, Bin(w, p, k.c, t), Bin(w.l, w.n, Black, Bin(w.r, p, Red, t)));
  }

  lemma {:induction false} BlackNephewsRight(k: Around, t: Shape)
    requires Mending(k, t) && k.InRight? && t.c.Black? && k.l.Bin? && !IsRed(k.l.l) && !IsRed(k.l.r)
    ensures var t' := Bin(Bin(k.l.l, k.l.n, Red, k.l.r), k.n, k.c, t);
      Mending(k.up, t') && InOrder(Plug(k.up, t')) == InOrder(Plug(k, t))
  {
    var w := k.l;
    PlugOrder(k.up, Bin(w, k.n, k.c, t), Bin(Bin(w.l, w.n, Red, w.r), k.n, k.c, t));
  }

  ghost function TuckedRight(k: Around): Around
    requires k.InRight? && k.l.Bin? && k.l.r.Bin?
  {
    InRight(k.up, k.n, k.c, Bin(Bin(k.l.l, k.l.n, Red, k.l.r.l), k.l.r.n, Black, k.l.r.r))
  }

  lemma {:induction false} NearNephewRight(k: Around, t: Shape)
    requires Mending(k, t) && k.InRight? && k.l.Bin? && IsRed(k.l.r) && !IsRed(k.l.l)
    ensures Mending(TuckedRight(k), t)
    ensures InOrder(Plug(TuckedRight(k), t)) == InOrder(Plug(k, t))
  {
    var w, m := k.l, k.l.r;
    var w' := Bin(Bin(w.l, w.n, Red, m.l), m.n, Black, m.r);
    assert Rb(m, None) && Rb(Bin(w.l, w.n, Red, m.l), None);
    assert InOrder(Blacken(m)) == InOrder(m);
    TurnParts(w.l, w.n, Red, m.l, m.n, Black, m.r);
    PlugOrder(k.up, Bin(w, k.n, k.c, t), Bin(w', k.n, k.c, t));
  }

  ghost function BorrowedRight(k: Around, t: Shape): Shape
    requires k.InRight? && k.l.Bin?
  {
    Bin(Blacken(k.l.l), k.l.n, k.c, Bin(k.l.r, k.n, Black, t))
  }

  lemma {:induction false} FarNephewRight(k: Around, t: Shape)
    requires Mending(k, t) && k.InRight? && t.c.Black? && k.l.Bin? && IsRed(k.l.l)
    ensures var all := Plug(k.up, BorrowedRight(k, t)); Mending(Top, all) && InOrder(all) == InOrder(Plug(k, t))
  {
    var w, t' := k.l, BorrowedRight(k, t);
    assert Rb(w.l, None) && Rb(Blacken(w.l), None) && Rb(Bin(w.r, k.n, Black, t), None);
    assert InOrder(Blacken(w.l)) == InOrder(w.l);
    PlugBin(k.up, t');
    if !k.up.Top? {
      PlugRb(k.up, t', None);
    }
    TurnParts(Blacken(w.l), w.n, k.c, w.r, k.n, Black, t);
    PlugOrder(k.up, Bin(w, k.n, k.c, t), t');
  }

  method LowerRight(t: Tree, p: Node, w: Node, ghost s: set<Node>, ghost k: Around, ghost xs: Shape)
    requires t.Holds(s, k, xs) && k.InRight? && k.l.Bin? && p == k.n && w == k.l.n
    modifies t, s
    ensures t.Holds(s, LoweredRight(k), xs)
  {
    hide t.Holds;
    ghost var wl, wr := k.l.l, k.l.r;
    t.Refocus(s, k.up, k.l, p, k.c, xs);
    t.Paint(w, Black, s, InLeft(k.up, p, k.c, xs), wl, k.l.c, wr);
    t.Refocus(s, k.up, Bin(wl, w, Black, wr), p, k.c, xs);
    t.Paint(p, Red, s, k.up, Bin(wl, w, Black, wr), k.c, xs);
    var _ := t.RotateRight(p, s, k.up, wl, w, Black, wr, Red, xs);
    t.Refocus(s, k.up, wl, w, Black, Bin(wr, p, Red, xs));
    t.Refocus(s, InRight(k.up, w, Black, wl), wr, p, Red, xs);
  }

  method TuckRight(t: Tree, p: Node, w: Node, m: Node, ghost s: set<Node>, ghost k: Around, ghost xs: Shape)
    requires t.Holds(s, k, xs) && k.InRight? && k.l.Bin? && k.l.r.Bin? && p == k.n && w == k.l.n && m == k.l.r.n
    modifies t, s
    ensures t.Holds(s, TuckedRight(k), xs)
  {
    hide t.Holds;
    ghost var a, b, wl, kw := k.l.r.l, k.l.r.r, k.l.l, InLeft(k.up, p, k.c, xs);
    t.Refocus(s, k.up, k.l, p, k.c, xs);
    t.Refocus(s, kw, wl, w, k.l.c, k.l.r);
    t.Paint(m, Black, s, InRight(kw, w, k.l.c, wl), a, k.l.r.c, b);
    t.Refocus(s, kw, wl, w, k.l.c, Bin(a, m, Black, b));
    t.Paint(w, Red, s, kw, wl, k.l.c, Bin(a, m, Black, b));
    var _ := t.RotateLeft(w, s, kw, wl, Red, a, m, Black, b);
    t.Refocus(s, k.up, Bin(Bin(wl, w, Red, a), m, Black, b), p, k.c, xs);
  }

  method BorrowRight(t: Tree, p: Node, w: Node, f: Node, ghost s: set<Node>, ghost k: Around, ghost xs: Shape)
    requires t.Holds(s, k, xs) && k.InRight? && k.l.Bin? && k.l.l.Bin? && p == k.n && w == k.l.n && f == k.l.l.n
    modifies t, s
    ensures t.Holds(s, k.up, BorrowedRight(k, xs))
  {
    hide t.Holds;
    ghost var wl, wr := k.l.l, k.l.r;
    t.Refocus(s, k.up, k.l, p, k.c, xs);
    t.Reads(s, k.up, k.l, p, k.c, xs);
    t.Paint(w, p.color, s, InLeft(k.up, p, k.c, xs), wl, k.l.c, wr);
    t.Refocus(s, k.up, Bin(wl, w, k.c, wr), p, k.c, xs);
    t.Paint(p, Black, s, k.up, Bin(wl, w, k.c, wr), k.c, xs);
    t.Refocus(s, k.up, Bin(wl, w, k.c, wr), p, Black, xs);
    ghost var kw := InLeft(k.up, p, Black, xs);
    t.Refocus(s, kw, wl, w, k.c, wr);
    t.Paint(f, Black, s, InLeft(kw, w, k.c, wr), wl.l, wl.c, wl.r);
    t.Refocus(s, kw, Blacken(wl), w, k.c, wr);
    t.Refocus(s, k.up, Bin(Blacken(wl), w, k.c, wr), p, Black, xs);
    var _ := t.RotateRight(p, s, k.up, Blacken(wl), w, k.c, wr, Black, xs);
  }

  method MendRight(t: Tree, p: Node, w0: Node, ghost s: set<Node>, ghost k: Around, ghost xs: Shape)
      returns (x: Node, ghost k': Around, ghost xs': Shape)
    requires t.Holds(s, k, xs) && Mending(k, xs) && xs.c.Black? && k.InRight? && p == k.n
    requires k.l.Bin? && k.l.c.Black? && w0 == k.l.n
    modifies t, s
    ensures Goes(t, s, k, xs, x, k', xs') && Mended(k, k', xs')
  {
    hide t.Holds, Spells, RbOuter, Rb, InOrder;
    var w := w0;
    ghost var kw := InLeft(k.up, p, k.c, xs);
    t.Refocus(s, k.up, k.l, p, k.c, xs);
    t.Reads(s, kw, k.l.l, w, k.l.c, k.l.r);
    if (w.right == null || w.right.color == Black) && (w.left == null || w.left.color == Black) {
      BlackNephewsRight(k, xs);
      t.Paint(w, Red, s, kw, k.l.l, k.l.c, k.l.r);
      x, k', xs' := p, k.up, Bin(Bin(k.l.l, k.l.n, Red, k.l.r), k.n, k.c, xs);
      t.Refocus(s, k.up, xs'.l, p, k.c, xs);
    } else {
      ghost var k1 := k;
      if w.left == null || w.left.color == Black {
        NearNephewRight(k, xs);
        TuckRight(t, p, w, w.right, s, k, xs);
        k1 := TuckedRight(k);
        t.Refocus(s, k.up, k1.l, p, k.c, xs);
        t.Reads(s, k.up, k1.l, p, k.c, xs);
        w := p.left;
        t.Reads(s, kw, k1.l.l, w, k1.l.c, k1.l.r);
      }
      FarNephewRight(k1, xs);
      BorrowRight(t, p, w, w.left, s, k1, xs);
      k', xs' := Top, Plug(k1.up, BorrowedRight(k1, xs));
      t.FromRoot(s, k1.up, BorrowedRight(k1, xs));
      x := t.root;
    }
  }

  method RoundRight(t: Tree, x: Node, ghost s: set<Node>, ghost k: Around, ghost xs: Shape)
      returns (fault: bool, x': Node, ghost k': Around, ghost xs': Shape)
    requires t.Holds(s, k, xs) && Mending(k, xs) && x == xs.n && xs.c.Black? && k.InRight?
    modifies t, s
    ensures fault <==> NoSibling(k)
    ensures !fault ==> Goes(t, s, k, xs, x', k', xs') && Rounded(k, xs, k', xs')
  {
    hide t.Holds, Spells, InOrder, Plug;
    t.Reads(s, k, xs.l, xs.n, xs.c, xs.r);
    t.Refocus(s, k.up, k.l, k.n, k.c, xs);
    t.Reads(s, k.up, k.l, k.n, k.c, xs);
    var p := x.parent;
    var w := p.left;
    x', k', xs' := x, k, xs;
    ghost var k1 := k;
    if w != null && w.color == Red {
      RedSiblingRight(k, xs);
      LowerRight(t, p, w, s, k, xs);
      k1 := LoweredRight(k);
      t.Refocus(s, k1.up, k1.l, p, k1.c, xs);
      t.Reads(s, k1.up, k1.l, p, k1.c, xs);
      w := p.left;
    }
    fault := w == null;
    if !fault {
      x', k', xs' := MendRight(t, p, w, s, k1, xs);
      RoundedFrom(k, k1, xs, k', xs');
    }
  }

  // ----- the loop

  /** When the loop ends, blackening the node gives a tree that obeys the rules on colours. */
  lemma {:induction false} MendedAll(k: Around, t: Shape)
    requires Mending(k, t)
    ensures Colored(Plug(k, Blacken(t))) && InOrder(Plug(k, Blacken(t))) == InOrder(Plug(k, t))
  {
    SameOrder(t);
    PlugOrder(k, t, Blacken(t));
    if !k.Top? {
      PlugRb(k, Blacken(t), None);
    }
  }

  lemma {:induction false} NotStuck(k: Around, t: Shape)
    requires k.Top? || IsRed(t)
    ensures !Falls(k, t)
  {
  }

  /** How the node of a round hangs in the tree. */
  lemma {:induction false} Place(t: Tree, s: set<Node>, k: Around, xs: Shape)
    requires t.Holds(s, k, xs) && xs.Bin?
    ensures xs.n in s && xs.n.color == xs.c && xs.n.parent == Above(k) && (xs.n == t.root <==> k.Top?)
    ensures !k.Top? ==> k.n in s && (k.n.left == xs.n <==> k.InLeft?)
  {
    t.Reads(s, k, xs.l, xs.n, xs.c, xs.r);
    t.FromRoot(s, k, xs);
    if !k.Top? {
      var l, r := if k.InLeft? then xs else k.l, if k.InLeft? then k.r else xs;
      t.Refocus(s, k.up, l, k.n, k.c, r);
      t.Reads(s, k.up, l, k.n, k.c, r);
    }
  }

  lemma {:induction false} FailsNow(k: Around, t: Shape)
    requires !k.Top? && t.Bin? && t.c.Black? && NoSibling(k)
    ensures Falls(k, t)
  {
  }

  /** `fixup_del`, called for a node. It fails if and only if some round finds no sibling; otherwise the
      order stays and the rules on colours hold. On a red node only the last assignment takes effect. */
  method FixupDel(t: Tree, x0: Node, ghost s: set<Node>, ghost k0: Around, ghost t0: Shape)
      returns (fault: bool, ghost now: Shape)
    requires t.Holds(s, k0, t0) && Mending(k0, t0) && x0 == t0.n
    modifies t, s
    ensures fault <==> Falls(k0, t0)
    ensures !fault ==> t.Holds(s, Top, now) && Colored(now) && InOrder(now) == InOrder(Plug(k0, t0))
    ensures t0.c.Red? ==> !fault && now == Plug(k0, Blacken(t0))
  {
    hide t.Holds, Spells, InOrder, Plug, Stuck, RbOuter, Rb;
    var x := x0;
    ghost var k, xs := k0, t0;
    now := t0;
    Place(t, s, k, xs);
    while x != t.root && x.color == Black
      invariant Goes(t, s, k0, t0, x, k, xs) && (Falls(k, xs) <==> Falls(k0, t0))
      invariant t0.c.Red? ==> k == k0 && xs == t0
      invariant x in s && x.color == xs.c && (x == t.root <==> k.Top?) && x.parent == Above(k)
      invariant !k.Top? ==> k.n in s && (k.n.left == x <==> k.InLeft?)
      decreases Rank(k, xs)
    {
      ghost var kb, tb := k, xs;
      if x == x.parent.left {
        fault, x, k, xs := RoundLeft(t, x, s, k, xs);
      } else {
        fault, x, k, xs := RoundRight(t, x, s, k, xs);
      }
      if fault {
        FailsNow(kb, tb);
        return;
      }
      Place(t, s, k, xs);
    }
    NotStuck(k, xs);
    MendedAll(k, xs);
    t.Paint(x, Black, s, k, xs.l, xs.c, xs.r);
    now := Plug(k, Blacken(xs));
    t.FromRoot(s, k, Blacken(xs));
    fault := false;
  }
}
