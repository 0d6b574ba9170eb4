/** Repairing a red-black tree that lacks a black node (util/fs-hasher/rbtree.c: __rb_erase_color). */
module RbErase {
  import opened RbTrees
  import opened RbMemory
  import opened RbInsert

  /** The focus has one black node too few on every path, unless its red root is painted black. */
  ghost predicate Short(c: Ctx, t: Tree, h: nat) {
    && (if IsBlack(t) then RB(t, h) else RB(Paint(t, true), h + 1))
    && OkCtx(c, h + 1)
  }

  /** The loop goes on: a black focus below a parent, whose other child is then a node. */
  ghost predicate Stuck(c: Ctx, t: Tree, h: nat) {
    Short(c, t, h) && IsBlack(t) && c.Hole?
  }

  lemma SiblingFacts(c: Ctx, t: Tree, h: nat)
    requires Stuck(c, t, h)
    ensures c.other.Node? && RB(c.other, h + 1) && RB(t, h)
    ensures c.other.black ==> RB(c.other.left, h) && RB(c.other.right, h)
    ensures !c.other.black ==> c.black && RB(c.other.left, h + 1) && RB(c.other.right, h + 1)
    ensures !c.other.black ==> IsBlack(c.other.left) && IsBlack(c.other.right)
    ensures if c.black then OkCtx(c.up, h + 2) else c.up.Hole? && c.up.black && OkCtx(c.up, h + 1)
  {
  }

  /** What the code reads about the parent, the sibling and its children. */
  lemma SiblingReads(m: Mem, root: Ref, c: Ctx, t: Tree)
    requires At(m, root, c, t) && c.Hole? && c.other.Node?
    ensures c.ref in m && c.ref != NULL && m[c.ref].black == c.black
    ensures Get(m[c.ref], L) == RootOf(t) <==> c.side == L
    ensures Get(m[c.ref], Flip(c.side)) == c.other.ref && c.other.ref != NULL
    ensures c.other.ref in m && m[c.other.ref].black == c.other.black
    ensures forall s :: Get(m[c.other.ref], s) == RootOf(Child(c.other, s))
    ensures forall s :: Child(c.other, s).Node? ==>
      RootOf(Child(c.other, s)) in m && m[RootOf(Child(c.other, s))].black == Child(c.other, s).black
    ensures forall s :: Child(c.other, s).Node? ==> RootOf(Child(c.other, s)) != NULL
  {
    assert Rep(m, c.other, c.ref);
    assert Rep(m, c.other.left, c.other.ref) && Rep(m, c.other.right, c.other.ref);
    assert c.other.ref in Refs(c.other);
    assert t.Node? ==> t.ref in Refs(t);
    NoNull(c.other);
    NoNull(t);
    assert forall s :: Child(c.other, s).Node? ==> RootOf(Child(c.other, s)) in Refs(c.other);
  }

  lemma SplitSibling(o: Tree, side: Side)
    requires o.Node?
    ensures o == Mk(side, Child(o, side), o.ref, o.black, Child(o, Flip(side)))
  {
  }

  // ---------------------------------------------------------------- red sibling

  ghost function Lowered(c: Ctx): Ctx
    requires c.Hole? && c.other.Node?
  {
    var o := c.other;
    Hole(c.side, c.ref, false, Child(o, c.side), Hole(c.side, o.ref, true, Child(o, Flip(c.side)), c.up))
  }

  lemma LoweredIsStuck(c: Ctx, t: Tree, h: nat)
    requires Stuck(c, t, h) && c.other.Node? && !c.other.black
    ensures Stuck(Lowered(c), t, h) && Lowered(c).other.Node? && Lowered(c).other.black
    ensures All(Lowered(c), t) == All(c, t)
  {
    SiblingFacts(c, t, h);
    LoweredOrder(c, t);
    var far := Hole(c.side, c.other.ref, true, Child(c.other, Flip(c.side)), c.up);
    assert OkCtx(far, h + 1);
  }

  lemma LoweredOrder(c: Ctx, t: Tree)
    requires c.Hole? && c.other.Node?
    ensures All(Lowered(c), t) == All(c, t)
  {
    hide Inorder, Before, After, Mk;
    var o, side := c.other, c.side;
    var near, far := Child(o, side), Child(o, Flip(side));
    SplitSibling(o, side);
    MoveUp(side, c.ref, c.black, o, c.up, t);
    MoveUp(side, c.ref, false, near, Hole(side, o.ref, true, far, c.up), t);
    MoveUp(side, o.ref, true, far, c.up, Mk(side, t, c.ref, false, near));
    RotationOrder(side, t, c.ref, c.black, near, o.ref, o.black, far);
    SameMk(side, t, c.ref, false, c.black, near);
    SameMk(side, Mk(side, t, c.ref, false, near), o.ref, true, o.black, far);
    OrderOfMk(side, Mk(side, t, c.ref, false, near), o.ref, o.black, far);
    OrderOfMk(side, Mk(side, t, c.ref, c.black, near), o.ref, o.black, far);
  }

  lemma SameMk(side: Side, near: Tree, r: Ref, b: bool, b': bool, far: Tree)
    ensures Inorder(Mk(side, near, r, b, far)) == Inorder(Mk(side, near, r, b', far))
  {
  }

  method LowerParent(m: Mem, root: Ref, parent: Ref, other: Ref, side: Side, ghost c: Ctx, ghost t: Tree)
    returns (m': Mem, root': Ref)
    requires At(m, root, c, t) && c.Hole? && c.other.Node? && parent == c.ref && other == c.other.ref && side == c.side
    ensures At(m', root', Lowered(c), t)
  {
    hide At, Mk, Shape.From, Shape.To;
    ghost var o, up := c.other, c.up;
    ghost var near, far := Child(o, side), Child(o, Flip(side));
    SplitSibling(o, side);
    FocusUp(m, root, c, t);
    FocusDown(m, root, up, side, t, parent, c.black, o);
    PaintFocus(m, root, Hole(Flip(side), parent, c.black, t, up), o, true);
    m' := SetColor(m, other, true);
    ghost var o' := Mk(side, near, other, true, far);
    MkFacts(side, near, other, o.black, far);
    FocusDown(m', root, up, side, t, parent, c.black, o');
    MkFacts(side, t, parent, c.black, o');
    PaintFocus(m', root, up, Mk(side, t, parent, c.black, o'), false);
    m' := SetColor(m', parent, false);
    ghost var s := Shape(side, t, parent, false, near, other, true, far);
    ShapeIs(s);
    m', root' := Rotate(m', root, parent, side, up, s);
    FocusDown(m', root', up, side, Mk(side, t, parent, false, near), other, true, far);
    FocusDown(m', root', Hole(side, other, true, far, up), side, t, parent, false, near);
  }

  lemma ShapeIs(s: Shape)
    ensures s.From() == Mk(s.side, s.a, s.x, s.xb, Mk(s.side, s.b, s.y, s.yb, s.d))
    ensures s.To() == Mk(s.side, Mk(s.side, s.a, s.x, s.xb, s.b), s.y, s.yb, s.d)
  {
  }

  // ---------------------------------------------------------------- black sibling with black children

  ghost function Pushed(c: Ctx, t: Tree): Tree
    requires c.Hole?
  {
    Mk(c.side, t, c.ref, c.black, Paint(c.other, false))
  }

  lemma PushedIsShort(c: Ctx, t: Tree, h: nat)
    requires Stuck(c, t, h) && c.other.Node? && c.other.black
    requires IsBlack(c.other.left) && IsBlack(c.other.right)
    ensures Short(c.up, Pushed(c, t), if c.black then h + 1 else h)
    ensures All(c.up, Pushed(c, t)) == All(c, t)
  {
    SiblingFacts(c, t, h);
    PushedOrder(c, t);
    assert RB(Paint(c.other, false), h);
  }

  lemma PushedOrder(c: Ctx, t: Tree)
    requires c.Hole?
    ensures All(c.up, Pushed(c, t)) == All(c, t)
  {
    hide Inorder, Before, After, Mk;
    MoveUp(c.side, c.ref, c.black, c.other, c.up, t);
    PaintOrder(c.other, false);
    OrderOfMk(c.side, t, c.ref, c.black, c.other);
    OrderOfMk(c.side, t, c.ref, c.black, Paint(c.other, false));
  }

  lemma PushUp(m: Mem, root: Ref, c: Ctx, t: Tree)
    requires At(m, root, c, t) && c.Hole? && c.other.Node?
    ensures c.other.ref in m && At(SetColor(m, c.other.ref, false), root, c.up, Pushed(c, t))
  {
    hide At, Mk;
    FocusUp(m, root, c, t);
    FocusDown(m, root, c.up, c.side, t, c.ref, c.black, c.other);
    PaintFocus(m, root, Hole(Flip(c.side), c.ref, c.black, t, c.up), c.other, false);
    FocusDown(SetColor(m, c.other.ref, false), root, c.up, c.side, t, c.ref, c.black, Paint(c.other, false));
  }

  // ---------------------------------------------------------------- black sibling, red child on the near side

  ghost function Turned(c: Ctx): Ctx
    requires c.Hole? && c.other.Node? && Child(c.other, c.side).Node?
  {
    var o, n := c.other, Child(c.other, c.side);
    c.(other := Mk(c.side, Child(n, c.side), n.ref, true,
                   Mk(c.side, Child(n, Flip(c.side)), o.ref, false, Child(o, Flip(c.side)))))
  }

  lemma TurnedIsStuck(c: Ctx, t: Tree, h: nat)
    requires Stuck(c, t, h) && c.other.Node? && c.other.black && IsBlack(Child(c.other, Flip(c.side)))
    requires !IsBlack(Child(c.other, c.side))
    ensures Stuck(Turned(c), t, h) && Turned(c).other.Node? && Turned(c).other.black
    ensures !IsBlack(Child(Turned(c).other, Flip(c.side)))
    ensures All(Turned(c), t) == All(c, t)
  {
    SiblingFacts(c, t, h);
    TurnedOrder(c, t);
    var o, n := c.other, Child(c.other, c.side);
    var inner := Mk(c.side, Child(n, Flip(c.side)), o.ref, false, Child(o, Flip(c.side)));
    assert RB(n, h) && RB(inner, h);
    assert RB(Turned(c).other, h + 1);
  }

  ghost function TurnShape(c: Ctx): Shape
    requires c.Hole? && c.other.Node? && Child(c.other, c.side).Node?
  {
    var o, n := c.other, Child(c.other, c.side);
    Shape(Flip(c.side), Child(o, Flip(c.side)), o.ref, false, Child(n, Flip(c.side)), n.ref, true, Child(n, c.side))
  }

  lemma TurnShapeIs(c: Ctx)
    requires c.Hole? && c.other.Node? && Child(c.other, c.side).Node?
    ensures var o, n, s := c.other, Child(c.other, c.side), TurnShape(c);
            && s.From() == Mk(c.side, Paint(n, true), o.ref, false, Child(o, Flip(c.side)))
            && s.To() == Turned(c).other
            && o == Mk(c.side, n, o.ref, o.black, Child(o, Flip(c.side)))
  {
  }

  lemma TurnedOrder(c: Ctx, t: Tree)
    requires c.Hole? && c.other.Node? && Child(c.other, c.side).Node?
    ensures All(Turned(c), t) == All(c, t)
  {
    hide Inorder, Before, After, Mk, Shape.From, Shape.To;
    var o, n, s := c.other, Child(c.other, c.side), TurnShape(c);
    TurnShapeIs(c);
    ShapeIs(s);
    RotationOrder(s.side, s.a, s.x, s.xb, s.b, s.y, s.yb, s.d);
    PaintOrder(n, true);
    OrderOfMk(c.side, Paint(n, true), o.ref, false, Child(o, Flip(c.side)));
    OrderOfMk(c.side, n, o.ref, o.black, Child(o, Flip(c.side)));
    SameOther(c, Turned(c), t);
  }

  lemma SameOther(c: Ctx, c': Ctx, t: Tree)
    requires c.Hole? && c'.Hole? && c' == c.(other := c'.other) && Inorder(c'.other) == Inorder(c.other)
    ensures All(c', t) == All(c, t)
  {
  }

  method TurnSibling(m: Mem, root: Ref, other: Ref, side: Side, ghost c: Ctx, ghost t: Tree) returns (m': Mem, root': Ref)
    requires At(m, root, c, t) && c.Hole? && c.other.Node? && Child(c.other, side).Node?
    requires other == c.other.ref && side == c.side
    ensures At(m', root', Turned(c), t)
  {
    hide At, Mk, Shape.From, Shape.To;
    ghost var o, n, up := c.other, Child(c.other, side), c.up;
    ghost var far, around := Child(o, Flip(side)), Hole(Flip(side), c.ref, c.black, t, up);
    TurnShapeIs(c);
    SiblingReads(m, root, c, t);
    FocusUp(m, root, c, t);
    FocusDown(m, root, up, side, t, c.ref, c.black, o);
    FocusDown(m, root, around, side, n, other, o.black, far);
    PaintFocus(m, root, Hole(side, other, o.black, far, around), n, true);
    m' := SetColor(m, Get(m[other], side), true);
    FocusDown(m', root, around, side, Paint(n, true), other, o.black, far);
    MkFacts(side, Paint(n, true), other, o.black, far);
    PaintFocus(m', root, around, Mk(side, Paint(n, true), other, o.black, far), false);
    m' := SetColor(m', other, false);
    m', root' := Rotate(m', root, other, Flip(side), around, TurnShape(c));
    FocusDown(m', root', up, side, t, c.ref, c.black, Turned(c).other);
  }

  // ---------------------------------------------------------------- black sibling, red child on the far side

  ghost function Repaired(c: Ctx, t: Tree): Tree
    requires c.Hole? && c.other.Node?
  {
    var o := c.other;
    Mk(c.side, Mk(c.side, t, c.ref, true, Child(o, c.side)), o.ref, c.black, Paint(Child(o, Flip(c.side)), true))
  }

  lemma RepairedIsRb(c: Ctx, t: Tree, h: nat)
    requires Stuck(c, t, h) && c.other.Node? && c.other.black && !IsBlack(Child(c.other, Flip(c.side)))
    ensures RbTree(Plug(c.up, Repaired(c, t))) && All(c.up, Repaired(c, t)) == All(c, t)
  {
    SiblingFacts(c, t, h);
    RepairedOrder(c, t);
    var o := c.other;
    var inner := Mk(c.side, t, c.ref, true, Child(o, c.side));
    assert RB(inner, h + 1) && RB(Paint(Child(o, Flip(c.side)), true), h + 1);
    PlugIsRb(c.up, Repaired(c, t), if c.black then h + 2 else h + 1);
  }

  lemma RepairedOrder(c: Ctx, t: Tree)
    requires c.Hole? && c.other.Node?
    ensures All(c.up, Repaired(c, t)) == All(c, t)
  {
    hide Inorder, Before, After, Mk;
    var o, side := c.other, c.side;
    var near, far := Child(o, side), Child(o, Flip(side));
    SplitSibling(o, side);
    MoveUp(side, c.ref, c.black, o, c.up, t);
    RotationOrder(side, t, c.ref, c.black, near, o.ref, o.black, far);
    PaintOrder(far, true);
    SameMk(side, t, c.ref, true, c.black, near);
    OrderOfMk(side, Mk(side, t, c.ref, true, near), o.ref, c.black, Paint(far, true));
    OrderOfMk(side, Mk(side, t, c.ref, c.black, near), o.ref, o.black, far);
  }

  method Repair(m: Mem, root: Ref, parent: Ref, other: Ref, side: Side, ghost c: Ctx, ghost t: Tree)
    returns (m': Mem, root': Ref)
    requires At(m, root, c, t) && c.Hole? && c.other.Node? && Child(c.other, Flip(side)).Node?
    requires parent == c.ref && other == c.other.ref && side == c.side
    ensures At(m', root', c.up, Repaired(c, t))
  {
    hide At, Mk, Shape.From, Shape.To;
    ghost var o, up := c.other, c.up;
    ghost var near, far := Child(o, side), Child(o, Flip(side));
    SplitSibling(o, side);
    SiblingReads(m, root, c, t);
    FocusUp(m, root, c, t);
    FocusDown(m, root, up, side, t, parent, c.black, o);
    PaintFocus(m, root, Hole(Flip(side), parent, c.black, t, up), o, c.black);
    m' := SetColor(m, other, m[parent].black);
    ghost var o1 := Mk(side, near, other, c.black, far);
    MkFacts(side, near, other, o.black, far);
    FocusDown(m', root, up, side, t, parent, c.black, o1);
    MkFacts(side, t, parent, c.black, o1);
    PaintFocus(m', root, up, Mk(side, t, parent, c.black, o1), true);
    m' := SetColor(m', parent, true);
    FocusDown(m', root, up, side, t, parent, true, o1);
    ghost var around := Hole(Flip(side), parent, true, t, up);
    FocusDown(m', root, around, side, near, other, c.black, far);
    PaintFocus(m', root, Hole(Flip(side), other, c.black, near, around), far, true);
    SiblingReads(m', root, Hole(side, parent, true, o1, up), t);
    MkFacts(side, near, other, c.black, far);
    MkChildren(side, near, other, c.black, far);
    m' := SetColor(m', Get(m'[other], Flip(side)), true);
    FocusDown(m', root, around, side, near, other, c.black, Paint(far, true));
    FocusDown(m', root, up, side, t, parent, true, Mk(side, near, other, c.black, Paint(far, true)));
    ghost var s := Shape(side, t, parent, true, near, other, c.black, Paint(far, true));
    ShapeIs(s);
    m', root' := Rotate(m', root, parent, side, up, s);
  }

  lemma MkChildren(side: Side, near: Tree, r: Ref, b: bool, far: Tree)
    ensures Child(Mk(side, near, r, b, far), side) == near && Child(Mk(side, near, r, b, far), Flip(side)) == far
  {
  }

  // ---------------------------------------------------------------- the repair loop

  /** __rb_erase_color: from one black node too few to a red-black tree with the same nodes in the same order. */
  method EraseColor(m: Mem, root: Ref, node: Ref, parent: Ref, ghost c: Ctx, ghost t: Tree, ghost h: nat)
    returns (m': Mem, root': Ref)
    requires At(m, root, c, t) && Short(c, t, h) && node == RootOf(t) && parent == RefOf(c)
    ensures HoldsRb(m', root', All(c, t))
  {
    hide At, RB, OkCtx, Inorder, Before, After, Mk, Refs, RbTree;
    m', root' := m, root;
    var node', parent' := node, parent;
    ghost var c', t', h' := c, t, h;
    NodeReads(m', root', c', t');
    while (node' == NULL || m'[node'].black) && node' != root'
      invariant At(m', root', c', t') && Short(c', t', h') && node' == RootOf(t') && parent' == RefOf(c')
      invariant (node' == root' <==> c'.Top?) && (node' == NULL <==> t'.Leaf?)
      invariant node' != NULL ==> node' in m' && m'[node'].black == t'.black
      invariant All(c', t') == All(c, t)
      decreases if IsBlack(t') then 1 + Depth(c') else 0
    {
      SiblingFacts(c', t', h');
      SiblingReads(m', root', c', t');
      var side := if Get(m'[parent'], L) == node' then L else R;
      var other := Get(m'[parent'], Flip(side));
      if !m'[other].black {
        LoweredIsStuck(c', t', h');
        m', root' := LowerParent(m', root', parent', other, side, c', t');
        c' := Lowered(c');
        SiblingFacts(c', t', h');
        SiblingReads(m', root', c', t');
        other := Get(m'[parent'], Flip(side));
      }
      var a, b := Get(m'[other], L), Get(m'[other], R);
      BothChildren(c'.other);
      if (a == NULL || m'[a].black) && (b == NULL || m'[b].black) {
        PushedIsShort(c', t', h');
        PushUp(m', root', c', t');
        m' := SetColor(m', other, false);
        node' := parent';
        PushedRoot(c', t');
        c', t', h' := c'.up, Pushed(c', t'), if c'.black then h' + 1 else h';
        NodeReads(m', root', c', t');
        parent' := m'[node'].parent;
      } else {
        var far := Get(m'[other], Flip(side));
        if far == NULL || m'[far].black {
          TurnedIsStuck(c', t', h');
          m', root' := TurnSibling(m', root', other, side, c', t');
          c' := Turned(c');
          SiblingReads(m', root', c', t');
          other := Get(m'[parent'], Flip(side));
        }
        RepairedIsRb(c', t', h');
        m', root' := Repair(m', root', parent', other, side, c', t');
        PushedRootOf(c', t');
        ghost var w := PaintRoot(m', root', c'.up, Repaired(c', t'));
        m' := SetColor(m', root', true);
        return;
      }
    }
    ghost var w := Finished(m', root', c', t', h');
    if node' != NULL {
      m' := SetColor(m', node', true);
    }
  }

  lemma NodeReads(m: Mem, root: Ref, c: Ctx, t: Tree)
    requires At(m, root, c, t)
    ensures (RootOf(t) == root <==> c.Top?) && (RootOf(t) == NULL <==> t.Leaf?)
    ensures t.Node? ==> t.ref in m && m[t.ref].black == t.black && m[t.ref].parent == RefOf(c)
    ensures c.Top? <==> RefOf(c) == NULL
  {
    assert t.Node? ==> t.ref in Refs(t);
    NoNull(t);
    if c.Hole? {
      NoNullCtx(c, Refs(t));
      SepCtxApart(c, Refs(t));
      RootInCtx(c, RootOf(t));
    }
  }

  lemma {:induction false} RootInCtx(c: Ctx, hole: Ref)
    requires c.Hole?
    ensures RootRef(c, hole) in CtxRefs(c)
    decreases c
  {
    if c.up.Hole? {
      RootInCtx(c.up, c.ref);
    }
  }

  lemma BothChildren(o: Tree)
    requires o.Node?
    ensures Child(o, L) == o.left && Child(o, R) == o.right
  {
  }

  lemma PushedRoot(c: Ctx, t: Tree)
    requires c.Hole?
    ensures RootOf(Pushed(c, t)) == c.ref && Pushed(c, t).Node? && Pushed(c, t).black == c.black
    ensures Depth(c) == 1 + Depth(c.up)
  {
  }

  lemma PushedRootOf(c: Ctx, t: Tree)
    requires c.Hole? && c.other.Node?
    ensures Repaired(c, t).Node?
  {
  }

  /** Painting the root of a red-black tree black changes nothing. */
  lemma PaintRoot(m: Mem, root: Ref, c: Ctx, t: Tree) returns (w: Tree)
    requires At(m, root, c, t) && RbTree(Plug(c, t)) && t.Node?
    ensures root in m && At(SetColor(m, root, true), root, Top, w) && RbTree(w) && Inorder(w) == All(c, t)
  {
    hide Inorder, RB;
    w := Plug(c, t);
    FocusTop(m, root, c, t);
    PlugOrder(c, t);
    PlugHasRoot(c, t);
    PaintFocus(m, root, Top, w, true);
    assert Paint(w, true) == w;
  }

  /** The loop ends at a red node, which becomes black, or at the root. */
  lemma Finished(m: Mem, root: Ref, c: Ctx, t: Tree, h: nat) returns (w: Tree)
    requires At(m, root, c, t) && Short(c, t, h) && (!IsBlack(t) || c.Top?)
    ensures t.Leaf? ==> At(m, root, Top, w)
    ensures t.Node? ==> t.ref in m && At(SetColor(m, t.ref, true), root, Top, w)
    ensures RbTree(w) && Inorder(w) == All(c, t)
  {
    hide Inorder, RB;
    var p := Paint(t, true);
    w := Plug(c, p);
    PlugOrder(c, p);
    PaintOrder(t, true);
    if t.Node? {
      PaintFocus(m, root, c, t, true);
      FocusTop(SetColor(m, t.ref, true), root, c, p);
    }
    if IsBlack(t) {
      assert p == t;
    } else {
      PlugIsRb(c, p, h + 1);
    }
  }
}
