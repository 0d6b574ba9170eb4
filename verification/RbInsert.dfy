/** Insertion into a red-black tree (util/fs-hasher/rbtree.h: rb_link_node; rbtree.c: rb_insert_color). */
module RbInsert {
  import opened RbTrees
  import opened RbMemory

  /** A red focus that is in order itself; only its parent may be red as well. */
  ghost predicate Ready(c: Ctx, t: Tree, h: nat) {
    t.Node? && !t.black && RB(t, h) && OkCtx(c, h)
  }

  ghost function Depth(c: Ctx): nat {
    if c.Top? then 0 else 1 + Depth(c.up)
  }

  /** A red parent has a black parent, which has the uncle as its other child. */
  ghost predicate RedParent(c: Ctx) {
    c.Hole? && !c.black && c.up.Hole? && c.up.black
  }

  /** What the code reads before it decides. */
  lemma FamilyFacts(m: Mem, root: Ref, c: Ctx, t: Tree)
    requires At(m, root, c, t) && t.Node? && RedParent(c)
    ensures var g, u := c.up.ref, c.up.other;
            && t.ref in m && m[t.ref].parent == c.ref && c.ref in m && !m[c.ref].black && c.ref != NULL
            && m[c.ref].parent == g && g in m && g != NULL
            && (Get(m[g], L) == c.ref <==> c.up.side == L)
            && Get(m[g], Flip(c.up.side)) == RootOf(u)
            && (u.Node? ==> u.ref in m && m[u.ref].black == u.black && u.ref != NULL)
            && (Get(m[c.ref], Flip(c.up.side)) == t.ref <==> c.side == Flip(c.up.side))
            && t.ref != NULL
  {
    var u := c.up.other;
    assert RepCtx(m, c.up, c.ref) && SepCtx(c.up, Refs(t) + {c.ref} + Refs(c.other));
    assert u.Node? ==> u.ref in Refs(u);
    assert c.other.Node? ==> c.other.ref in Refs(c.other);
    assert t.ref in Refs(t);
    NoNull(u);
  }

  // ---------------------------------------------------------------- red uncle

  ghost function Recolored(c: Ctx, t: Tree): Tree
    requires RedParent(c)
  {
    Mk(c.up.side, Mk(c.side, t, c.ref, true, c.other), c.up.ref, false, Paint(c.up.other, true))
  }

  lemma RecolorIsReady(c: Ctx, t: Tree, h: nat)
    requires Ready(c, t, h) && RedParent(c) && c.up.other.Node? && !c.up.other.black
    ensures Ready(c.up.up, Recolored(c, t), h + 1)
    ensures All(c.up.up, Recolored(c, t)) == All(c, t)
  {
    RecolorOrder(c, t);
    var p, u := Mk(c.side, t, c.ref, true, c.other), c.up.other;
    assert OkCtx(c.up, h) && RB(u, h) && RB(p, h + 1);
    assert RB(Paint(u, true), h + 1);
  }

  lemma RecolorOrder(c: Ctx, t: Tree)
    requires RedParent(c)
    ensures All(c.up.up, Recolored(c, t)) == All(c, t)
  {
    hide Inorder, Before, After, Mk;
    MoveUp(c.side, c.ref, c.black, c.other, c.up, t);
    MoveUp(c.up.side, c.up.ref, c.up.black, c.up.other, c.up.up, Mk(c.side, t, c.ref, false, c.other));
    OrderOfMk(c.side, t, c.ref, false, c.other);
    OrderOfMk(c.side, t, c.ref, true, c.other);
    OrderOfMk(c.up.side, Mk(c.side, t, c.ref, true, c.other), c.up.ref, false, Paint(c.up.other, true));
    OrderOfMk(c.up.side, Mk(c.side, t, c.ref, false, c.other), c.up.ref, true, c.up.other);
    PaintOrder(c.up.other, true);
  }

  lemma PaintOrder(t: Tree, black: bool)
    ensures Inorder(Paint(t, black)) == Inorder(t)
  {
  }

  method Recolor(m: Mem, root: Ref, parent: Ref, gparent: Ref, uncle: Ref, ghost c: Ctx, ghost t: Tree) returns (m': Mem)
    requires At(m, root, c, t) && RedParent(c) && c.up.other.Node?
    requires parent == c.ref && gparent == c.up.ref && uncle == c.up.other.ref
    ensures At(m', root, c.up.up, Recolored(c, t))
  {
    hide At, Mk;
    ghost var g, u, side, up := c.up.ref, c.up.other, c.up.side, c.up.up;
    ghost var p, p' := Mk(c.side, t, c.ref, false, c.other), Mk(c.side, t, c.ref, true, c.other);
    MkFacts(c.side, t, c.ref, false, c.other);
    FocusUp(m, root, c, t);
    FocusDown(m, root, up, side, p, g, true, u);
    PaintFocus(m, root, Hole(Flip(side), g, true, p, up), u, true);
    m' := SetColor(m, uncle, true);
    FocusDown(m', root, up, side, p, g, true, Paint(u, true));
    PaintFocus(m', root, Hole(side, g, true, Paint(u, true), up), p, true);
    m' := SetColor(m', parent, true);
    FocusDown(m', root, up, side, p', g, true, Paint(u, true));
    MkFacts(side, p', g, true, Paint(u, true));
    PaintFocus(m', root, up, Mk(side, p', g, true, Paint(u, true)), false);
    m' := SetColor(m', gparent, false);
  }

  lemma MkFacts(side: Side, near: Tree, r: Ref, b: bool, far: Tree)
    ensures var t := Mk(side, near, r, b, far);
            && t.Node? && t.ref == r && t.black == b
            && Paint(t, true) == Mk(side, near, r, true, far) && Paint(t, false) == Mk(side, near, r, false, far)
            && t == Mk(Flip(side), far, r, b, near)
  {
  }

  // ---------------------------------------------------------------- black uncle

  /** The parent's subtree with the red focus on the outer side. */
  ghost predicate Straight(c: Ctx, t: Tree, h: nat, q: Ref, x: Tree, y: Tree)
    requires RedParent(c)
  {
    && x.Node? && !x.black && RB(x, h) && RB(y, h) && IsBlack(y)
    && Inorder(Mk(c.up.side, x, q, false, y)) == Inorder(Mk(c.side, t, c.ref, false, c.other))
  }

  ghost function Inner(c: Ctx, t: Tree): Shape
    requires RedParent(c) && t.Node?
  {
    var side := c.up.side;
    Shape(side, c.other, c.ref, false, Child(t, side), t.ref, t.black, Child(t, Flip(side)))
  }

  lemma InnerIsStraight(c: Ctx, t: Tree, h: nat)
    requires Ready(c, t, h) && RedParent(c) && c.side == Flip(c.up.side)
    ensures var s := Inner(c, t);
            && s.From() == Mk(c.side, t, c.ref, false, c.other)
            && s.To() == Mk(c.up.side, Mk(c.up.side, s.a, s.x, false, s.b), s.y, false, s.d)
            && Straight(c, t, h, t.ref, Mk(c.up.side, s.a, s.x, false, s.b), s.d)
  {
    hide Inorder;
    var s := Inner(c, t);
    RotationOrder(s.side, s.a, s.x, s.xb, s.b, s.y, s.yb, s.d);
  }

  /** Rotates an inner focus outwards; afterwards parent and focus have changed roles. */
  method Straighten(m: Mem, root: Ref, node: Ref, parent: Ref, side: Side, ghost c: Ctx, ghost t: Tree, ghost h: nat)
    returns (m': Mem, root': Ref, node': Ref, parent': Ref)
    requires At(m, root, c, t) && Ready(c, t, h) && RedParent(c)
    requires t.ref == node && c.ref == parent && c.up.side == side
    ensures exists x, y :: At(m', root', c.up, Mk(side, x, parent', false, y)) && Straight(c, t, h, parent', x, y)
                           && x.ref == node'
  {
    hide At, RB, Inorder, Mk, OkCtx, Shape.From, Shape.To;
    FamilyFacts(m, root, c, t);
    FocusUp(m, root, c, t);
    m', root', node', parent' := m, root, node, parent;
    if Get(m[parent], Flip(side)) == node {
      InnerIsStraight(c, t, h);
      ghost var s := Inner(c, t);
      m', root' := Rotate(m, root, parent, side, c.up, s);
      node', parent' := parent, node;
      ghost var x, y := Mk(side, s.a, s.x, false, s.b), s.d;
      assert At(m', root', c.up, Mk(side, x, parent', false, y)) && Straight(c, t, h, parent', x, y);
      MkFacts(side, s.a, s.x, false, s.b);
    } else {
      OuterIsStraight(c, t, h);
      assert At(m', root', c.up, Mk(side, t, parent', false, c.other));
    }
  }

  lemma OuterIsStraight(c: Ctx, t: Tree, h: nat)
    requires Ready(c, t, h) && RedParent(c) && c.side == c.up.side
    ensures Straight(c, t, h, c.ref, t, c.other)
  {
  }

  /** Parent and grandparent change colours, and the grandparent is rotated away. */
  method Hoist(m: Mem, root: Ref, parent: Ref, gparent: Ref, side: Side, ghost up: Ctx, ghost x: Tree, ghost y: Tree)
    returns (m': Mem, root': Ref)
    requires At(m, root, up, Mk(side, x, parent, false, y))
    requires up.Hole? && up.black && up.side == side && up.ref == gparent
    ensures At(m', root', Hole(side, parent, true, Mk(Flip(side), up.other, gparent, false, y), up.up), x)
  {
    hide At, Mk, Shape.From, Shape.To;
    ghost var u, q := up.other, Mk(side, x, parent, true, y);
    MkFacts(side, x, parent, false, y);
    PaintFocus(m, root, up, Mk(side, x, parent, false, y), true);
    m' := SetColor(m, parent, true);
    FocusUp(m', root, up, q);
    MkFacts(side, q, gparent, true, u);
    PaintFocus(m', root, up.up, Mk(side, q, gparent, true, u), false);
    m' := SetColor(m', gparent, false);
    ghost var s := Shape(Flip(side), u, gparent, false, y, parent, true, x);
    HoistShape(side, u, gparent, y, parent, x);
    m', root' := Rotate(m', root, gparent, Flip(side), up.up, s);
    FocusDown(m', root', up.up, side, x, parent, true, Mk(Flip(side), u, gparent, false, y));
  }

  lemma HoistShape(side: Side, u: Tree, g: Ref, y: Tree, q: Ref, x: Tree)
    ensures var s := Shape(Flip(side), u, g, false, y, q, true, x);
            && s.From() == Mk(side, Mk(side, x, q, true, y), g, false, u)
            && s.To() == Mk(side, x, q, true, Mk(Flip(side), u, g, false, y))
  {
  }

  ghost function Hoisted(c: Ctx, q: Ref, y: Tree): Ctx
    requires RedParent(c)
  {
    Hole(c.up.side, q, true, Mk(Flip(c.up.side), c.up.other, c.up.ref, false, y), c.up.up)
  }

  lemma HoistIsReady(c: Ctx, t: Tree, h: nat, q: Ref, x: Tree, y: Tree)
    requires Ready(c, t, h) && RedParent(c) && IsBlack(c.up.other) && Straight(c, t, h, q, x, y)
    ensures Ready(Hoisted(c, q, y), x, h)
    ensures All(Hoisted(c, q, y), x) == All(c, t)
  {
    assert OkCtx(c.up, h);
    assert RB(Mk(Flip(c.up.side), c.up.other, c.up.ref, false, y), h);
    HoistOrder(c, t, q, x, y);
  }

  lemma HoistOrder(c: Ctx, t: Tree, q: Ref, x: Tree, y: Tree)
    requires RedParent(c)
    requires Inorder(Mk(c.up.side, x, q, false, y)) == Inorder(Mk(c.side, t, c.ref, false, c.other))
    ensures All(Hoisted(c, q, y), x) == All(c, t)
  {
    hide Inorder, Before, After, Mk;
    var side, g, u, up := c.up.side, c.up.ref, c.up.other, c.up.up;
    var p := Mk(c.side, t, c.ref, false, c.other);
    MoveUp(c.side, c.ref, c.black, c.other, c.up, t);
    MoveUp(side, g, true, u, up, p);
    OrderOfMk(side, p, g, true, u);
    HoistShape(side, u, g, y, q, x);
    RotationOrder(Flip(side), u, g, false, y, q, true, x);
    OrderOfMk(side, Mk(side, x, q, true, y), g, false, u);
    OrderOfMk(side, x, q, true, y);
    OrderOfMk(side, x, q, false, y);
    MoveUp(side, q, true, Mk(Flip(side), u, g, false, y), up, x);
  }

  // ---------------------------------------------------------------- the whole insertion

  /** rb_link_node: a new red leaf where the focus is empty. */
  method LinkNode(m: Mem, root: Ref, node: Ref, parent: Ref, side: Side, ghost c: Ctx) returns (m': Mem, root': Ref)
    requires At(m, root, c, Leaf) && node != NULL && node !in CtxRefs(c)
    requires parent == RefOf(c) && (c.Hole? ==> side == c.side)
    ensures At(m', root', c, Node(Leaf, node, false, Leaf))
  {
    m' := m[node := Row(NULL, NULL, parent, false)];
    root' := root;
    if parent != NULL {
      m' := SetChild(m', parent, side, node);
    } else {
      root' := node;
    }
    Rehole(m, m', c, {}, NULL, node, {node, parent});
    NoNullCtx(c, {});
    SepWith(c, {}, node);
    assert Refs(Node(Leaf, node, false, Leaf)) == {} + {node};
    RootRefOnlyTop(c, NULL, node);
  }

  lemma {:induction false} SepWith(c: Ctx, s: set<Ref>, node: Ref)
    requires SepCtx(c, s) && node !in CtxRefs(c)
    ensures SepCtx(c, s + {node})
    decreases c
  {
    if c.Hole? {
      SepWith(c.up, s + {c.ref} + Refs(c.other), node);
      assert s + {c.ref} + Refs(c.other) + {node} == s + {node} + {c.ref} + Refs(c.other);
    }
  }

  /** rb_insert_color: from a new red leaf to a red-black tree with the same nodes in the same order. */
  method InsertColor(m: Mem, root: Ref, node: Ref, ghost c: Ctx, ghost t: Tree, ghost h: nat)
    returns (m': Mem, root': Ref)
    requires At(m, root, c, t) && Ready(c, t, h) && t.ref == node
    ensures HoldsRb(m', root', All(c, t))
  {
    hide At, RB, OkCtx, Inorder, Before, After, Mk, Refs;
    m', root' := m, root;
    var node' := node;
    ghost var c', t', h' := c, t, h;
    FocusFacts(m', root', c', t');
    var parent := m'[node'].parent;
    while parent != NULL && !m'[parent].black
      invariant At(m', root', c', t') && Ready(c', t', h') && t'.ref == node' && parent == RefOf(c')
      invariant (parent == NULL <==> c'.Top?) && (c'.Hole? ==> parent in m' && m'[parent].black == c'.black)
      invariant All(c', t') == All(c, t)
      decreases Depth(c')
    {
      RedParentFacts(c', t', h');
      FamilyFacts(m', root', c', t');
      var gparent := m'[parent].parent;
      var side := if parent == Get(m'[gparent], L) then L else R;
      var uncle := Get(m'[gparent], Flip(side));
      if uncle != NULL && !m'[uncle].black {
        RecolorIsReady(c', t', h');
        MkFacts(side, Mk(c'.side, t', c'.ref, true, c'.other), gparent, false, Paint(c'.up.other, true));
        m' := Recolor(m', root', parent, gparent, uncle, c', t');
        c', t', h' := c'.up.up, Recolored(c', t'), h' + 1;
        node' := gparent;
      } else {
        m', root', node', parent := Straighten(m', root', node', parent, side, c', t', h');
        ghost var x, y :| At(m', root', c'.up, Mk(side, x, parent, false, y)) && Straight(c', t', h', parent, x, y)
                          && x.ref == node';
        HoistIsReady(c', t', h', parent, x, y);
        m', root' := Hoist(m', root', parent, gparent, side, c'.up, x, y);
        c', t' := Hoisted(c', parent, y), x;
      }
      FocusFacts(m', root', c', t');
      parent := m'[node'].parent;
    }
    ghost var w := BlackRoot(m', root', c', t', h');
    m' := SetColor(m', root', true);
  }

  lemma FocusFacts(m: Mem, root: Ref, c: Ctx, t: Tree)
    requires At(m, root, c, t) && t.Node?
    ensures t.ref in m && m[t.ref].parent == RefOf(c)
    ensures c.Top? <==> RefOf(c) == NULL
    ensures c.Hole? ==> c.ref in m && m[c.ref].black == c.black
  {
  }

  lemma RedParentFacts(c: Ctx, t: Tree, h: nat)
    requires Ready(c, t, h) && c.Hole? && !c.black
    ensures RedParent(c) && Depth(c) == 2 + Depth(c.up.up)
  {
  }

  /** The last write: the root becomes black, if it was not already. */
  lemma BlackRoot(m: Mem, root: Ref, c: Ctx, t: Tree, h: nat) returns (w: Tree)
    requires At(m, root, c, t) && Ready(c, t, h) && (c.Top? || c.black)
    ensures root in m && At(SetColor(m, root, true), root, Top, w) && RbTree(w) && Inorder(w) == All(c, t)
  {
    w := Paint(Plug(c, t), true);
    FocusTop(m, root, c, t);
    PlugOrder(c, t);
    PaintOrder(Plug(c, t), true);
    PlugHasRoot(c, t);
    PaintFocus(m, root, Top, Plug(c, t), true);
    if c.Top? {
      assert RB(w, h + 1);
    } else {
      PlugIsRb(c, t, h);
      assert w == Plug(c, t);
    }
  }

  lemma {:induction false} PlugHasRoot(c: Ctx, t: Tree)
    requires t.Node?
    ensures Plug(c, t).Node?
    decreases c
  {
    if c.Hole? {
      PlugHasRoot(c.up, Mk(c.side, t, c.ref, c.black, c.other));
    }
  }

  /** Linking a node into a red-black tree and fixing the colours inserts exactly that node. */
  method Insert(m: Mem, root: Ref, node: Ref, parent: Ref, side: Side, ghost c: Ctx) returns (m': Mem, root': Ref)
    requires At(m, root, c, Leaf) && RbTree(Plug(c, Leaf)) && node != NULL && node !in CtxRefs(c)
    requires parent == RefOf(c) && (c.Hole? ==> side == c.side)
    ensures Inorder(Plug(c, Leaf)) == Before(c) + After(c) && HoldsRb(m', root', Before(c) + [node] + After(c))
  {
    hide At, RB, HoldsRb;
    ghost var h := UnplugIsRb(c, Leaf);
    PlugOrder(c, Leaf);
    m', root' := LinkNode(m, root, node, parent, side, c);
    NewLeaf(c, node, h);
    m', root' := InsertColor(m', root', node, c, Node(Leaf, node, false, Leaf), h);
  }

  lemma NewLeaf(c: Ctx, node: Ref, h: nat)
    requires RB(Leaf, h) && OkCtx(c, h)
    ensures Ready(c, Node(Leaf, node, false, Leaf), h) && Inorder(Node(Leaf, node, false, Leaf)) == [node]
  {
  }
}
