/** The memory that holds a red-black tree, and the rotations on it (util/fs-hasher/rbtree.c, rbtree.h). */
module RbMemory {
  import opened RbTrees

  /** struct rb_node; the source packs parent and colour into one word. */
  datatype Row = Row(left: Ref, right: Ref, parent: Ref, black: bool)

  type Mem = map<Ref, Row>

  function Get(row: Row, side: Side): (r: Ref) {
    if side == L then row.left else row.right
  }

  function Put(row: Row, side: Side, r: Ref): (row': Row) {
    if side == L then row.(left := r) else row.(right := r)
  }

  function RootOf(t: Tree): (r: Ref) {
    if t.Leaf? then NULL else t.ref
  }

  function RefOf(c: Ctx): (r: Ref) {
    if c.Top? then NULL else c.ref
  }

  /** The root pointer, if the focus is at `hole`. */
  function RootRef(c: Ctx, hole: Ref): (r: Ref) {
    if c.Top? then hole else RootRef(c.up, c.ref)
  }

  // ---------------------------------------------------------------- no node in two places

  function Refs(t: Tree): (s: set<Ref>) {
    if t.Leaf? then {} else Refs(t.left) + {t.ref} + Refs(t.right)
  }

  function CtxRefs(c: Ctx): (s: set<Ref>) {
    if c.Top? then {} else {c.ref} + Refs(c.other) + CtxRefs(c.up)
  }

  ghost predicate Sep(t: Tree) {
    t.Node? ==>
      && t.ref != NULL && t.ref !in Refs(t.left) && t.ref !in Refs(t.right) && Refs(t.left) !! Refs(t.right)
      && Sep(t.left) && Sep(t.right)
  }

  /** A context without repetitions, around a focus with the nodes `s`. */
  ghost predicate SepCtx(c: Ctx, s: set<Ref>) {
    c.Hole? ==>
      && c.ref != NULL && c.ref !in s && c.ref !in Refs(c.other) && Refs(c.other) !! s && Sep(c.other)
      && SepCtx(c.up, s + {c.ref} + Refs(c.other))
  }

  lemma {:induction false} SepCtxApart(c: Ctx, s: set<Ref>)
    requires SepCtx(c, s)
    ensures CtxRefs(c) !! s
    decreases c
  {
    if c.Hole? {
      SepCtxApart(c.up, s + {c.ref} + Refs(c.other));
    }
  }

  lemma {:induction false} NoNull(t: Tree)
    requires Sep(t)
    ensures NULL !in Refs(t)
  {
    if t.Node? {
      NoNull(t.left);
      NoNull(t.right);
    }
  }

  lemma {:induction false} NoNullCtx(c: Ctx, s: set<Ref>)
    requires SepCtx(c, s)
    ensures NULL !in CtxRefs(c)
    decreases c
  {
    if c.Hole? {
      NoNull(c.other);
      NoNullCtx(c.up, s + {c.ref} + Refs(c.other));
    }
  }

  // ---------------------------------------------------------------- representation

  /** The tree `t` is in memory, hanging below `p`. */
  ghost predicate Rep(m: Mem, t: Tree, p: Ref) {
    t.Node? ==>
      && t.ref in m && m[t.ref] == Row(RootOf(t.left), RootOf(t.right), p, t.black)
      && Rep(m, t.left, t.ref) && Rep(m, t.right, t.ref)
  }

  function RowOf(side: Side, near: Ref, far: Ref, p: Ref, black: bool): (row: Row) {
    if side == L then Row(near, far, p, black) else Row(far, near, p, black)
  }

  /** The context is in memory, with `hole` as the child where the focus belongs. */
  ghost predicate RepCtx(m: Mem, c: Ctx, hole: Ref) {
    c.Hole? ==>
      && c.ref in m && m[c.ref] == RowOf(c.side, hole, RootOf(c.other), RefOf(c.up), c.black)
      && Rep(m, c.other, c.ref) && RepCtx(m, c.up, c.ref)
  }

  /** The whole tree is in memory, and the focus is on `t`. */
  ghost predicate At(m: Mem, root: Ref, c: Ctx, t: Tree) {
    && Rep(m, t, RefOf(c)) && RepCtx(m, c, RootOf(t)) && root == RootRef(c, RootOf(t))
    && Sep(t) && SepCtx(c, Refs(t))
  }

  /** Memory holds a red-black tree with the nodes `order`, in this order. */
  ghost predicate HoldsRb(m: Mem, root: Ref, order: seq<Ref>) {
    exists t :: At(m, root, Top, t) && RbTree(t) && Inorder(t) == order
  }

  /** Moving the focus to the parent and back. */
  lemma FocusUp(m: Mem, root: Ref, c: Ctx, t: Tree)
    requires c.Hole?
    ensures At(m, root, c, t) <==> At(m, root, c.up, Mk(c.side, t, c.ref, c.black, c.other))
  {
    var w := Mk(c.side, t, c.ref, c.black, c.other);
    assert Refs(w) == Refs(t) + {c.ref} + Refs(c.other);
  }

  lemma FocusDown(m: Mem, root: Ref, c: Ctx, side: Side, near: Tree, r: Ref, b: bool, far: Tree)
    ensures At(m, root, c, Mk(side, near, r, b, far)) <==> At(m, root, Hole(side, r, b, far, c), near)
    ensures At(m, root, c, Mk(side, near, r, b, far)) <==> At(m, root, Hole(Flip(side), r, b, near, c), far)
  {
    hide At;
    FocusUp(m, root, Hole(side, r, b, far, c), near);
    FocusUp(m, root, Hole(Flip(side), r, b, near, c), far);
  }

  lemma {:induction false} FocusTop(m: Mem, root: Ref, c: Ctx, t: Tree)
    requires At(m, root, c, t)
    ensures At(m, root, Top, Plug(c, t))
    decreases c
  {
    hide At;
    if c.Hole? {
      FocusUp(m, root, c, t);
      FocusTop(m, root, c.up, Mk(c.side, t, c.ref, c.black, c.other));
    }
  }

  // ---------------------------------------------------------------- what a write leaves alone

  ghost predicate Outside(m: Mem, m': Mem, k: set<Ref>) {
    forall r :: r in m && r !in k ==> r in m' && m'[r] == m[r]
  }

  lemma {:induction false} RepKeep(m: Mem, m': Mem, t: Tree, p: Ref, k: set<Ref>)
    requires Rep(m, t, p) && Outside(m, m', k) && Refs(t) !! k
    ensures Rep(m', t, p)
  {
    if t.Node? {
      RepKeep(m, m', t.left, t.ref, k);
      RepKeep(m, m', t.right, t.ref, k);
    }
  }

  lemma {:induction false} RepCtxKeep(m: Mem, m': Mem, c: Ctx, hole: Ref, k: set<Ref>)
    requires RepCtx(m, c, hole) && Outside(m, m', k) && CtxRefs(c) !! k
    ensures RepCtx(m', c, hole)
    decreases c
  {
    if c.Hole? {
      RepKeep(m, m', c.other, c.ref, k);
      RepCtxKeep(m, m', c.up, c.ref, k);
    }
  }

  /** Hanging a tree below another node. */
  lemma Reparent(m: Mem, m': Mem, t: Tree, p: Ref, p': Ref, k: set<Ref>)
    requires Rep(m, t, p) && Sep(t) && Outside(m, m', k) && Refs(t) * k <= {RootOf(t)}
    requires t.Node? ==> t.ref in m' && m'[t.ref] == m[t.ref].(parent := p')
    ensures Rep(m', t, p')
  {
    if t.Node? {
      RepKeep(m, m', t.left, t.ref, k);
      RepKeep(m, m', t.right, t.ref, k);
    }
  }

  /** Giving a context another focus. */
  lemma Rehole(m: Mem, m': Mem, c: Ctx, s: set<Ref>, hole: Ref, hole': Ref, k: set<Ref>)
    requires RepCtx(m, c, hole) && SepCtx(c, s) && Outside(m, m', k) && CtxRefs(c) * k <= {RefOf(c)}
    requires c.Hole? ==> c.ref in m' && m'[c.ref] == Put(m[c.ref], c.side, hole')
    ensures RepCtx(m', c, hole')
  {
    if c.Hole? {
      RepKeep(m, m', c.other, c.ref, k);
      SepCtxApart(c.up, s + {c.ref} + Refs(c.other));
      RepCtxKeep(m, m', c.up, c.ref, k);
    }
  }

  // ---------------------------------------------------------------- single writes

  function SetParent(m: Mem, r: Ref, p: Ref): (m': Mem)
    requires r in m
  {
    m[r := m[r].(parent := p)]
  }

  function SetChild(m: Mem, r: Ref, side: Side, x: Ref): (m': Mem)
    requires r in m
  {
    m[r := Put(m[r], side, x)]
  }

  function SetColor(m: Mem, r: Ref, black: bool): (m': Mem)
    requires r in m
  {
    m[r := m[r].(black := black)]
  }

  /** Replaces the child `node` of `parent`, which is looked for on `side` first. */
  function Relink(m: Mem, parent: Ref, node: Ref, other: Ref, side: Side): (m': Mem)
    requires parent in m
  {
    if node == Get(m[parent], side) then SetChild(m, parent, side, other) else SetChild(m, parent, Flip(side), other)
  }

  /** Colouring the root of the focus. */
  lemma PaintFocus(m: Mem, root: Ref, c: Ctx, t: Tree, black: bool)
    requires At(m, root, c, t) && t.Node?
    ensures t.ref in m && At(SetColor(m, t.ref, black), root, c, Paint(t, black))
  {
    var m' := SetColor(m, t.ref, black);
    SepCtxApart(c, Refs(t));
    RepKeep(m, m', t.left, t.ref, {t.ref});
    RepKeep(m, m', t.right, t.ref, {t.ref});
    RepCtxKeep(m, m', c, t.ref, {t.ref});
  }

  // ---------------------------------------------------------------- rotation

  /** A node with a child on the far side, ready to be rotated towards `side`. */
  datatype Shape = Shape(side: Side, a: Tree, x: Ref, xb: bool, b: Tree, y: Ref, yb: bool, d: Tree) {
    function From(): Tree {
      Mk(side, a, x, xb, Mk(side, b, y, yb, d))
    }

    function To(): Tree {
      Mk(side, Mk(side, a, x, xb, b), y, yb, d)
    }

    ghost predicate Apart() {
      && x != NULL && y != NULL && x != y && Sep(a) && Sep(b) && Sep(d)
      && x !in Refs(a) && x !in Refs(b) && x !in Refs(d) && y !in Refs(a) && y !in Refs(b) && y !in Refs(d)
      && Refs(a) !! Refs(b) && Refs(a) !! Refs(d) && Refs(b) !! Refs(d)
    }

    function Nodes(): set<Ref> {
      Refs(a) + Refs(b) + Refs(d) + {x, y}
    }
  }

  lemma ShapeApart(s: Shape)
    ensures Sep(s.From()) <==> s.Apart()
    ensures Sep(s.To()) <==> s.Apart()
    ensures Refs(s.From()) == s.Nodes() && Refs(s.To()) == s.Nodes()
  {
  }

  lemma ShapeRep(m: Mem, s: Shape, p: Ref)
    ensures Rep(m, s.From(), p) <==>
      && s.x in m && m[s.x] == RowOf(s.side, RootOf(s.a), s.y, p, s.xb) && Rep(m, s.a, s.x)
      && s.y in m && m[s.y] == RowOf(s.side, RootOf(s.b), RootOf(s.d), s.x, s.yb)
      && Rep(m, s.b, s.y) && Rep(m, s.d, s.y)
    ensures Rep(m, s.To(), p) <==>
      && s.y in m && m[s.y] == RowOf(s.side, s.x, RootOf(s.d), p, s.yb) && Rep(m, s.d, s.y)
      && s.x in m && m[s.x] == RowOf(s.side, RootOf(s.a), RootOf(s.b), s.y, s.xb)
      && Rep(m, s.a, s.x) && Rep(m, s.b, s.x)
  {
  }

  /** __rb_rotate_left (towards L) and __rb_rotate_right (towards R). */
  method Rotate(m: Mem, root: Ref, node: Ref, side: Side, ghost c: Ctx, ghost s: Shape) returns (m': Mem, root': Ref)
    requires At(m, root, c, s.From()) && s.side == side && s.x == node
    ensures At(m', root', c, s.To())
  {
    hide At, Rep, RepCtx, Sep, SepCtx, Mk;
    RotationFacts(m, root, c, s);
    hide RootRef, Refs, CtxRefs;
    var other := Get(m[node], Flip(side));
    var parent := m[node].parent;
    var inner := Get(m[other], side);
    m', root' := SetChild(m, node, Flip(side), inner), root;
    if inner != NULL {
      m' := SetParent(m', inner, node);
    }
    m' := SetChild(m', other, side, node);
    m' := SetParent(m', other, parent);
    if parent != NULL {
      m' := Relink(m', parent, node, other, side);
    } else {
      root' := other;
    }
    m' := SetParent(m', node, other);
    Rotated(m, root, c, s, m', root');
  }

  /** What the code finds in memory before a rotation. */
  lemma RotationFacts(m: Mem, root: Ref, c: Ctx, s: Shape)
    requires At(m, root, c, s.From())
    ensures s.x in m && m[s.x] == RowOf(s.side, RootOf(s.a), s.y, RefOf(c), s.xb)
    ensures s.y in m && m[s.y] == RowOf(s.side, RootOf(s.b), RootOf(s.d), s.x, s.yb)
    ensures s.b.Node? ==> s.b.ref in m && s.b.ref != NULL && s.b.ref != s.x && s.b.ref != s.y && s.b.ref != RefOf(c)
    ensures s.x != NULL && s.y != NULL && s.x != s.y && s.x != RefOf(c) && s.y != RefOf(c)
    ensures c.Hole? ==> c.ref in m && c.ref != NULL && m[c.ref] == RowOf(c.side, s.x, RootOf(c.other), RefOf(c.up), c.black)
    ensures c.Hole? ==> RootOf(c.other) != s.x
  {
    ShapeRep(m, s, RefOf(c));
    ShapeApart(s);
    SepCtxApart(c, Refs(s.From()));
    if c.Hole? && c.other.Node? {
      assert c.other.ref in Refs(c.other);
    }
  }

  /** The rows after a rotation, all others being as before. */
  lemma Rotated(m: Mem, root: Ref, c: Ctx, s: Shape, m': Mem, root': Ref)
    requires At(m, root, c, s.From())
    requires Outside(m, m', {s.x, s.y, RootOf(s.b), RefOf(c)})
    requires s.x in m' && m'[s.x] == RowOf(s.side, RootOf(s.a), RootOf(s.b), s.y, s.xb)
    requires s.y in m' && m'[s.y] == RowOf(s.side, s.x, RootOf(s.d), RefOf(c), s.yb)
    requires s.b.Node? ==> s.b.ref in m && s.b.ref in m' && m'[s.b.ref] == m[s.b.ref].(parent := s.x)
    requires c.Hole? ==> c.ref in m && c.ref in m' && m'[c.ref] == Put(m[c.ref], c.side, s.y)
    requires root' == if c.Top? then s.y else root
    ensures At(m', root', c, s.To())
  {
    hide Rep, RepCtx, Sep, SepCtx, Outside, Shape.Apart, Shape.From, Shape.To, Mk;
    var k := {s.x, s.y, RootOf(s.b), RefOf(c)};
    RootsOf(s);
    ShapeRep(m, s, RefOf(c));
    ShapeRep(m', s, RefOf(c));
    ShapeApart(s);
    RotationApart(c, s);
    RepKeep(m, m', s.a, s.x, k);
    RepKeep(m, m', s.d, s.y, k);
    Reparent(m, m', s.b, s.y, s.x, k);
    Rehole(m, m', c, s.Nodes(), s.x, s.y, k);
    RootRefOnlyTop(c, s.x, s.y);
  }

  lemma RootsOf(s: Shape)
    ensures RootOf(s.From()) == s.x && RootOf(s.To()) == s.y
  {
  }

  lemma RootRefOnlyTop(c: Ctx, a: Ref, b: Ref)
    ensures c.Hole? ==> RootRef(c, a) == RootRef(c, b)
    ensures c.Top? ==> RootRef(c, a) == a
  {
  }

  lemma RotationApart(c: Ctx, s: Shape)
    requires Sep(s.From()) && SepCtx(c, Refs(s.From()))
    ensures var k := {s.x, s.y, RootOf(s.b), RefOf(c)};
            Refs(s.a) !! k && Refs(s.d) !! k && Refs(s.b) * k <= {RootOf(s.b)} && CtxRefs(c) * k <= {RefOf(c)}
    ensures Sep(s.b)
  {
    ShapeApart(s);
    SepCtxApart(c, s.Nodes());
    NoNull(s.a);
    NoNull(s.b);
    NoNull(s.d);
    NoNullCtx(c, s.Nodes());
    assert s.b.Node? ==> s.b.ref in Refs(s.b);
    assert c.Hole? ==> c.ref in CtxRefs(c);
  }
}
