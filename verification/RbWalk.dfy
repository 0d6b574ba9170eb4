/** Walking a red-black tree in order (util/fs-hasher/rbtree.c: rb_first, rb_last, rb_next, rb_prev). */
module RbWalk {
  import opened RbTrees
  import opened RbMemory
  import opened RbInsert
  import opened RbErase
  import opened RbRemove

  /** The node of `s` closest to its beginning (towards L) or to its end (towards R). */
  ghost function Outermost(s: seq<Ref>, side: Side): Ref {
    if s == [] then NULL else if side == L then s[0] else s[|s| - 1]
  }

  /** What comes after the focus (towards R) or before it (towards L). */
  ghost function Beyond(c: Ctx, t: Tree, side: Side): seq<Ref>
    requires t.Node?
  {
    if side == R then Inorder(t.right) + After(c) else Before(c) + Inorder(t.left)
  }

  /** What lies outside the focus on one side. */
  ghost function Out(c: Ctx, side: Side): seq<Ref> {
    if side == R then After(c) else Before(c)
  }

  /** On which side the parent has the focus. */
  lemma SideReads(m: Mem, root: Ref, c: Ctx, t: Tree, side: Side)
    requires At(m, root, c, t) && t.Node?
    ensures c.Hole? ==> c.ref in m && (t.ref == Get(m[c.ref], side) <==> c.side == side)
  {
    assert t.ref in Refs(t);
    if c.Hole? {
      assert c.other.Node? ==> c.other.ref in Refs(c.other);
      NoNull(t);
    }
  }

  lemma OrderHasRoot(t: Tree)
    ensures Inorder(t) == [] <==> t.Leaf?
  {
  }

  /** Goes down on one side as far as possible. */
  method Extreme(m: Mem, root: Ref, node: Ref, side: Side, ghost c: Ctx, ghost t: Tree) returns (r: Ref)
    requires At(m, root, c, t) && t.Node? && node == t.ref
    ensures r == Outermost(Inorder(t), side)
  {
    hide At, Before, After;
    r := node;
    ghost var c', t' := c, t;
    ParentReads(m, root, c', t');
    LeafReads(m, root, c', t');
    while Get(m[r], side) != NULL
      invariant At(m, root, c', t') && t'.Node? && t'.ref == r && r in m && Get(m[r], side) == RootOf(Child(t', side))
      invariant RootOf(Child(t', side)) == NULL <==> Child(t', side).Leaf?
      invariant Outermost(Inorder(t'), side) == Outermost(Inorder(t), side)
      decreases t'
    {
      r := Get(m[r], side);
      SplitSibling(t', side);
      FocusDown(m, root, c', side, Child(t', side), t'.ref, t'.black, Child(t', Flip(side)));
      OuterIsChild(t', side);
      c', t' := Hole(side, t'.ref, t'.black, Child(t', Flip(side)), c'), Child(t', side);
      ParentReads(m, root, c', t');
      LeafReads(m, root, c', t');
    }
    OuterIsRoot(t', side);
  }

  lemma OuterIsChild(t: Tree, side: Side)
    requires t.Node? && Child(t, side).Node?
    ensures Outermost(Inorder(t), side) == Outermost(Inorder(Child(t, side)), side)
  {
    OrderHasRoot(Child(t, side));
  }

  lemma OuterIsRoot(t: Tree, side: Side)
    requires t.Node? && Child(t, side).Leaf?
    ensures Outermost(Inorder(t), side) == t.ref
  {
  }

  /** rb_first (towards L) and rb_last (towards R). */
  method End(m: Mem, root: Ref, side: Side, ghost t: Tree) returns (r: Ref)
    requires At(m, root, Top, t)
    ensures r == Outermost(Inorder(t), side)
  {
    NodeReads(m, root, Top, t);
    if root == NULL {
      return NULL;
    }
    r := Extreme(m, root, root, side, Top, t);
  }

  /** rb_next (towards R) and rb_prev (towards L): the neighbour in the order, or none. */
  method Neighbour(m: Mem, root: Ref, node: Ref, side: Side, ghost c: Ctx, ghost t: Tree) returns (r: Ref)
    requires At(m, root, c, t) && t.Node? && node == t.ref
    ensures r == Outermost(Beyond(c, t, side), Flip(side))
  {
    hide At, Inorder;
    ParentReads(m, root, c, t);
    LeafReads(m, root, c, t);
    if m[node].parent == node {
      return NULL;
    }
    var child := Get(m[node], side);
    BothChildren(t);
    OrderHasRoot(Child(t, side));
    if child != NULL {
      SplitSibling(t, side);
      FocusDown(m, root, c, side, Child(t, side), t.ref, t.black, Child(t, Flip(side)));
      r := Extreme(m, root, child, Flip(side), Hole(side, t.ref, t.black, Child(t, Flip(side)), c), Child(t, side));
      return;
    }
    var n := node;
    ghost var c', t' := c, t;
    SideReads(m, root, c', t', side);
    r := m[n].parent;
    while r != NULL && n == Get(m[r], side)
      invariant At(m, root, c', t') && t'.Node? && t'.ref == n && n in m && r == m[n].parent == RefOf(c')
      invariant (r == NULL <==> c'.Top?) && (c'.Hole? ==> r in m && (n == Get(m[r], side) <==> c'.side == side))
      invariant Out(c', side) == Out(c, side)
      decreases Depth(c')
    {
      FocusUp(m, root, c', t');
      n := r;
      MkFacts(c'.side, t', c'.ref, c'.black, c'.other);
      c', t' := c'.up, Mk(c'.side, t', c'.ref, c'.black, c'.other);
      ParentReads(m, root, c', t');
      SideReads(m, root, c', t', side);
      r := m[n].parent;
    }
  }
}
