/** Taking a node out of a red-black tree (util/fs-hasher/rbtree.c: rb_erase). */
module RbRemove {
  import opened RbTrees
  import opened RbMemory
  import opened RbInsert
  import opened RbErase

  lemma {:induction false} SepCtxSub(c: Ctx, s: set<Ref>, s': set<Ref>)
    requires SepCtx(c, s) && s' <= s
    ensures SepCtx(c, s')
    decreases c
  {
    if c.Hole? {
      SepCtxSub(c.up, s + {c.ref} + Refs(c.other), s' + {c.ref} + Refs(c.other));
    }
  }

  // ---------------------------------------------------------------- a node with at most one child

  ghost predicate OneChild(t: Tree) {
    t.Node? && (t.left.Leaf? || t.right.Leaf?)
  }

  ghost function OnlyChild(t: Tree): Tree
    requires OneChild(t)
  {
    if t.left.Leaf? then t.right else t.left
  }

  /** The memory after hanging the only child below the parent. */
  lemma Bypassed(m: Mem, root: Ref, c: Ctx, t: Tree, m': Mem, root': Ref)
    requires At(m, root, c, t) && OneChild(t)
    requires Outside(m, m', {RootOf(OnlyChild(t)), RefOf(c)})
    requires var x := OnlyChild(t); x.Node? ==> x.ref in m && x.ref in m' && m'[x.ref] == m[x.ref].(parent := RefOf(c))
    requires c.Hole? ==> c.ref in m && c.ref in m' && m'[c.ref] == Put(m[c.ref], c.side, RootOf(OnlyChild(t)))
    requires root' == if c.Top? then RootOf(OnlyChild(t)) else root
    ensures At(m', root', c, OnlyChild(t))
  {
    var x := OnlyChild(t);
    var k := {RootOf(x), RefOf(c)};
    SepCtxApart(c, Refs(t));
    NoNull(x);
    NoNullCtx(c, Refs(t));
    assert x.Node? ==> x.ref in Refs(x);
    assert c.Hole? ==> c.ref in CtxRefs(c);
    Reparent(m, m', x, t.ref, RefOf(c), k);
    Rehole(m, m', c, Refs(t), t.ref, RootOf(x), k);
    SepCtxSub(c, Refs(t), Refs(x));
    RootRefOnlyTop(c, t.ref, RootOf(x));
  }

  lemma ParentReads(m: Mem, root: Ref, c: Ctx, t: Tree)
    requires At(m, root, c, t) && t.Node?
    ensures t.ref in m && m[t.ref] == Row(RootOf(t.left), RootOf(t.right), RefOf(c), t.black) && t.ref != NULL
    ensures c.Top? <==> RefOf(c) == NULL
    ensures c.Hole? ==> c.ref in m && c.ref != t.ref && (Get(m[c.ref], L) == t.ref <==> c.side == L)
    ensures forall s :: Child(t, s).Node? ==>
      && RootOf(Child(t, s)) in m && RootOf(Child(t, s)) != NULL
      && RootOf(Child(t, s)) != t.ref && RootOf(Child(t, s)) != RefOf(c)
    ensures t.left.Node? && t.right.Node? ==> t.left.ref != t.right.ref
  {
    assert t.ref in Refs(t);
    assert forall s :: Child(t, s).Node? ==> RootOf(Child(t, s)) in Refs(Child(t, s));
    if c.Hole? {
      assert c.other.Node? ==> c.other.ref in Refs(c.other);
    }
    NoNull(t);
    assert Rep(m, t.left, t.ref) && Rep(m, t.right, t.ref);
  }

  method Bypass(m: Mem, root: Ref, node: Ref, child: Ref, ghost c: Ctx, ghost t: Tree) returns (m': Mem, root': Ref)
    requires At(m, root, c, t) && OneChild(t) && node == t.ref && child == RootOf(OnlyChild(t))
    ensures At(m', root', c, OnlyChild(t))
  {
    hide At, Rep, RepCtx, Sep, SepCtx, Refs, CtxRefs, RootRef;
    ParentReads(m, root, c, t);
    ChildIs(t);
    var parent := m[node].parent;
    m', root' := m, root;
    if child != NULL {
      m' := SetParent(m', child, parent);
    }
    if parent != NULL {
      m' := Relink(m', parent, node, child, L);
    } else {
      root' := child;
    }
    Bypassed(m, root, c, t, m', root');
  }

  lemma ChildIs(t: Tree)
    requires OneChild(t)
    ensures OnlyChild(t) == Child(t, if t.left.Leaf? then R else L)
  {
  }

  /** Without a red node with at most one child the tree is still in order; without a black one it is short. */
  lemma AfterBypass(c: Ctx, t: Tree, h: nat)
    requires RB(t, h) && OkCtx(c, h) && OneChild(t)
    ensures t.black ==> h > 0 && Short(c, OnlyChild(t), h - 1)
    ensures !t.black ==> RbTree(Plug(c, OnlyChild(t)))
    ensures All(c, OnlyChild(t)) == Before(c) + Inorder(t.left) + Inorder(t.right) + After(c)
  {
    var x := OnlyChild(t);
    if t.black && !IsBlack(x) {
      assert RB(Paint(x, true), h);
    }
    if !t.black {
      assert x.Leaf? by {
        assert RB(Leaf, h) && h == 0;
      }
      PlugIsRb(c, x, h);
    }
    assert Before(c) + [] == Before(c) && Before(c) + Inorder(t.left) + [] == Before(c) + Inorder(t.left);
  }

  // ---------------------------------------------------------------- the path to the successor

  /** `c` leads from the focus up to `base`, by left children only. */
  ghost predicate Spine(c: Ctx, base: Ctx) {
    c == base || (c.Hole? && c.side == L && Spine(c.up, base))
  }

  /** The subtree at `base`, if `t` is at `c`. */
  ghost function PlugTo(c: Ctx, base: Ctx, t: Tree): Tree
    requires Spine(c, base)
    decreases c
  {
    if c == base then t else PlugTo(c.up, base, Mk(L, t, c.ref, c.black, c.other))
  }

  /** The same path, from another base. */
  ghost function Rebase(c: Ctx, base: Ctx, base': Ctx): Ctx
    requires Spine(c, base)
    decreases c
  {
    if c == base then base' else c.(up := Rebase(c.up, base, base'))
  }

  lemma {:induction false} FocusAlong(m: Mem, root: Ref, c: Ctx, base: Ctx, t: Tree)
    requires Spine(c, base)
    ensures At(m, root, c, t) <==> At(m, root, base, PlugTo(c, base, t))
    decreases c
  {
    hide At;
    if c != base {
      FocusUp(m, root, c, t);
      FocusAlong(m, root, c.up, base, Mk(L, t, c.ref, c.black, c.other));
    }
  }

  lemma {:induction false} RebasedPlug(c: Ctx, base: Ctx, base': Ctx, t: Tree)
    requires Spine(c, base) && Taller(base', base)
    ensures Spine(Rebase(c, base, base'), base') && PlugTo(Rebase(c, base, base'), base', t) == PlugTo(c, base, t)
    ensures c != base ==> Depth(Rebase(c, base, base')) > Depth(base')
    decreases c
  {
    if c != base {
      RebasedPlug(c.up, base, base', Mk(L, t, c.ref, c.black, c.other));
    }
  }

  ghost predicate Taller(base': Ctx, base: Ctx) {
    Depth(base') == Depth(base)
  }

  /** The base before and after its node is exchanged: only the address differs. */
  ghost predicate Swap(base: Ctx, base': Ctx) {
    base.Hole? && base.side == R && base'.Hole? && base' == base.(ref := base'.ref)
  }

  lemma {:induction false} RebasedOk(c: Ctx, base: Ctx, base': Ctx, h: nat)
    requires Spine(c, base) && Swap(base, base') && OkCtx(c, h)
    ensures OkCtx(Rebase(c, base, base'), h)
    ensures Rebase(c, base, base').Hole? && c.Hole? && Rebase(c, base, base').black == c.black
    decreases c
  {
    if c != base {
      RebasedOk(c.up, base, base', if c.black then h + 1 else h);
    }
  }

  lemma {:induction false} RebasedOrder(c: Ctx, base: Ctx, base': Ctx)
    requires Spine(c, base) && Swap(base, base')
    ensures Before(c) == Before(base) && Before(Rebase(c, base, base')) == Before(base')
    ensures After(Rebase(c, base, base')) == After(c)
    decreases c
  {
    if c != base {
      RebasedOrder(c.up, base, base');
    }
  }

  lemma {:induction false} SpineRefs(c: Ctx, base: Ctx)
    requires Spine(c, base)
    ensures CtxRefs(base) <= CtxRefs(c)
    decreases c
  {
    if c != base {
      SpineRefs(c.up, base);
    }
  }

  /** A path of some length does not end in the subtree's root, which therefore keeps its address. */
  lemma {:induction false} SameRoot(c: Ctx, base: Ctx, t: Tree, t': Tree)
    requires Spine(c, base) && c != base
    ensures PlugTo(c, base, t).Node? && PlugTo(c, base, t').Node? && PlugTo(c, base, t).ref == PlugTo(c, base, t').ref
    ensures PlugTo(c, base, t).ref in CtxRefs(c)
    decreases c
  {
    if c.up != base {
      SameRoot(c.up, base, Mk(L, t, c.ref, c.black, c.other), Mk(L, t', c.ref, c.black, c.other));
    }
  }

  /** `s` is the node of `r` without a left child that is reached by going left all the way. */
  ghost predicate Leftmost(m: Mem, root: Ref, base: Ctx, r: Tree, s: Ref, cs: Ctx, ts: Tree) {
    && Spine(cs, base) && At(m, root, cs, ts) && PlugTo(cs, base, ts) == r
    && ts.Node? && ts.left.Leaf? && ts.ref == s
  }

  /** Walks down from the right child to the leftmost node below it. */
  method Successor(m: Mem, root: Ref, right: Ref, ghost base: Ctx, ghost r: Tree) returns (s: Ref)
    requires At(m, root, base, r) && r.Node? && right == r.ref
    ensures exists cs, ts :: Leftmost(m, root, base, r, s, cs, ts)
  {
    hide At;
    s := right;
    ghost var cs, ts := base, r;
    ParentReads(m, root, cs, ts);
    LeftReads(ts, m, root, cs);
    while m[s].left != NULL
      invariant Spine(cs, base) && At(m, root, cs, ts) && PlugTo(cs, base, ts) == r
      invariant ts.Node? && ts.ref == s && s in m && m[s].left == RootOf(ts.left)
      invariant RootOf(ts.left) == NULL <==> ts.left.Leaf?
      decreases ts
    {
      FocusDown(m, root, cs, L, ts.left, ts.ref, ts.black, ts.right);
      s := m[s].left;
      LongerSpine(cs, base, ts);
      cs, ts := Hole(L, ts.ref, ts.black, ts.right, cs), ts.left;
      ParentReads(m, root, cs, ts);
      LeftReads(ts, m, root, cs);
    }
    assert Leftmost(m, root, base, r, s, cs, ts);
  }

  lemma LongerSpine(cs: Ctx, base: Ctx, ts: Tree)
    requires Spine(cs, base) && ts.Node?
    ensures var c := Hole(L, ts.ref, ts.black, ts.right, cs);
            Spine(c, base) && c != base && PlugTo(c, base, ts.left) == PlugTo(cs, base, ts)
  {
    SpineDepth(cs, base);
  }

  lemma {:induction false} SpineDepth(c: Ctx, base: Ctx)
    requires Spine(c, base)
    ensures Depth(c) >= Depth(base)
    decreases c
  {
    if c != base {
      SpineDepth(c.up, base);
    }
  }

  lemma LeftReads(t: Tree, m: Mem, root: Ref, c: Ctx)
    requires At(m, root, c, t) && t.Node?
    ensures RootOf(t.left) == NULL <==> t.left.Leaf?
  {
    assert t.left.Node? ==> t.left.ref in Refs(t);
    NoNull(t);
  }

  // ---------------------------------------------------------------- a node with two children

  /** The memory after another node took the place of the root of the focus. */
  lemma Substituted(m: Mem, root: Ref, c: Ctx, t: Tree, s: Ref, m': Mem, root': Ref)
    requires At(m, root, c, t) && t.Node? && s != NULL && s !in Refs(t) && s !in CtxRefs(c)
    requires Outside(m, m', {s, RootOf(t.left), RootOf(t.right), RefOf(c)})
    requires s in m' && m'[s] == Row(RootOf(t.left), RootOf(t.right), RefOf(c), t.black)
    requires t.left.Node? ==> t.left.ref in m && t.left.ref in m' && m'[t.left.ref] == m[t.left.ref].(parent := s)
    requires t.right.Node? ==> t.right.ref in m && t.right.ref in m' && m'[t.right.ref] == m[t.right.ref].(parent := s)
    requires c.Hole? ==> c.ref in m && c.ref in m' && m'[c.ref] == Put(m[c.ref], c.side, s)
    requires root' == if c.Top? then s else root
    ensures At(m', root', c, t.(ref := s))
  {
    var k := {s, RootOf(t.left), RootOf(t.right), RefOf(c)};
    SubstituteApart(c, t, s);
    Reparent(m, m', t.left, t.ref, s, k);
    Reparent(m, m', t.right, t.ref, s, k);
    Rehole(m, m', c, Refs(t), t.ref, s, k);
    SepCtxSub(c, Refs(t), Refs(t) - {t.ref});
    SepWith(c, Refs(t) - {t.ref}, s);
    assert Refs(t.(ref := s)) == Refs(t) - {t.ref} + {s};
    RootRefOnlyTop(c, t.ref, s);
  }

  lemma SubstituteApart(c: Ctx, t: Tree, s: Ref)
    requires Sep(t) && SepCtx(c, Refs(t)) && t.Node? && s != NULL && s !in Refs(t) && s !in CtxRefs(c)
    ensures var k := {s, RootOf(t.left), RootOf(t.right), RefOf(c)};
            && Refs(t.left) * k <= {RootOf(t.left)} && Refs(t.right) * k <= {RootOf(t.right)}
            && CtxRefs(c) * k <= {RefOf(c)}
  {
    SepCtxApart(c, Refs(t));
    NoNull(t);
    NoNullCtx(c, Refs(t));
    assert t.left.Node? ==> t.left.ref in Refs(t.left);
    assert t.right.Node? ==> t.right.ref in Refs(t.right);
    assert c.Hole? ==> c.ref in CtxRefs(c);
  }

  /** The memory after the right child, which has no left child, took the place of its parent. */
  lemma Adopted(m: Mem, root: Ref, c: Ctx, t: Tree, m': Mem, root': Ref)
    requires At(m, root, c, t) && t.Node? && t.left.Node? && t.right.Node? && t.right.left.Leaf?
    requires Outside(m, m', {t.right.ref, t.left.ref, RefOf(c)})
    requires var s := t.right.ref; s in m' && m'[s] == Row(t.left.ref, RootOf(t.right.right), RefOf(c), t.black)
    requires t.left.ref in m && t.left.ref in m' && m'[t.left.ref] == m[t.left.ref].(parent := t.right.ref)
    requires c.Hole? ==> c.ref in m && c.ref in m' && m'[c.ref] == Put(m[c.ref], c.side, t.right.ref)
    requires root' == if c.Top? then t.right.ref else root
    ensures At(m', root', c, Node(t.left, t.right.ref, t.black, t.right.right))
  {
    var s, x := t.right.ref, t.right.right;
    var k := {s, t.left.ref, RefOf(c)};
    var t' := Node(t.left, s, t.black, x);
    SepCtxApart(c, Refs(t));
    NoNull(t);
    NoNullCtx(c, Refs(t));
    assert Rep(m, t.right, t.ref) && Sep(t.right);
    assert t.left.ref in Refs(t.left) && s in Refs(t.right) && Refs(x) <= Refs(t.right);
    assert c.Hole? ==> c.ref in CtxRefs(c);
    Reparent(m, m', t.left, t.ref, s, k);
    RepKeep(m, m', x, s, k);
    Rehole(m, m', c, Refs(t), t.ref, s, k);
    SepCtxSub(c, Refs(t), Refs(t'));
    RootRefOnlyTop(c, t.ref, s);
  }

  /** The focus after a node with two children was taken out: where its successor was. */
  ghost function Vacated(cs: Ctx, base: Ctx, s: Ref): Ctx
    requires base.Hole? && Spine(cs, base)
  {
    Rebase(cs, base, base.(ref := s))
  }

  /** The successor is the right child itself. */
  method MoveChildUp(m: Mem, root: Ref, victim: Ref, s: Ref, ghost c: Ctx, ghost t: Tree) returns (m': Mem, root': Ref)
    requires At(m, root, c, t) && t.Node? && t.left.Node? && t.right.Node? && t.right.left.Leaf?
    requires victim == t.ref && s == t.right.ref
    ensures At(m', root', Hole(R, s, t.black, t.left, c), t.right.right)
  {
    hide At, Rep, RepCtx, Sep, SepCtx, Refs, CtxRefs, RootRef;
    ParentReads(m, root, c, t);
    BothChildren(t);
    FocusDown(m, root, c, L, t.left, t.ref, t.black, t.right);
    ParentReads(m, root, Hole(R, t.ref, t.black, t.left, c), t.right);
    var above := m[victim].parent;
    m', root' := m, root;
    if above != NULL {
      m' := Relink(m', above, victim, s, L);
    } else {
      root' := s;
    }
    m' := m'[s := m'[s].(parent := m'[victim].parent, black := m'[victim].black)];
    m' := SetChild(m', s, L, m'[victim].left);
    m' := SetParent(m', m'[victim].left, s);
    Adopted(m, root, c, t, m', root');
    FocusDown(m', root', c, L, t.left, s, t.black, t.right.right);
  }

  /** The addresses that take part when the successor lies deeper. */
  ghost predicate Deep(m: Mem, root: Ref, c: Ctx, t: Tree, cs: Ctx, ts: Tree) {
    && t.Node? && t.left.Node? && t.right.Node?
    && var base := Hole(R, t.ref, t.black, t.left, c);
    && Spine(cs, base) && cs != base && At(m, root, cs, ts) && PlugTo(cs, base, ts) == t.right
    && ts.Node? && ts.left.Leaf?
  }

  lemma DeepReads(m: Mem, root: Ref, c: Ctx, t: Tree, cs: Ctx, ts: Tree)
    requires At(m, root, c, t) && Deep(m, root, c, t, cs, ts)
    ensures var q, s, x := cs.ref, ts.ref, ts.right;
            && q in m && q != NULL && m[q].left == s && cs.side == L && m[s].parent == q
            && s != q && s != t.ref && s != t.left.ref && s != t.right.ref && s != RefOf(c)
            && q != t.ref && q != t.left.ref && q != RefOf(c)
            && (x.Node? ==> x.ref != s && x.ref != q && x.ref != t.ref && x.ref != t.left.ref && x.ref != t.right.ref && x.ref != RefOf(c))
            && s !in CtxRefs(cs) && t.left.ref in m && t.right.ref in m
  {
    var base := Hole(R, t.ref, t.black, t.left, c);
    var q, s, x := cs.ref, ts.ref, ts.right;
    assert cs.Hole? && cs.side == L && Spine(cs.up, base);
    SpineRefs(cs.up, base);
    SpineRefs(cs, base);
    SepCtxApart(cs, Refs(ts));
    SepCtxApart(cs.up, Refs(ts) + {q} + Refs(cs.other));
    SameRoot(cs, base, ts, ts);
    assert s in Refs(ts) && (x.Node? ==> x.ref in Refs(ts));
    assert t.left.ref in Refs(t.left) && Refs(t.left) <= CtxRefs(base);
    assert c.Hole? ==> c.ref in CtxRefs(c) && CtxRefs(c) <= CtxRefs(base);
    NoNullCtx(cs, Refs(ts));
    NoNull(ts);
    ParentReads(m, root, c, t);
    BothChildren(t);
  }

  /** The memory in which the successor is already out of its old place. */
  ghost function Unhooked(m: Mem, q: Ref, x: Ref): Mem
    requires q in m && (x != NULL ==> x in m)
  {
    SetChild(if x == NULL then m else SetParent(m, x, q), q, L, x)
  }

  lemma UnhookedIs(m: Mem, root: Ref, c: Ctx, t: Tree, cs: Ctx, ts: Tree)
    requires At(m, root, c, t) && Deep(m, root, c, t, cs, ts)
    ensures var base := Hole(R, t.ref, t.black, t.left, c);
            && cs.ref in m && (RootOf(ts.right) != NULL ==> RootOf(ts.right) in m)
            && var m1, r' := Unhooked(m, cs.ref, RootOf(ts.right)), PlugTo(cs, base, ts.right);
            && At(m1, root, c, t.(right := r')) && r'.Node? && r'.ref == t.right.ref
            && ts.ref !in Refs(t.(right := r')) && ts.ref !in CtxRefs(c)
  {
    hide At, Rep, RepCtx, Sep, SepCtx, RootRef;
    var base := Hole(R, t.ref, t.black, t.left, c);
    DeepReads(m, root, c, t, cs, ts);
    ParentReads(m, root, cs, ts);
    BothChildren(ts);
    var m1 := Unhooked(m, cs.ref, RootOf(ts.right));
    Bypassed(m, root, cs, ts, m1, root);
    FocusAlong(m1, root, cs, base, ts.right);
    SameRoot(cs, base, ts, ts.right);
    FocusDown(m1, root, c, L, t.left, t.ref, t.black, PlugTo(cs, base, ts.right));
    GoneFrom(m, root, cs, base, ts);
    SpineRefs(cs, base);
  }

  lemma GoneFrom(m: Mem, root: Ref, cs: Ctx, base: Ctx, ts: Tree)
    requires At(m, root, cs, ts) && ts.Node? && Spine(cs, base)
    ensures ts.ref !in Refs(PlugTo(cs, base, ts.right)) && ts.ref !in CtxRefs(cs)
  {
    SepCtxApart(cs, Refs(ts));
    assert ts.ref in Refs(ts);
    PlugToRefs(cs, base, ts.right);
  }

  lemma {:induction false} PlugToRefs(c: Ctx, base: Ctx, t: Tree)
    requires Spine(c, base)
    ensures Refs(PlugTo(c, base, t)) <= Refs(t) + CtxRefs(c)
    decreases c
  {
    if c != base {
      PlugToRefs(c.up, base, Mk(L, t, c.ref, c.black, c.other));
    }
  }

  /** A node that is not in the tree takes the place, the colour and the children of the victim. */
  method TakePlace(m: Mem, root: Ref, victim: Ref, s: Ref, ghost c: Ctx, ghost t: Tree) returns (m': Mem, root': Ref)
    requires At(m, root, c, t) && t.Node? && t.left.Node? && t.right.Node? && victim == t.ref
    requires s in m && s != NULL && s !in Refs(t) && s !in CtxRefs(c)
    ensures At(m', root', c, t.(ref := s))
  {
    hide At, Rep, RepCtx, Sep, SepCtx, RootRef;
    ParentReads(m, root, c, t);
    BothChildren(t);
    assert t.left.ref in Refs(t) && t.right.ref in Refs(t) && (c.Hole? ==> c.ref in CtxRefs(c));
    hide Refs, CtxRefs;
    var above := m[victim].parent;
    m', root' := m, root;
    if above != NULL {
      m' := Relink(m', above, victim, s, L);
    } else {
      root' := s;
    }
    m' := SetChild(m', s, R, m'[victim].right);
    m' := SetParent(m', m'[victim].right, s);
    m' := m'[s := m'[s].(parent := m'[victim].parent, black := m'[victim].black)];
    m' := SetChild(m', s, L, m'[victim].left);
    m' := SetParent(m', m'[victim].left, s);
    Substituted(m, root, c, t, s, m', root');
  }

  /**
  The successor lies deeper: it leaves its place to its right child and takes the victim's.  (The
  source writes the victim's parent first; that row is not touched by the other writes here.)
   */
  method MoveSuccessorUp(m: Mem, root: Ref, victim: Ref, s: Ref, ghost c: Ctx, ghost t: Tree, ghost cs: Ctx, ghost ts: Tree)
    returns (m': Mem, root': Ref)
    requires At(m, root, c, t) && Deep(m, root, c, t, cs, ts) && victim == t.ref && s == ts.ref
    ensures At(m', root', Vacated(cs, Hole(R, t.ref, t.black, t.left, c), s), ts.right)
  {
    hide At, Rep, RepCtx, Sep, SepCtx, Refs, CtxRefs, RootRef, Spine, PlugTo, Rebase;
    DeepReads(m, root, c, t, cs, ts);
    ParentReads(m, root, cs, ts);
    BothChildren(ts);
    UnhookedIs(m, root, c, t, cs, ts);
    var child, parent := m[s].right, m[s].parent;
    m' := m;
    if child != NULL {
      m' := SetParent(m', child, parent);
    }
    m' := SetChild(m', parent, L, child);
    ghost var base, base' := Hole(R, t.ref, t.black, t.left, c), Hole(R, s, t.black, t.left, c);
    ghost var t1 := t.(right := PlugTo(cs, base, ts.right));
    m', root' := TakePlace(m', root, victim, s, c, t1);
    FocusDown(m', root', c, L, t.left, s, t.black, t1.right);
    RebasedPlug(cs, base, base', ts.right);
    FocusAlong(m', root', Rebase(cs, base, base'), base', ts.right);
  }

  // ---------------------------------------------------------------- the whole removal

  /** What is left after taking out a node with two children, around the vacated place. */
  lemma AfterMove(c: Ctx, t: Tree, cs: Ctx, ts: Tree, h: nat)
    requires t.Node? && Spine(cs, Hole(R, t.ref, t.black, t.left, c)) && OneChild(ts) && ts.left.Leaf?
    requires PlugTo(cs, Hole(R, t.ref, t.black, t.left, c), ts) == t.right
    requires RB(ts, h) && OkCtx(cs, h)
    ensures var c' := Vacated(cs, Hole(R, t.ref, t.black, t.left, c), ts.ref);
            && (ts.black ==> h > 0 && Short(c', ts.right, h - 1))
            && (!ts.black ==> RbTree(Plug(c', ts.right)))
            && All(c', ts.right) == Before(c) + Inorder(t.left) + Inorder(t.right) + After(c)
  {
    var base := Hole(R, t.ref, t.black, t.left, c);
    var base' := base.(ref := ts.ref);
    RebasedOk(cs, base, base', h);
    AfterBypass(Vacated(cs, base, ts.ref), ts, h);
    MovedOrder(c, t, cs, ts);
  }

  lemma MovedOrder(c: Ctx, t: Tree, cs: Ctx, ts: Tree)
    requires t.Node? && Spine(cs, Hole(R, t.ref, t.black, t.left, c)) && ts.Node? && ts.left.Leaf?
    requires PlugTo(cs, Hole(R, t.ref, t.black, t.left, c), ts) == t.right
    ensures All(Vacated(cs, Hole(R, t.ref, t.black, t.left, c), ts.ref), ts.right)
         == Before(c) + Inorder(t.left) + Inorder(t.right) + After(c)
  {
    var base := Hole(R, t.ref, t.black, t.left, c);
    RebasedOrder(cs, base, base.(ref := ts.ref));
    PlugToOrder(cs, base, ts);
    assert All(cs, ts) == All(base, t.right);
    assert Inorder(ts) == [ts.ref] + Inorder(ts.right);
    hide Inorder;
    Assoc(Before(base), Inorder(ts), After(cs));
    Assoc(Before(base), Inorder(t.right), After(c));
    Cancel(Before(base), Inorder(ts) + After(cs), Inorder(t.right) + After(c));
    Join(Before(c) + Inorder(t.left), [ts.ref], Inorder(ts.right), After(cs), Inorder(t.right), After(c));
  }

  lemma {:induction false} PlugToOrder(c: Ctx, base: Ctx, t: Tree)
    requires Spine(c, base)
    ensures All(c, t) == All(base, PlugTo(c, base, t))
    decreases c
  {
    hide All, Inorder;
    if c != base {
      MoveUp(L, c.ref, c.black, c.other, c.up, t);
      PlugToOrder(c.up, base, Mk(L, t, c.ref, c.black, c.other));
    }
  }

  lemma Cancel(p: seq<Ref>, a: seq<Ref>, b: seq<Ref>)
    requires p + a == p + b
    ensures a == b
  {
    assert (p + a)[|p|..] == a && (p + b)[|p|..] == b;
  }

  lemma Assoc(p: seq<Ref>, a: seq<Ref>, b: seq<Ref>)
    ensures p + a + b == p + (a + b)
  {
  }

  lemma Join(p: seq<Ref>, s: seq<Ref>, x: seq<Ref>, after: seq<Ref>, r: seq<Ref>, end: seq<Ref>)
    requires (s + x) + after == r + end
    ensures p + s + x + after == p + r + end
  {
    assert p + s + x + after == p + ((s + x) + after);
    assert p + r + end == p + (r + end);
  }

  /** rb_erase: from one red-black tree to another, with exactly the one node gone. */
  method Erase(m: Mem, root: Ref, node: Ref, ghost c: Ctx, ghost t: Tree) returns (m': Mem, root': Ref)
    requires At(m, root, c, t) && t.Node? && t.ref == node && RbTree(Plug(c, t))
    ensures Inorder(Plug(c, t)) == Before(c) + Inorder(t.left) + [node] + Inorder(t.right) + After(c)
    ensures HoldsRb(m', root', Before(c) + Inorder(t.left) + Inorder(t.right) + After(c))
  {
    hide At, RB, OkCtx, Inorder, Refs, RbTree, Before, After, Vacated, PlugTo, Rebase, Spine;
    PlugOrder(c, t);
    OrderAround(c, t);
    ghost var h := UnplugIsRb(c, t);
    ParentReads(m, root, c, t);
    BothChildren(t);
    LeafReads(m, root, c, t);
    ghost var c', x;
    var child, parent, black;
    if m[node].left == NULL || m[node].right == NULL {
      child := if m[node].left == NULL then m[node].right else m[node].left;
      parent, black := m[node].parent, m[node].black;
      m', root' := Bypass(m, root, node, child, c, t);
      AfterBypass(c, t, h);
      c', x := c, OnlyChild(t);
    } else {
      ghost var base := Hole(R, t.ref, t.black, t.left, c);
      FocusDown(m, root, c, L, t.left, t.ref, t.black, t.right);
      var s := Successor(m, root, m[node].right, base, t.right);
      ghost var cs, ts :| Leftmost(m, root, base, t.right, s, cs, ts);
      ParentReads(m, root, cs, ts);
      child, parent, black := m[s].right, m[s].parent, m[s].black;
      var top := parent == node;
      SuccessorPlace(m, root, c, t, cs, ts);
      h := SuccessorIsRb(c, t, cs, ts);
      AfterMove(c, t, cs, ts, h);
      if top {
        parent := s;
        m', root' := MoveChildUp(m, root, node, s, c, t);
      } else {
        m', root' := MoveSuccessorUp(m, root, node, s, c, t, cs, ts);
      }
      c', x := Vacated(cs, base, s), ts.right;
    }
    if black {
      m', root' := EraseColor(m', root', child, parent, c', x, h - 1);
    } else {
      FocusTop(m', root', c', x);
      PlugOrder(c', x);
      assert At(m', root', Top, Plug(c', x));
    }
  }

  lemma OrderAround(c: Ctx, t: Tree)
    requires t.Node?
    ensures All(c, t) == Before(c) + Inorder(t.left) + [t.ref] + Inorder(t.right) + After(c)
  {
    hide Before, After;
    var l, r := Inorder(t.left), Inorder(t.right);
    assert Inorder(t) == l + [t.ref] + r;
    assert Before(c) + (l + [t.ref] + r) == Before(c) + l + [t.ref] + r;
  }

  lemma LeafReads(m: Mem, root: Ref, c: Ctx, t: Tree)
    requires At(m, root, c, t) && t.Node?
    ensures RootOf(t.left) == NULL <==> t.left.Leaf?
    ensures RootOf(t.right) == NULL <==> t.right.Leaf?
  {
    assert t.left.Node? ==> t.left.ref in Refs(t);
    assert t.right.Node? ==> t.right.ref in Refs(t);
    NoNull(t);
  }

  /** Where the successor was found: right below the victim, or deeper. */
  lemma SuccessorPlace(m: Mem, root: Ref, c: Ctx, t: Tree, cs: Ctx, ts: Tree)
    requires At(m, root, c, t) && t.Node? && t.left.Node? && t.right.Node?
    requires Spine(cs, Hole(R, t.ref, t.black, t.left, c)) && At(m, root, cs, ts)
    requires PlugTo(cs, Hole(R, t.ref, t.black, t.left, c), ts) == t.right && ts.Node? && ts.left.Leaf?
    ensures var base := Hole(R, t.ref, t.black, t.left, c);
            && ts.ref in m && OneChild(ts) && OnlyChild(ts) == ts.right
            && (m[ts.ref].parent == t.ref <==> cs == base)
            && (cs == base ==> ts == t.right && Vacated(cs, base, ts.ref) == Hole(R, ts.ref, t.black, t.left, c))
            && (cs != base ==> Deep(m, root, c, t, cs, ts) && cs.Hole? && RefOf(Vacated(cs, base, ts.ref)) == cs.ref)
  {
    hide RB, OkCtx;
    var base := Hole(R, t.ref, t.black, t.left, c);
    if cs != base {
      DeepReads(m, root, c, t, cs, ts);
    }
  }

  lemma SuccessorIsRb(c: Ctx, t: Tree, cs: Ctx, ts: Tree) returns (h: nat)
    requires t.Node? && RbTree(Plug(c, t)) && Spine(cs, Hole(R, t.ref, t.black, t.left, c))
    requires PlugTo(cs, Hole(R, t.ref, t.black, t.left, c), ts) == t.right
    ensures RB(ts, h) && OkCtx(cs, h)
  {
    var base := Hole(R, t.ref, t.black, t.left, c);
    PlugAlong(cs, base, ts);
    h := UnplugIsRb(cs, ts);
  }

  lemma {:induction false} PlugAlong(c: Ctx, base: Ctx, t: Tree)
    requires Spine(c, base)
    ensures Plug(c, t) == Plug(base, PlugTo(c, base, t))
    decreases c
  {
    if c != base {
      PlugAlong(c.up, base, Mk(L, t, c.ref, c.black, c.other));
    }
  }
}
