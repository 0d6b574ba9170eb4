/**
Red-black trees as values, with a focus that can move: what the pointer algorithms of
util/fs-hasher/rbtree.c keep.  The source writes every step twice, for left and for right; here a
side is a parameter.
 */
module RbTrees {

  type Ref = nat
  const NULL: Ref := 0

  datatype Side = L | R

  function Flip(s: Side): (f: Side) {
    if s == L then R else L
  }

  datatype Tree = Leaf | Node(left: Tree, ref: Ref, black: bool, right: Tree)

  /** A node whose child on `side` is `near` and whose other child is `far`. */
  function Mk(side: Side, near: Tree, ref: Ref, black: bool, far: Tree): (t: Tree) {
    if side == L then Node(near, ref, black, far) else Node(far, ref, black, near)
  }

  function Child(t: Tree, side: Side): (c: Tree)
    requires t.Node?
  {
    if side == L then t.left else t.right
  }

  /** The rest of a tree around a focus: the focus is the child on `side` of `ref`. */
  datatype Ctx = Top | Hole(side: Side, ref: Ref, black: bool, other: Tree, up: Ctx)

  function Inorder(t: Tree): (s: seq<Ref>) {
    match t
    case Leaf => []
    case Node(l, r, _, rt) => Inorder(l) + [r] + Inorder(rt)
  }

  function Before(c: Ctx): (s: seq<Ref>) {
    match c
    case Top => []
    case Hole(side, r, _, other, up) => if side == L then Before(up) else Before(up) + Inorder(other) + [r]
  }

  function After(c: Ctx): (s: seq<Ref>) {
    match c
    case Top => []
    case Hole(side, r, _, other, up) => if side == L then [r] + Inorder(other) + After(up) else After(up)
  }

  /** All nodes in order: those before the focus, those in it, those after it. */
  function All(c: Ctx, t: Tree): (s: seq<Ref>) {
    Before(c) + Inorder(t) + After(c)
  }

  function Plug(c: Ctx, t: Tree): (w: Tree) {
    match c
    case Top => t
    case Hole(side, r, b, other, up) => Plug(up, Mk(side, t, r, b, other))
  }

  // ---------------------------------------------------------------- balance

  predicate IsBlack(t: Tree) {
    t.Leaf? || t.black
  }

  function Paint(t: Tree, black: bool): (p: Tree) {
    if t.Leaf? then t else t.(black := black)
  }

  /** No red node has a red child, and every path down has `h` black nodes. */
  ghost predicate RB(t: Tree, h: nat) {
    match t
    case Leaf => h == 0
    case Node(l, _, b, r) =>
      if b then h > 0 && RB(l, h - 1) && RB(r, h - 1)
      else IsBlack(l) && IsBlack(r) && RB(l, h) && RB(r, h)
  }

  /** The rest of a tree is in order for a focus with `h` black nodes on every path and a black root. */
  ghost predicate OkCtx(c: Ctx, h: nat) {
    match c
    case Top => true
    case Hole(_, _, b, other, up) =>
      && RB(other, h)
      && if b then OkCtx(up, h + 1) else IsBlack(other) && up.Hole? && up.black && OkCtx(up, h)
  }

  ghost predicate RbTree(t: Tree) {
    IsBlack(t) && exists h :: RB(t, h)
  }

  /** A focus may be red only below a black node. */
  ghost predicate Fits(c: Ctx, t: Tree) {
    IsBlack(t) || (c.Hole? && c.black)
  }

  lemma {:induction false} PlugIsRb(c: Ctx, t: Tree, h: nat)
    requires RB(t, h) && OkCtx(c, h) && Fits(c, t)
    ensures RbTree(Plug(c, t))
    decreases c
  {
    match c
    case Top =>
    case Hole(side, r, b, other, up) =>
      PlugIsRb(up, Mk(side, t, r, b, other), if b then h + 1 else h);
  }

  lemma {:induction false} UnplugIsRb(c: Ctx, t: Tree) returns (h: nat)
    requires RbTree(Plug(c, t))
    ensures RB(t, h) && OkCtx(c, h) && Fits(c, t)
    decreases c
  {
    match c
    case Top =>
      h :| RB(t, h);
    case Hole(side, r, b, other, up) =>
      var k := UnplugIsRb(up, Mk(side, t, r, b, other));
      h := if b then k - 1 else k;
  }

  lemma {:induction false} PlugOrder(c: Ctx, t: Tree)
    ensures Inorder(Plug(c, t)) == All(c, t)
    decreases c
  {
    match c
    case Top =>
    case Hole(side, r, b, other, up) =>
      PlugOrder(up, Mk(side, t, r, b, other));
      MoveUp(side, r, b, other, up, t);
  }

  /** Moving the focus does not change the order. */
  lemma MoveUp(side: Side, r: Ref, b: bool, other: Tree, up: Ctx, t: Tree)
    ensures All(Hole(side, r, b, other, up), t) == All(up, Mk(side, t, r, b, other))
  {
    hide Inorder;
    OrderOfMk(side, t, r, b, other);
    if side == L {
      Regroup(Before(up), Inorder(t), [r], Inorder(other), After(up));
    } else {
      Regroup(Before(up), Inorder(other), [r], Inorder(t), After(up));
    }
  }

  lemma OrderOfMk(side: Side, near: Tree, r: Ref, b: bool, far: Tree)
    ensures Inorder(Mk(side, near, r, b, far))
         == if side == L then Inorder(near) + [r] + Inorder(far) else Inorder(far) + [r] + Inorder(near)
  {
  }

  lemma Regroup(a: seq<Ref>, b: seq<Ref>, c: seq<Ref>, d: seq<Ref>, e: seq<Ref>)
    ensures a + b + (c + d + e) == a + (b + c + d) + e
    ensures (a + b + c) + d + e == a + (b + c + d) + e
  {
  }

  /** A rotation towards `side` keeps the order. */
  lemma RotationOrder(side: Side, a: Tree, x: Ref, xb: bool, b: Tree, y: Ref, yb: bool, d: Tree)
    ensures Inorder(Mk(side, a, x, xb, Mk(side, b, y, yb, d))) == Inorder(Mk(side, Mk(side, a, x, xb, b), y, yb, d))
  {
    hide Inorder, Mk;
    OrderOfMk(side, b, y, yb, d);
    OrderOfMk(side, a, x, xb, Mk(side, b, y, yb, d));
    OrderOfMk(side, a, x, xb, b);
    OrderOfMk(side, Mk(side, a, x, xb, b), y, yb, d);
    if side == L {
      Regroup(Inorder(a), [x], Inorder(b), [y], Inorder(d));
    } else {
      Regroup(Inorder(d), [y], Inorder(b), [x], Inorder(a));
    }
  }
}
