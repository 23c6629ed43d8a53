/**
The memory structure behind `src/common/rbtree.c`, and the tree algebra its proofs use.

A tree in memory is described by a ghost value: `Tree` says which node sits where and with
which colour, and `Ctx` is a tree with one hole in it, written from the hole upwards.
`At` and `CellIn` give the cell such a value assigns to a node, found by searching for the
node's key, and `Fits` says that the memory holds all these cells. Search order and the
red-black rules are plain predicates on the values.
*/
module RbShape {
  import opened Basics

  /** A node: its address, and where the caller's comparator places it, so that `cmp(x, y)`
      is `x.key < y.key`. */
  datatype Ptr = Ptr(addr: nat, key: real)

  const NULL: Ptr := Ptr(0, 0.0)

  /** `struct rb_node_`, with `__rb_parent_color` split into its two fields. */
  datatype Cell = Cell(left: Ptr, right: Ptr, parent: Ptr, red: bool)

  type Mem = map<Ptr, Cell>

  datatype Tree =
    | Leaf
    | Bin(l: Tree, n: Ptr, red: bool, r: Tree)

  /** A tree with a hole: `InLeft` when the hole is in the left subtree of `n`. `Top` carries
      open bounds for the keys of the whole tree. */
  datatype Ctx =
    | Top(lo: real, hi: real)
    | InLeft(up: Ctx, n: Ptr, red: bool, r: Tree)
    | InRight(up: Ctx, n: Ptr, red: bool, l: Tree)

  ghost function RootOf(t: Tree): Ptr {
    if t.Leaf? then NULL else t.n
  }

  /** The parent pointer of a node in the hole. */
  ghost function Above(c: Ctx): Ptr {
    if c.Top? then NULL else c.n
  }

  /** The root pointer of the whole tree when `hole` fills the hole. */
  ghost function TopOf(c: Ctx, hole: Ptr): Ptr {
    if c.Top? then hole else TopOf(c.up, c.n)
  }

  /** The same tree with another colour at its root. */
  ghost function Tint(t: Tree, red: bool): Tree {
    if t.Leaf? then t else t.(red := red)
  }

  // ----- search order

  ghost predicate Ordered(t: Tree, lo: real, hi: real) {
    match t
    case Leaf => true
    case Bin(l, n, _, r) => n != NULL && lo < n.key < hi && Ordered(l, lo, n.key) && Ordered(r, n.key, hi)
  }

  ghost function Lo(c: Ctx): real {
    match c
    case Top(lo, _) => lo
    case InLeft(up, _, _, _) => Lo(up)
    case InRight(_, n, _, _) => n.key
  }

  ghost function Hi(c: Ctx): real {
    match c
    case Top(_, hi) => hi
    case InLeft(_, n, _, _) => n.key
    case InRight(up, _, _, _) => Hi(up)
  }

  ghost predicate CtxOrdered(c: Ctx) {
    match c
    case Top(_, _) => true
    case InLeft(up, n, _, r) => n != NULL && Lo(up) < n.key < Hi(up) && Ordered(r, n.key, Hi(up)) && CtxOrdered(up)
    case InRight(up, n, _, l) => n != NULL && Lo(up) < n.key < Hi(up) && Ordered(l, Lo(up), n.key) && CtxOrdered(up)
  }

  lemma {:induction false} TintOrdered(t: Tree, red: bool, lo: real, hi: real)
    ensures Ordered(Tint(t, red), lo, hi) == Ordered(t, lo, hi)
  {
  }

  // ----- what the memory holds

  /** The cell of `n` in a tree whose root has parent `par`. */
  ghost function At(t: Tree, par: Ptr, n: Ptr): Option<Cell> {
    match t
    case Leaf => None
    case Bin(l, x, red, r) =>
      if n == x then Some(Cell(RootOf(l), RootOf(r), par, red))
      else if n.key < x.key then At(l, x, n) else if x.key < n.key then At(r, x, n) else None
  }

  /** The cell of `n` in a context whose hole is filled by the pointer `hole`. */
  ghost function CtxAt(c: Ctx, hole: Ptr, n: Ptr): Option<Cell> {
    match c
    case Top(_, _) => None
    case InLeft(up, x, red, r) =>
      if n == x then Some(Cell(hole, RootOf(r), Above(up), red))
      else if n.key == x.key then None
      else if x.key < n.key < Hi(up) then At(r, x, n)
      else CtxAt(up, x, n)
    case InRight(up, x, red, l) =>
      if n == x then Some(Cell(RootOf(l), hole, Above(up), red))
      else if n.key == x.key then None
      else if Lo(up) < n.key < x.key then At(l, x, n)
      else CtxAt(up, x, n)
  }

  ghost function CellIn(c: Ctx, t: Tree, n: Ptr): Option<Cell> {
    if Lo(c) < n.key < Hi(c) then At(t, Above(c), n) else CtxAt(c, RootOf(t), n)
  }

  ghost predicate AllOrdered(c: Ctx, t: Tree) {
    CtxOrdered(c) && Ordered(t, Lo(c), Hi(c))
  }

  /** The memory, with root pointer `top`, holds the tree `t` in the context `c`, whose nodes
      together are `all`. */
  ghost predicate Fits(m: Mem, c: Ctx, t: Tree, top: Ptr, all: set<Ptr>) {
    && AllOrdered(c, t) && TopOf(c, RootOf(t)) == top && NULL !in m
    && forall n :: Fitting(m, n, CellIn(c, t, n), all)
  }

  ghost predicate Fitting(m: Mem, n: Ptr, cell: Option<Cell>, all: set<Ptr>) {
    && (n in all <==> cell.Some?)
    && (cell.Some? ==> n in m && m[n] == cell.value)
  }

  /** No cell outside `all` has changed. */
  ghost predicate Frame(m: Mem, m': Mem, all: set<Ptr>) {
    forall n :: n in m && n !in all ==> n in m' && m'[n] == m[n]
  }

  lemma {:induction false} MoveUp(c: Ctx, l: Tree, x: Ptr, red: bool, r: Tree)
    requires AllOrdered(c, Bin(l, x, red, r))
    ensures AllOrdered(InLeft(c, x, red, r), l) && AllOrdered(InRight(c, x, red, l), r)
    ensures forall n :: CellIn(InLeft(c, x, red, r), l, n) == CellIn(c, Bin(l, x, red, r), n)
    ensures forall n :: CellIn(InRight(c, x, red, l), r, n) == CellIn(c, Bin(l, x, red, r), n)
  {
  }

  lemma {:induction false} AtParent(t: Tree, par: Ptr, par': Ptr, n: Ptr)
    ensures t.Leaf? || n != t.n ==> At(t, par', n) == At(t, par, n)
    ensures t.Bin? && n == t.n ==> At(t, par, n).Some? && At(t, par', n) == Some(At(t, par, n).value.(parent := par'))
  {
  }

  lemma {:induction false} Absent(t: Tree, par: Ptr, n: Ptr, lo: real, hi: real)
    requires Ordered(t, lo, hi) && !(lo < n.key < hi)
    ensures At(t, par, n) == None
    decreases t
  {
    if t.Bin? {
      Absent(t.l, t.n, n, lo, t.n.key);
      Absent(t.r, t.n, n, t.n.key, hi);
    }
  }

  // ----- cells of a piece that is hung elsewhere

  /** The cells of a subtree when its root gets the parent `par'` and the colour `red`. */
  lemma {:induction false} Regraft(t: Tree, par: Ptr, par': Ptr, red: bool, n: Ptr)
    ensures t.Leaf? || n != t.n ==> At(Tint(t, red), par', n) == At(t, par, n)
    ensures t.Bin? && n == t.n ==>
      At(t, par, n).Some? && At(Tint(t, red), par', n) == Some(At(t, par, n).value.(parent := par', red := red))
  {
  }

  /** The cells of a context when its hole is filled by `to` instead of `from`. */
  lemma {:induction false} Refill(c: Ctx, from: Ptr, to: Ptr, n: Ptr)
    requires CtxOrdered(c)
    ensures c.Top? || n != c.n ==> CtxAt(c, to, n) == CtxAt(c, from, n)
    ensures !c.Top? && n == c.n ==> !(Lo(c) < n.key < Hi(c)) && CtxAt(c, from, n).Some?
    ensures c.InLeft? && n == c.n ==>
        CtxAt(c, from, n).value.left == from && CtxAt(c, to, n) == Some(CtxAt(c, from, n).value.(left := to))
    ensures c.InRight? && n == c.n ==>
        CtxAt(c, from, n).value.right == from && CtxAt(c, to, n) == Some(CtxAt(c, from, n).value.(right := to))
    ensures c.InRight? && n == c.n && Lo(c) < from.key < Hi(c) && from != NULL ==> CtxAt(c, from, n).value.left != from
  {
  }

  // ----- reading the memory and moving about in it

  /** From `m` to `m'`, only the cells of the given nodes change. */
  ghost predicate Changes(m: Mem, m': Mem, a: Ptr, b: Ptr, c: Ptr := NULL, d: Ptr := NULL, e: Ptr := NULL,
                          f: Ptr := NULL) {
    && NULL !in m'
    && forall n :: n in m && n != a && n != b && n != c && n != d && n != e && n != f ==> n in m' && m'[n] == m[n]
  }

  /** The pointer in the hole is `hole`, and a caller that looks for it finds the right side. */
  ghost predicate PointsTo(m: Mem, c: Ctx, top: Ptr, hole: Ptr) {
    if c.Top? then top == hole
    else c.n != NULL && c.n in m && (m[c.n].left == hole <==> c.InLeft?) && (m[c.n].right == hole || c.InLeft?)
  }

  /** The memory has come to hold `t` in the context `c`, without a change outside `all`. */
  ghost predicate Rebuilt(m: Mem, m': Mem, c: Ctx, t: Tree, top: Ptr, all: set<Ptr>) {
    Fits(m', c, t, top, all) && Frame(m, m', all)
  }

  /** What a node's fields must be. */
  lemma {:induction false} Read(m: Mem, c: Ctx, t: Tree, top: Ptr, all: set<Ptr>)
    requires Fits(m, c, t, top, all) && t.Bin?
    ensures t.n != NULL && t.n in m && t.n in all && m[t.n] == Cell(RootOf(t.l), RootOf(t.r), Above(c), t.red)
    ensures PointsTo(m, c, top, t.n) && Lo(c) < t.n.key < Hi(c)
    ensures !c.Top? ==> !(Lo(c) < c.n.key < Hi(c))
  {
    assert Fitting(m, t.n, CellIn(c, t, t.n), all) && Fitting(m, Above(c), CellIn(c, t, Above(c)), all);
    Refill(c, t.n, t.n, Above(c));
  }

  lemma {:induction false} Descend(m: Mem, c: Ctx, t: Tree, top: Ptr, all: set<Ptr>)
    requires Fits(m, c, t, top, all) && t.Bin?
    ensures Fits(m, InLeft(c, t.n, t.red, t.r), t.l, top, all) && Fits(m, InRight(c, t.n, t.red, t.l), t.r, top, all)
  {
    MoveUp(c, t.l, t.n, t.red, t.r);
    forall n ensures Fitting(m, n, CellIn(c, t, n), all) { }
  }

  /** The fields of a node, and of its two children. */
  lemma {:induction false} ReadNode(m: Mem, c: Ctx, t: Tree, top: Ptr, all: set<Ptr>)
    requires Fits(m, c, t, top, all) && t.Bin?
    ensures t.n != NULL && t.n in m && m[t.n] == Cell(RootOf(t.l), RootOf(t.r), Above(c), t.red)
    ensures t.l.Bin? ==>
        t.l.n in m && t.l.n != NULL && m[t.l.n].red == t.l.red && m[t.l.n].parent == t.n && t.l.n != t.n &&
          t.l.n != Above(c)
    ensures t.r.Bin? ==>
        t.r.n in m && t.r.n != NULL && m[t.r.n].red == t.r.red && m[t.r.n].parent == t.n && t.r.n != t.n &&
          t.r.n != Above(c)
    ensures RootOf(t.l) == RootOf(t.r) ==> t.l.Leaf? && t.r.Leaf?
  {
    Read(m, c, t, top, all);
    Descend(m, c, t, top, all);
    if t.l.Bin? { Read(m, InLeft(c, t.n, t.red, t.r), t.l, top, all); }
    if t.r.Bin? { Read(m, InRight(c, t.n, t.red, t.l), t.r, top, all); }
  }

  /** The tree rooted at the node above the hole, when `t` fills the hole. */
  ghost function Fill(c: Ctx, t: Tree): Tree
    requires !c.Top?
  {
    if c.InLeft? then Bin(t, c.n, c.red, c.r) else Bin(c.l, c.n, c.red, t)
  }

  lemma {:induction false} Ascend(m: Mem, c: Ctx, t: Tree, top: Ptr, all: set<Ptr>)
    requires Fits(m, c, t, top, all) && !c.Top?
    ensures Fits(m, c.up, Fill(c, t), top, all)
  {
    var t' := Fill(c, t);
    MoveUp(c.up, t'.l, c.n, c.red, t'.r);
    forall n ensures Fitting(m, n, CellIn(c.up, t', n), all) {
      assert Fitting(m, n, CellIn(c, t, n), all);
    }
  }

  // ----- the red-black rules

  ghost predicate Black(t: Tree) {
    t.Leaf? || !t.red
  }

  /** `t` obeys the colour rules, and every path down to a leaf meets `h` black nodes. */
  ghost predicate Rb(t: Tree, h: nat) {
    match t
    case Leaf => h == 0
    case Bin(l, _, red, r) =>
      if red then Black(l) && Black(r) && Rb(l, h) && Rb(r, h)
      else h > 0 && Rb(l, h - 1) && Rb(r, h - 1)
  }

  /** A red root may stand in the hole of `c`. */
  ghost predicate RedFits(c: Ctx) {
    !c.Top? && !c.red
  }

  /** Filling the hole of `c` with a black-rooted tree of black height `h` gives a
      red-black tree with a black root. */
  ghost predicate CtxRb(c: Ctx, h: nat) {
    match c
    case Top(_, _) => true
    case InLeft(up, _, red, r) =>
      && Rb(r, h) && CtxRb(up, if red then h else h + 1)
      && (red ==> Black(r) && RedFits(up))
    case InRight(up, _, red, l) =>
      && Rb(l, h) && CtxRb(up, if red then h else h + 1)
      && (red ==> Black(l) && RedFits(up))
  }

  ghost predicate RedBlack(t: Tree) {
    Black(t) && exists h: nat :: Rb(t, h)
  }

  // ----- the nodes of a tree

  ghost function Nodes(t: Tree): set<Ptr> {
    if t.Leaf? then {} else Nodes(t.l) + {t.n} + Nodes(t.r)
  }

  lemma {:induction false} AtNodes(t: Tree, par: Ptr, n: Ptr, lo: real, hi: real)
    requires Ordered(t, lo, hi)
    ensures At(t, par, n).Some? <==> n in Nodes(t)
    ensures n in Nodes(t) ==> lo < n.key < hi && n != NULL
    decreases t
  {
    if t.Bin? {
      AtNodes(t.l, t.n, n, lo, t.n.key);
      AtNodes(t.r, t.n, n, t.n.key, hi);
    }
  }

  lemma {:induction false} AllNodes(m: Mem, c: Ctx, t: Tree, top: Ptr, all: set<Ptr>)
    requires c.Top? && Fits(m, c, t, top, all)
    ensures all == Nodes(t)
  {
    forall n ensures n in all <==> n in Nodes(t) {
      assert Fitting(m, n, CellIn(c, t, n), all);
      AtNodes(t, NULL, n, Lo(c), Hi(c));
    }
  }

  // ----- from a focus to the whole tree, and back

  ghost function Plug(c: Ctx, t: Tree): Tree
    decreases c
  {
    if c.Top? then t else Plug(c.up, Fill(c, t))
  }

  ghost function Outermost(c: Ctx): Ctx {
    if c.Top? then c else Outermost(c.up)
  }

  /** A focus in a red-black tree. */
  ghost predicate Sound(c: Ctx, t: Tree, h: nat) {
    CtxRb(c, h) && Rb(t, h) && (Black(t) || RedFits(c))
  }

  lemma {:induction false} Close(m: Mem, c: Ctx, t: Tree, top: Ptr, all: set<Ptr>, h: nat)
    requires Fits(m, c, t, top, all) && Sound(c, t, h)
    ensures Fits(m, Outermost(c), Plug(c, t), top, all) && RedBlack(Plug(c, t)) && Nodes(Plug(c, t)) == all
    decreases c
  {
    if c.Top? {
      AllNodes(m, c, t, top, all);
    } else {
      Ascend(m, c, t, top, all);
      Close(m, c.up, Fill(c, t), top, all, if c.red then h else h + 1);
    }
  }

  /** Any node of the tree can be brought into focus. */
  lemma {:induction false} Locate(m: Mem, c: Ctx, t: Tree, top: Ptr, all: set<Ptr>, h: nat, x: Ptr)
    returns (c': Ctx, t': Tree, h': nat)
    requires Fits(m, c, t, top, all) && Sound(c, t, h)
    requires At(t, Above(c), x).Some?
    ensures Fits(m, c', t', top, all) && Sound(c', t', h')
    ensures t'.Bin? && t'.n == x && Outermost(c') == Outermost(c)
    decreases t
  {
    if t.n == x {
      c', t', h' := c, t, h;
    } else {
      Descend(m, c, t, top, all);
      var k := if t.red then h else h - 1;
      if x.key < t.n.key {
        c', t', h' := Locate(m, InLeft(c, t.n, t.red, t.r), t.l, top, all, k, x);
      } else {
        c', t', h' := Locate(m, InRight(c, t.n, t.red, t.l), t.r, top, all, k, x);
      }
    }
  }

  lemma {:induction false} Widen(t: Tree, lo: real, hi: real, lo': real, hi': real)
    requires Ordered(t, lo, hi) && lo' <= lo && hi <= hi'
    ensures Ordered(t, lo', hi')
    decreases t
  {
    if t.Bin? {
      Widen(t.l, lo, t.n.key, lo', t.n.key);
      Widen(t.r, t.n.key, hi, t.n.key, hi');
    }
  }

  lemma {:induction false} WidenFits(m: Mem, t: Tree, lo: real, hi: real, lo': real, hi': real, top: Ptr, all: set<Ptr>)
    requires Fits(m, Top(lo, hi), t, top, all) && lo' <= lo && hi <= hi'
    ensures Fits(m, Top(lo', hi'), t, top, all)
  {
    Widen(t, lo, hi, lo', hi');
    forall n ensures Fitting(m, n, CellIn(Top(lo', hi'), t, n), all) {
      assert Fitting(m, n, CellIn(Top(lo, hi), t, n), all);
      if !(lo < n.key < hi) { Absent(t, NULL, n, lo, hi); }
    }
  }

  /** Writing to a node outside the tree leaves the tree alone. */
  lemma {:induction false} Untouched(m: Mem, m': Mem, c: Ctx, t: Tree, top: Ptr, all: set<Ptr>, x: Ptr)
    requires Fits(m, c, t, top, all) && x !in all && Changes(m, m', x, x)
    ensures Fits(m', c, t, top, all)
  {
    forall n ensures Fitting(m', n, CellIn(c, t, n), all) {
      assert Fitting(m, n, CellIn(c, t, n), all);
    }
  }
}
