/** The operations of `src/common/rbtree.c`. */
module RbTree {
  import opened Basics
  import opened RbShape
  import opened RbRotate
  import opened RbSplice

  function SetLeft(m: Mem, n: Ptr, v: Ptr): Mem
    requires n in m
  { m[n := m[n].(left := v)] }

  function SetRight(m: Mem, n: Ptr, v: Ptr): Mem
    requires n in m
  { m[n := m[n].(right := v)] }

  /** `rb_set_parent` */
  function SetParent(m: Mem, n: Ptr, v: Ptr): Mem
    requires n in m
  { m[n := m[n].(parent := v)] }

  /** `rb_set_parent_color` */
  function SetParentColor(m: Mem, n: Ptr, v: Ptr, red: bool): Mem
    requires n in m
  { m[n := m[n].(parent := v, red := red)] }

  /** A red focus that obeys all the rules inside, but may stand below a red parent. */
  ghost predicate RedTop(c: Ctx, t: Tree, h: nat) {
    CtxRb(c, h) && Rb(t, h) && t.Bin? && t.red
  }

  /** The hole is below a red node, which is below a black one and has a black sibling tree
      beside the hole. */
  ghost predicate BelowRed(c: Ctx) {
    !c.Top? && c.red && Black(Uncle(c)) && !c.up.Top? && !c.up.red
  }

  /** The tree on the other side of the node above the hole. */
  ghost function Uncle(c: Ctx): Tree
    requires !c.Top?
  {
    if c.InLeft? then c.r else c.l
  }

  /** The tree at the grandparent after one turn of the insertion fix-up. */
  ghost function InsertedTree(c: Ctx, t: Tree): Tree
    requires BelowRed(c) && t.Bin?
  {
    var g, pt, gt := c.up.n, Fill(c, t), Fill(c.up, Fill(c, t));
    if !Black(Uncle(c.up)) then Bin(Tint(gt.l, false), g, true, Tint(gt.r, false))
    else if c.up.InLeft? then
      if c.InRight? then Bin(Bin(pt.l, c.n, true, t.l), t.n, false, Bin(t.r, g, true, gt.r))
      else Bin(pt.l, c.n, false, Bin(pt.r, g, true, gt.r))
    else
      if c.InLeft? then Bin(Bin(gt.l, g, true, t.l), t.n, false, Bin(t.r, c.n, true, pt.r))
      else Bin(Bin(gt.l, g, true, pt.l), c.n, false, pt.r)
  }

  lemma {:induction false} InsertedRb(c: Ctx, t: Tree, h: nat)
    requires RedTop(c, t, h) && !c.Top? && c.red
    ensures BelowRed(c) && Black(t.l) && Black(t.r)
    ensures !Black(Uncle(c.up)) ==> RedTop(c.up.up, InsertedTree(c, t), h + 1)
    ensures Black(Uncle(c.up)) ==> Sound(c.up.up, InsertedTree(c, t), h + 1)
  {
    assert CtxRb(c.up, h);
    assert Rb(Uncle(c.up), h);
  }

  /** The cells of the parent, the grandparent and the uncle. */
  lemma {:induction false} ReadFamily(m: Mem, c: Ctx, t: Tree, top: Ptr, all: set<Ptr>)
    requires Fits(m, c, t, top, all) && !c.Top? && !c.up.Top?
    ensures Fits(m, c.up.up, Fill(c.up, Fill(c, t)), top, all)
    ensures var pt, gt := Fill(c, t), Fill(c.up, Fill(c, t));
            && c.n in m && m[c.n] == Cell(RootOf(pt.l), RootOf(pt.r), c.up.n, c.red)
            && c.up.n in m && m[c.up.n] == Cell(RootOf(gt.l), RootOf(gt.r), Above(c.up.up), c.up.red)
            && RootOf(gt.l) != RootOf(gt.r) && (t.Bin? ==> RootOf(pt.l) != RootOf(pt.r))
    ensures var u := Uncle(c.up); u.Bin? ==> u.n != NULL && u.n in m && m[u.n].red == u.red
    ensures c.n != NULL && c.up.n != NULL
  {
    var c1 := c.up;
    var pt := Fill(c, t);
    var gt := Fill(c1, pt);
    Ascend(m, c, t, top, all);
    Ascend(m, c1, pt, top, all);
    ReadNode(m, c1, pt, top, all);
    ReadNode(m, c1.up, gt, top, all);
  }

  /** The tree in the hole of `c` obeys all the rules, but is one black node short. */
  ghost predicate Deficient(c: Ctx, t: Tree, h: nat) {
    !c.Top? && Rb(t, h) && Black(t) && CtxRb(c, h + 1)
  }

  /** With a black sibling, what one turn of the deletion fix-up makes of the tree at the
      parent: case 2, cases 3 and 4, or case 4. */
  ghost function ErasedTree(c: Ctx, t: Tree): Tree
    requires !c.Top? && Uncle(c).Bin?
  {
    var w, p := Uncle(c), c.n;
    if Black(w.l) && Black(w.r) then
      if c.InLeft? then Bin(t, p, false, w.(red := true)) else Bin(w.(red := true), p, false, t)
    else if c.InLeft? then
      if Black(w.r) then Bin(Bin(t, p, false, w.l.l), w.l.n, c.red, Bin(w.l.r, w.n, false, w.r))
      else Bin(Bin(t, p, false, w.l), w.n, c.red, w.r.(red := false))
    else
      if Black(w.l) then Bin(Bin(w.l, w.n, false, w.r.l), w.r.n, c.red, Bin(w.r.r, p, false, t))
      else Bin(w.l.(red := false), w.n, c.red, Bin(w.r, p, false, t))
  }

  /** Only case 2 below a black parent leaves the tree one black node short. */
  ghost predicate StillShort(c: Ctx)
    requires !c.Top? && Uncle(c).Bin?
  {
    Black(Uncle(c).l) && Black(Uncle(c).r) && !c.red
  }

  /** The sibling of a short tree is a node; its colour decides about the nephews. */
  lemma {:induction false} SiblingRb(c: Ctx, t: Tree, h: nat)
    requires Deficient(c, t, h)
    ensures var w := Uncle(c);
            && w.Bin? && CtxRb(c.up, if c.red then h + 1 else h + 2) && (c.red ==> !w.red && RedFits(c.up))
            && (w.red ==> w.l.Bin? && !w.l.red && w.r.Bin? && !w.r.red && Rb(w.l, h + 1) && Rb(w.r, h + 1))
            && (!w.red ==> Rb(w.l, h) && Rb(w.r, h))
            && (!w.red && !Black(w.l) ==> Black(w.l.l) && Black(w.l.r) && Rb(w.l.l, h) && Rb(w.l.r, h))
            && (!w.red && !Black(w.r) ==> Black(w.r.l) && Black(w.r.r) && Rb(w.r.l, h) && Rb(w.r.r, h))
  {
    var w := Uncle(c);
    assert Rb(w, h + 1);
    if w.red {
      assert Rb(w.l, h + 1) && Rb(w.r, h + 1);
    } else {
      assert Rb(w.l, h) && Rb(w.r, h);
    }
  }

  /** The context after case 1 has turned a red sibling into a black one. */
  ghost function AfterCase1(c: Ctx): Ctx
    requires !c.Top? && Uncle(c).Bin?
  {
    var w := Uncle(c);
    if c.InLeft? then InLeft(InLeft(c.up, w.n, false, w.r), c.n, true, w.l)
    else InRight(InRight(c.up, w.n, false, w.l), c.n, true, w.r)
  }

  lemma {:induction false} Case1Rb(c: Ctx, t: Tree, h: nat)
    requires Deficient(c, t, h) && Uncle(c).Bin? && Uncle(c).red
    ensures Deficient(AfterCase1(c), t, h) && Uncle(AfterCase1(c)).Bin? && !Uncle(AfterCase1(c)).red
  {
    SiblingRb(c, t, h);
  }

  lemma {:induction false} ErasedRb(c: Ctx, t: Tree, h: nat)
    requires Deficient(c, t, h) && Uncle(c).Bin? && !Uncle(c).red
    ensures StillShort(c) ==> Rb(ErasedTree(c, t), h + 1) && Black(ErasedTree(c, t)) && CtxRb(c.up, h + 2)
    ensures !StillShort(c) ==> Sound(c.up, ErasedTree(c, t), if c.red then h + 1 else h + 2)
  {
    SiblingRb(c, t, h);
  }

  /** Where the fix-up starts after the successor has been moved, if it is needed at all. */
  lemma {:induction false} AfterSplice(m: Mem, top: Ptr, all: set<Ptr>, c: Ctx, t: Tree, h: nat)
    returns (c': Ctx, t': Tree, h': nat)
    requires t.Bin? && t.l.Bin? && t.r.Bin? && Sound(c, t, h) && Fits(m, c, Spliced(t), top, all)
    ensures Fits(m, c', t', top, all) && Outermost(c') == Outermost(c)
    ensures if MinNode(t.r).r.Leaf? && !MinNode(t.r).red
        then t' == Leaf && Deficient(c', t', h') && Above(c') == SpliceParent(t)
            else Sound(c', t', h')
  {
    var k := if t.red then h else h - 1;
    if MinNode(t.r).r.Leaf? && !MinNode(t.r).red {
      var d := InRight(c, MinNode(t.r).n, t.red, t.l);
      Descend(m, c, Spliced(t), top, all);
      SpineRb(m, top, all, d, t.r, k);
      c', t', h' := Spine(d, t.r), Leaf, 0;
    } else {
      DelMinRb(t.r, k);
      c', t', h' := c, Spliced(t), h;
    }
  }

  // ----- height

  ghost function Height(t: Tree): nat {
    if t.Leaf? then 0 else 1 + if Height(t.l) < Height(t.r) then Height(t.r) else Height(t.l)
  }

  lemma {:induction false} HeightRb(t: Tree, h: nat)
    requires Rb(t, h)
    ensures Height(t) <= 2 * h + if Black(t) then 0 else 1
    decreases t
  {
    if t.Bin? {
      HeightRb(t.l, if t.red then h else h - 1);
      HeightRb(t.r, if t.red then h else h - 1);
    }
  }

  lemma {:induction false} SizeRb(t: Tree, h: nat, lo: real, hi: real)
    requires Rb(t, h) && Ordered(t, lo, hi)
    ensures Pow2(h) <= |Nodes(t)| + 1
    decreases t
  {
    if t.Bin? {
      var k := if t.red then h else h - 1;
      SizeRb(t.l, k, lo, t.n.key);
      SizeRb(t.r, k, t.n.key, hi);
      forall n ensures n in Nodes(t.l) ==> n.key < t.n.key
               ensures n in Nodes(t.r) ==> t.n.key < n.key
      {
        AtNodes(t.l, NULL, n, lo, t.n.key);
        AtNodes(t.r, NULL, n, t.n.key, hi);
      }
      assert |Nodes(t)| == |Nodes(t.l) + {t.n}| + |Nodes(t.r)| == |Nodes(t.l)| + 1 + |Nodes(t.r)|;
    }
  }

  lemma {:induction false} Pow2Double(v: nat, h: nat)
    requires v <= 2 * h
    ensures Pow2(v) <= Pow2(h) * Pow2(h)
    decreases h
  {
    if v >= 2 {
      Pow2Double(v - 2, h - 1);
      assert Pow2(h) * Pow2(h) == 4 * (Pow2(h - 1) * Pow2(h - 1));
    } else if h > 0 {
      Pow2Double(0, h - 1);
      assert Pow2(h) * Pow2(h) == 4 * (Pow2(h - 1) * Pow2(h - 1));
    }
  }

  /** The height of a red-black tree with n nodes is at most 2 log2(n + 1). */
  lemma {:induction false} HeightBound(t: Tree, v: nat, lo: real, hi: real)
    requires RedBlack(t) && Ordered(t, lo, hi) && v <= Height(t)
    ensures Pow2(v) <= (|Nodes(t)| + 1) * (|Nodes(t)| + 1)
  {
    var h: nat :| Rb(t, h);
    HeightRb(t, h);
    SizeRb(t, h, lo, hi);
    Pow2Double(v, h);
    Squares(Pow2(h), |Nodes(t)| + 1);
  }

  lemma {:induction false} Squares(a: nat, b: nat)
    requires a <= b
    ensures a * a <= b * b
  {
    assert a * a <= a * b;
    assert a * b <= b * b;
  }

  /** The comparator handed to the operations. */
  predicate Less(l: Ptr, r: Ptr) {
    l.key < r.key
  }

  class Root {
    var node: Ptr
    var mem: Mem
    ghost var tree: Tree
    ghost var lo: real
    ghost var hi: real
    ghost var all: set<Ptr>

    /** The memory below `node` is a red-black search tree with agreeing parent pointers,
        made of the nodes `all`. */
    ghost predicate Valid()
      reads this
    {
      Fits(mem, Top(lo, hi), tree, node, all) && RedBlack(tree)
    }

    /** An empty tree, beside whatever else is in memory. */
    constructor (mem: Mem)
      requires NULL !in mem
      ensures Valid() && all == {} && this.mem == mem
    {
      node, this.mem, tree, lo, hi, all := NULL, mem, Leaf, 0.0, 0.0, {};
      new;
      assert Rb(tree, 0);
    }

    /** `__rb_change_child` */
    method ChangeChild(old_: Ptr, new_: Ptr, parent: Ptr)
      requires parent != NULL ==> parent in mem
      modifies this`node, this`mem
      ensures parent == NULL ==> node == new_ && mem == old(mem)
      ensures parent != NULL ==> node == old(node) && mem == old(mem)[parent := NewChild(old(mem)[parent], old_, new_)]
    {
      if parent != NULL {
        if mem[parent].left == old_ {
          mem := SetLeft(mem, parent, new_);
        } else {
          mem := SetRight(mem, parent, new_);
        }
      } else {
        node := new_;
      }
    }

    /** `__rb_rotate_set_parents` */
    method RotateSetParents(old_: Ptr, new_: Ptr, red: bool)
      requires NULL !in mem && old_ in mem && new_ in mem && old_ != new_
      requires var up := mem[old_].parent; up != old_ && up != new_ && (up != NULL ==> up in mem)
      modifies this`node, this`mem
      ensures Changes(old(mem), mem, old_, new_, old(mem)[old_].parent)
      ensures new_ in mem && mem[new_] == old(mem)[new_].(parent := old(mem)[old_].parent, red := old(mem)[old_].red)
      ensures old_ in mem && mem[old_] == old(mem)[old_].(parent := new_, red := red)
      ensures Repointed(old(mem), mem, old(node), node, old(mem)[old_].parent, old_, new_)
    {
      var parent := mem[old_].parent;
      mem := SetParentColor(mem, new_, mem[old_].parent, mem[old_].red);
      mem := SetParentColor(mem, old_, new_, red);
      ChangeChild(old_, new_, parent);
    }

    /** Case 3 with the parent on the left (lines 73-77). */
    method InsertCase3Left(parent: Ptr, gparent: Ptr, tmp: Ptr)
      requires NULL !in mem && parent in mem && gparent in mem && (tmp != NULL ==> tmp in mem)
      requires var up := mem[gparent].parent; Distinct(parent, gparent, tmp, NULL, up) && (up != NULL ==> up in mem)
      modifies this`node, this`mem
      ensures Changes(old(mem), mem, parent, gparent, tmp, old(mem)[gparent].parent)
      ensures parent in mem
      ensures mem[parent] == old(mem)[parent].(right := gparent, parent := old(mem)[gparent].parent,
                                               red := old(mem)[gparent].red)
      ensures gparent in mem && mem[gparent] == old(mem)[gparent].(left := tmp, parent := parent, red := true)
      ensures tmp != NULL ==> tmp in mem && mem[tmp] == old(mem)[tmp].(parent := gparent, red := false)
      ensures Repointed(old(mem), mem, old(node), node, old(mem)[gparent].parent, gparent, parent)
    {
      mem := SetLeft(mem, gparent, tmp);
      if tmp != NULL {
        mem := SetParentColor(mem, tmp, gparent, false);
      }
      mem := SetRight(mem, parent, gparent);
      RotateSetParents(gparent, parent, true);
    }

    /** Case 2 with the parent on the left (lines 64-70): a left rotation at the parent. */
    method InsertCase2Left(node_: Ptr, parent: Ptr) returns (tmp: Ptr)
      requires NULL !in mem && node_ in mem && parent in mem && (mem[node_].left != NULL ==> mem[node_].left in mem)
      requires Distinct(node_, parent, mem[node_].left, NULL, NULL)
      modifies this`mem
      ensures Changes(old(mem), mem, node_, parent, old(mem)[node_].left)
      ensures node_ in mem && mem[node_] == old(mem)[node_].(left := parent) && tmp == old(mem)[node_].right
      ensures parent in mem
      ensures mem[parent] == old(mem)[parent].(right := old(mem)[node_].left, parent := node_, red := true)
      ensures var b := old(mem)[node_].left;
              b != NULL ==> b in mem && mem[b] == old(mem)[b].(parent := parent, red := false)
    {
      tmp := mem[node_].left;
      mem := SetRight(mem, parent, tmp);
      if tmp != NULL {
        mem := SetParentColor(mem, tmp, parent, false);
      }
      mem := SetLeft(mem, node_, parent);
      mem := SetParentColor(mem, parent, node_, true);
      tmp := mem[node_].right;
    }

    /** Case 2 followed by case 3, with the parent on the left (lines 64-77). */
    method InsertCases23Left(node_: Ptr, parent: Ptr, gparent: Ptr)
      requires NULL !in mem && node_ in mem && parent in mem && gparent in mem
      requires var b, d, up := mem[node_].left, mem[node_].right, mem[gparent].parent;
               && (b != NULL ==> b in mem) && (d != NULL ==> d in mem) && (up != NULL ==> up in mem)
               && Distinct(node_, parent, b, d, up) && Distinct(parent, gparent, b, d, up) && node_ != gparent
      modifies this`node, this`mem
      ensures var m := old(mem);
              var b, d, up := m[node_].left, m[node_].right, m[gparent].parent;
              && Changes(m, mem, parent, node_, gparent, b, d, up)
              && node_ in mem && mem[node_] == Cell(parent, gparent, up, m[gparent].red)
              && parent in mem && mem[parent] == m[parent].(right := b, parent := node_, red := true)
              && gparent in mem && mem[gparent] == m[gparent].(left := d, parent := node_, red := true)
              && (b != NULL ==> b in mem && mem[b] == m[b].(parent := parent, red := false))
              && (d != NULL ==> d in mem && mem[d] == m[d].(parent := gparent, red := false))
              && Repointed(m, mem, old(node), node, up, gparent, node_)
    {
      var tmp := InsertCase2Left(node_, parent);
      InsertCase3Left(node_, gparent, tmp);
    }

    /** Case 3 with the parent on the right (lines 101-105). */
    method InsertCase3Right(parent: Ptr, gparent: Ptr, tmp: Ptr)
      requires NULL !in mem && parent in mem && gparent in mem && (tmp != NULL ==> tmp in mem)
      requires var up := mem[gparent].parent; Distinct(parent, gparent, tmp, NULL, up) && (up != NULL ==> up in mem)
      modifies this`node, this`mem
      ensures Changes(old(mem), mem, parent, gparent, tmp, old(mem)[gparent].parent)
      ensures parent in mem
      ensures mem[parent] == old(mem)[parent].(left := gparent, parent := old(mem)[gparent].parent,
                                               red := old(mem)[gparent].red)
      ensures gparent in mem && mem[gparent] == old(mem)[gparent].(right := tmp, parent := parent, red := true)
      ensures tmp != NULL ==> tmp in mem && mem[tmp] == old(mem)[tmp].(parent := gparent, red := false)
      ensures Repointed(old(mem), mem, old(node), node, old(mem)[gparent].parent, gparent, parent)
    {
      mem := SetRight(mem, gparent, tmp);
      if tmp != NULL {
        mem := SetParentColor(mem, tmp, gparent, false);
      }
      mem := SetLeft(mem, parent, gparent);
      RotateSetParents(gparent, parent, true);
    }

    /** Case 2 with the parent on the right (lines 92-98): a right rotation at the parent. */
    method InsertCase2Right(node_: Ptr, parent: Ptr) returns (tmp: Ptr)
      requires NULL !in mem && node_ in mem && parent in mem && (mem[node_].right != NULL ==> mem[node_].right in mem)
      requires Distinct(node_, parent, mem[node_].right, NULL, NULL)
      modifies this`mem
      ensures Changes(old(mem), mem, node_, parent, old(mem)[node_].right)
      ensures node_ in mem && mem[node_] == old(mem)[node_].(right := parent) && tmp == old(mem)[node_].left
      ensures parent in mem
      ensures mem[parent] == old(mem)[parent].(left := old(mem)[node_].right, parent := node_, red := true)
      ensures var b := old(mem)[node_].right;
              b != NULL ==> b in mem && mem[b] == old(mem)[b].(parent := parent, red := false)
    {
      tmp := mem[node_].right;
      mem := SetLeft(mem, parent, tmp);
      if tmp != NULL {
        mem := SetParentColor(mem, tmp, parent, false);
      }
      mem := SetRight(mem, node_, parent);
      mem := SetParentColor(mem, parent, node_, true);
      tmp := mem[node_].left;
    }

    /** Case 2 followed by case 3, with the parent on the right (lines 92-105). */
    method InsertCases23Right(node_: Ptr, parent: Ptr, gparent: Ptr)
      requires NULL !in mem && node_ in mem && parent in mem && gparent in mem
      requires var b, d, up := mem[node_].right, mem[node_].left, mem[gparent].parent;
               && (b != NULL ==> b in mem) && (d != NULL ==> d in mem) && (up != NULL ==> up in mem)
               && Distinct(node_, parent, b, d, up) && Distinct(parent, gparent, b, d, up) && node_ != gparent
      modifies this`node, this`mem
      ensures var m := old(mem);
              var b, d, up := m[node_].right, m[node_].left, m[gparent].parent;
              && Changes(m, mem, parent, node_, gparent, b, d, up)
              && node_ in mem && mem[node_] == Cell(gparent, parent, up, m[gparent].red)
              && parent in mem && mem[parent] == m[parent].(left := b, parent := node_, red := true)
              && gparent in mem && mem[gparent] == m[gparent].(right := d, parent := node_, red := true)
              && (b != NULL ==> b in mem && mem[b] == m[b].(parent := parent, red := false))
              && (d != NULL ==> d in mem && mem[d] == m[d].(parent := gparent, red := false))
              && Repointed(m, mem, old(node), node, up, gparent, node_)
    {
      var tmp := InsertCase2Right(node_, parent);
      InsertCase3Right(node_, gparent, tmp);
    }

    /** Cases 2 and 3, node inside: the parent is on the left and the node is its right child. */
    method InsertInnerLeft(node_: Ptr, parent: Ptr, gparent: Ptr, ghost c: Ctx, ghost a: Tree, ghost b: Tree,
                           ghost d: Tree, ghost u: Tree)
      requires Fits(mem, c, Bin(Bin(a, parent, true, Bin(b, node_, true, d)), gparent, false, u), node, all)
      requires Black(b) && Black(d)
      modifies this`node, this`mem
      ensures Rebuilt(old(mem), mem, c, Bin(Bin(a, parent, true, b), node_, false, Bin(d, gparent, true, u)), node, all)
    {
      ReadDoubleRight(mem, node, all, c, a, parent, true, b, node_, true, d, gparent, false, u);
      InsertCases23Left(node_, parent, gparent);
      WriteDoubleRight(old(mem), mem, old(node), node, all, c, a, parent, true, b, node_, true, d, gparent, false, u,
                       true, false, true);
    }

    /** Case 3, node outside: the parent is on the left and the node is its left child. */
    method InsertOuterLeft(parent: Ptr, gparent: Ptr, ghost c: Ctx, ghost a: Tree, ghost s: Tree, ghost u: Tree)
      requires Fits(mem, c, Bin(Bin(a, parent, true, s), gparent, false, u), node, all) && Black(s)
      modifies this`node, this`mem
      ensures Rebuilt(old(mem), mem, c, Bin(a, parent, false, Bin(s, gparent, true, u)), node, all)
    {
      ReadRight(mem, node, all, c, a, parent, true, s, gparent, false, u);
      InsertCase3Left(parent, gparent, mem[parent].right);
      WriteRight(old(mem), mem, old(node), node, all, c, a, parent, true, s, gparent, false, u, a.Bin? && a.red,
                 false, false, true);
    }

    method InsertInnerRight(node_: Ptr, parent: Ptr, gparent: Ptr, ghost c: Ctx, ghost a: Tree, ghost b: Tree,
                            ghost d: Tree, ghost u: Tree)
      requires Fits(mem, c, Bin(u, gparent, false, Bin(Bin(d, node_, true, b), parent, true, a)), node, all)
      requires Black(b) && Black(d)
      modifies this`node, this`mem
      ensures Rebuilt(old(mem), mem, c, Bin(Bin(u, gparent, true, d), node_, false, Bin(b, parent, true, a)), node, all)
    {
      ReadDoubleLeft(mem, node, all, c, u, gparent, false, d, node_, true, b, parent, true, a);
      InsertCases23Right(node_, parent, gparent);
      WriteDoubleLeft(old(mem), mem, old(node), node, all, c, u, gparent, false, d, node_, true, b, parent, true, a,
                      true, false, true);
    }

    method InsertOuterRight(parent: Ptr, gparent: Ptr, ghost c: Ctx, ghost a: Tree, ghost s: Tree, ghost u: Tree)
      requires Fits(mem, c, Bin(u, gparent, false, Bin(s, parent, true, a)), node, all) && Black(s)
      modifies this`node, this`mem
      ensures Rebuilt(old(mem), mem, c, Bin(Bin(u, gparent, true, s), parent, false, a), node, all)
    {
      ReadLeft(mem, node, all, c, u, gparent, false, s, parent, true, a);
      InsertCase3Right(parent, gparent, mem[parent].left);
      WriteLeft(old(mem), mem, old(node), node, all, c, u, gparent, false, s, parent, true, a, a.Bin? && a.red, false,
                false, true);
    }

    /** Case 1 (lines 54-58, 82-86): the uncle is red. */
    method InsertRecolor(tmp: Ptr, parent: Ptr, gparent: Ptr, ghost c: Ctx, ghost t: Tree)
      requires Fits(mem, c, t, node, all) && t.Bin? && t.n == gparent && t.l.Bin? && t.r.Bin?
      requires (tmp == t.l.n && parent == t.r.n) || (tmp == t.r.n && parent == t.l.n)
      modifies this`mem
      ensures Rebuilt(old(mem), mem, c, Bin(Tint(t.l, false), gparent, true, Tint(t.r, false)), node, all)
    {
      ReadNode(mem, c, t, node, all);
      mem := SetParentColor(mem, tmp, gparent, false);
      mem := SetParentColor(mem, parent, gparent, false);
      mem := SetParentColor(mem, gparent, mem[gparent].parent, true);
      WriteColors(old(mem), mem, node, all, c, t, false, true, false);
    }

    /** One turn of the loop of `__rb_insert_fix` below a red parent (lines 50-107): `again`
        says whether the loop continues, at the grandparent. */
    method InsertStep(nd: Ptr, parent: Ptr, ghost c: Ctx, ghost t: Tree) returns (again: bool, gparent: Ptr)
      requires Fits(mem, c, t, node, all) && t.Bin? && t.n == nd && t.red && Black(t.l) && Black(t.r)
      requires BelowRed(c) && c.n == parent
      modifies this`node, this`mem
      ensures Rebuilt(old(mem), mem, c.up.up, InsertedTree(c, t), node, all)
      ensures gparent == c.up.n && again == !Black(Uncle(c.up))
    {
      ghost var c1 := c.up;
      ghost var pt := Fill(c, t);
      ghost var gt := Fill(c1, pt);
      ReadFamily(mem, c, t, node, all);
      gparent := mem[parent].parent;
      var tmp := mem[gparent].right;
      again := false;
      if parent != tmp {
        if tmp != NULL && mem[tmp].red {
          InsertRecolor(tmp, parent, gparent, c1.up, gt);
          again := true;
        } else {
          tmp := mem[parent].right;
          if nd == tmp {
            InsertInnerLeft(nd, parent, gparent, c1.up, pt.l, t.l, t.r, gt.r);
          } else {
            InsertOuterLeft(parent, gparent, c1.up, pt.l, pt.r, gt.r);
          }
        }
      } else {
        tmp := mem[gparent].left;
        if tmp != NULL && mem[tmp].red {
          InsertRecolor(tmp, parent, gparent, c1.up, gt);
          again := true;
        } else {
          tmp := mem[parent].left;
          if nd == tmp {
            InsertInnerRight(nd, parent, gparent, c1.up, pt.r, t.r, t.l, gt.l);
          } else {
            InsertOuterRight(parent, gparent, c1.up, pt.r, pt.l, gt.l);
          }
        }
      }
    }

    /** The end of the loop at the root (lines 44-45). */
    method BlackenRoot(nd: Ptr, ghost c: Ctx, ghost t: Tree, ghost h: nat)
      requires c.Top? && Fits(mem, c, t, nd, all) && RedTop(c, t, h) && t.n == nd
      modifies this`node, this`mem
      ensures Rebuilt(old(mem), mem, c, t.(red := false), node, all) && Sound(c, t.(red := false), h + 1)
    {
      ReadNode(mem, c, t, nd, all);
      mem := SetParentColor(mem, nd, NULL, false);
      node := nd;
      WriteColors(old(mem), mem, nd, all, c, t, t.l.Bin? && t.l.red, false, t.r.Bin? && t.r.red);
    }

    /** `__rb_insert_fix` */
    method InsertFix(node_: Ptr, ghost c0: Ctx, ghost t0: Tree, ghost h0: nat)
      returns (ghost c: Ctx, ghost t: Tree, ghost h: nat)
      requires Fits(mem, c0, t0, TopOf(c0, node_), all) && RedTop(c0, t0, h0) && t0.n == node_
      requires !c0.Top? ==> node == TopOf(c0, node_)
      modifies this`node, this`mem
      ensures Rebuilt(old(mem), mem, c, t, node, all) && Sound(c, t, h) && Outermost(c) == Outermost(c0)
    {
      var nd := node_;
      c, t, h := c0, t0, h0;
      Read(mem, c, t, TopOf(c0, node_), all);
      var parent := mem[nd].parent;
      while true
        invariant Fits(mem, c, t, TopOf(c, nd), all) && RedTop(c, t, h) && t.n == nd && parent == Above(c)
        invariant !c.Top? ==> node == TopOf(c, nd)
        invariant Outermost(c) == Outermost(c0) && Frame(old(mem), mem, all)
        decreases c
      {
        if parent == NULL {
          BlackenRoot(nd, c, t, h);
          t, h := t.(red := false), h + 1;
          return;
        }
        Ascend(mem, c, t, node, all);
        Read(mem, c.up, Fill(c, t), node, all);
        if !mem[parent].red {
          return;
        }
        InsertedRb(c, t, h);
        var again, gparent := InsertStep(nd, parent, c, t);
        c, t, h := c.up.up, InsertedTree(c, t), h + 1;
        if !again {
          return;
        }
        Read(mem, c, t, node, all);
        nd := gparent;
        parent := mem[nd].parent;
      }
    }

    /** The descent of `_rb_insert` (lines 248 and 251-267): either it meets an equal node, or
        it leaves `nd` as a red leaf of the tree. */
    method InsertDescent(nd: Ptr, ghost h0: nat) returns (found: bool, ghost c: Ctx, ghost h: nat)
      requires Fits(mem, Top(lo, hi), tree, node, all) && Sound(Top(lo, hi), tree, h0) && lo < nd.key < hi
      requires nd in mem && nd !in all && mem[nd] == Cell(NULL, NULL, NULL, true)
      modifies this`mem
      ensures found ==> mem == old(mem) && exists x :: x in all && !Less(x, nd) && !Less(nd, x)
      ensures !found ==> forall x :: x in all ==> Less(x, nd) || Less(nd, x)
      ensures !found ==> Rebuilt(old(mem), mem, c, Bin(Leaf, nd, true, Leaf), TopOf(c, nd), all + {nd})
      ensures !found ==> CtxRb(c, h) && h == 0 && Outermost(c) == Top(lo, hi) && (c.Top? || node == TopOf(c, nd))
    {
      var nw, parent := node, NULL;
      ghost var t := tree;
      ghost var m := mem;
      c, h := Top(lo, hi), h0;
      while nw != NULL
        invariant Fits(m, c, t, node, all) && Sound(c, t, h) && nw == RootOf(t) && parent == Above(c)
        invariant Lo(c) < nd.key < Hi(c) && Outermost(c) == Top(lo, hi)
        invariant nw != NULL || c.Top? ==> mem == m
        invariant nw == NULL && !c.Top? ==> parent in m && parent in all
        invariant nw == NULL && c.InLeft? ==> mem == SetLeft(m, parent, nd)[nd := m[nd].(parent := parent)]
        invariant nw == NULL && c.InRight? ==> mem == SetRight(m, parent, nd)[nd := m[nd].(parent := parent)]
        decreases t
      {
        parent := nw;
        Read(m, c, t, node, all);
        Descend(m, c, t, node, all);
        if Less(nd, nw) {
          nw := mem[nw].left;
          if nw == NULL {
            mem := SetLeft(mem, parent, nd);
            mem := SetParent(mem, nd, parent);
          }
          c, t, h := InLeft(c, t.n, t.red, t.r), t.l, if t.red then h else h - 1;
        } else if Less(nw, nd) {
          nw := mem[nw].right;
          if nw == NULL {
            mem := SetRight(mem, parent, nd);
            mem := SetParent(mem, nd, parent);
          }
          c, t, h := InRight(c, t.n, t.red, t.l), t.r, if t.red then h else h - 1;
        } else {
          return true, c, h;
        }
      }
      found := false;
      forall x | x in all
        ensures Less(x, nd) || Less(nd, x)
      {
        assert Fitting(m, x, CellIn(c, t, x), all);
      }
      WriteLeaf(m, mem, node, TopOf(c, nd), all, c, nd);
    }

    /** `_rb_insert` */
    method Insert(nd: Ptr) returns (r: int)
      requires Valid() && nd in mem && nd !in all
      modifies this
      ensures Valid() && (r == 0 || r == -1)
      ensures r == -1 <==> exists x :: x in old(all) && !Less(x, nd) && !Less(nd, x)
      ensures r == 0 ==> all == old(all) + {nd} && Frame(old(mem), mem, all)
      ensures r == -1 ==> all == old(all) && tree == old(tree) && node == old(node) && Frame(old(mem), mem, {nd})
    {
      mem := mem[nd := Cell(NULL, NULL, NULL, true)];
      ghost var h: nat :| Rb(tree, h);
      ghost var lo', hi' := if nd.key <= lo then nd.key - 1.0 else lo, if hi <= nd.key then nd.key + 1.0 else hi;
      Untouched(old(mem), mem, Top(lo, hi), tree, node, all, nd);
      WidenFits(mem, tree, lo, hi, lo', hi', node, all);
      lo, hi := lo', hi';
      var found;
      ghost var c, t;
      found, c, h := InsertDescent(nd, h);
      if found {
        return -1;
      }
      all := all + {nd};
      c, t, h := InsertFix(nd, c, Bin(Leaf, nd, true, Leaf), h);
      Close(mem, c, t, node, all, h);
      tree := Plug(c, t);
      r := 0;
    }

    /** The first cases of `__rb_erase` (lines 114-127): at most one child. */
    method EraseSkip(nd: Ptr, ghost c: Ctx, ghost t: Tree, ghost h: nat) returns (rebalance: Ptr)
      requires Fits(mem, c, t, node, all) && Sound(c, t, h) && t.Bin? && t.n == nd && (t.l.Leaf? || t.r.Leaf?)
      modifies this`node, this`mem
      ensures Fits(mem, c, Tint(OnlyChild(t), t.red), node, all - {nd}) && Frame(old(mem), mem, all)
      ensures rebalance == NULL ==> Sound(c, Tint(OnlyChild(t), t.red), if OnlyChild(t).Bin? then h else 0)
      ensures rebalance != NULL ==> rebalance == Above(c) && OnlyChild(t).Leaf? && Deficient(c, Leaf, 0)
    {
      ReadNode(mem, c, t, node, all);
      Read(mem, c, t, node, all);
      assert Rb(t.l, if t.red then h else h - 1) && Rb(t.r, if t.red then h else h - 1);
      assert OnlyChild(t).Bin? ==> Rb(OnlyChild(t).l, 0) && Rb(OnlyChild(t).r, 0);
      var child, tmp := mem[nd].right, mem[nd].left;
      var parent, red := mem[nd].parent, mem[nd].red;
      if tmp == NULL {
        ChangeChild(nd, child, parent);
        if child != NULL {
          mem := SetParentColor(mem, child, parent, red);
          rebalance := NULL;
        } else {
          rebalance := if !red then parent else NULL;
        }
      } else {
        mem := SetParentColor(mem, tmp, parent, red);
        ChangeChild(nd, tmp, parent);
        rebalance := NULL;
      }
      WriteSkipped(old(mem), mem, old(node), node, all, c, t);
    }

    /** The search for the successor (lines 129-139). */
    method FindSuccessor(child: Ptr, ghost c: Ctx, ghost t: Tree) returns (parent: Ptr, successor: Ptr)
      requires Fits(mem, c, t, node, all) && t.Bin? && t.n == child
      ensures successor == MinNode(t).n && parent == if t.l.Leaf? then child else MinParent(t)
    {
      ReadNode(mem, c, t, node, all);
      successor := child;
      var tmp := mem[child].left;
      if tmp == NULL {
        parent := successor;
      } else {
        ghost var c', t' := c, t;
        parent := successor;
        while tmp != NULL
          invariant Fits(mem, c', t', node, all) && t'.Bin? && t'.n == successor && tmp == RootOf(t'.l)
          invariant MinNode(t') == MinNode(t) && (tmp == NULL <==> t'.l.Leaf?)
          invariant if t'.l.Bin? then MinParent(t') == MinParent(t) else parent == MinParent(t)
          decreases t'
        {
          Read(mem, c', t', node, all);
          Descend(mem, c', t', node, all);
          parent := successor;
          successor := tmp;
          c', t' := InLeft(c', t'.n, t'.red, t'.r), t'.l;
          ReadNode(mem, c', t', node, all);
          tmp := mem[tmp].left;
        }
      }
    }

    /** A successor further down leaves its place (lines 140-142). */
    method UnlinkSuccessor(child: Ptr, parent: Ptr, successor: Ptr, child2: Ptr)
      requires NULL !in mem && child in mem && parent in mem && successor in mem && successor != child
      requires successor != parent
      modifies this`mem
      ensures var m := old(mem);
              && Changes(m, mem, successor, parent, child)
              && successor in mem && mem[successor] == m[successor].(right := child)
              && parent in mem && mem[parent] ==
                   m[parent].(left := child2, parent := if parent == child then successor else m[parent].parent)
              && child in mem && (child != parent ==> mem[child] == m[child].(parent := successor))
    {
      mem := SetLeft(mem, parent, child2);
      mem := SetRight(mem, successor, child);
      mem := SetParent(mem, child, successor);
    }

    /** The successor takes the place of the node (lines 144-157). */
    method PlaceSuccessor(nd: Ptr, parent: Ptr, successor: Ptr, child2: Ptr) returns (rebalance: Ptr)
      requires NULL !in mem && nd in mem && successor in mem
      requires var l, up := mem[nd].left, mem[nd].parent;
               && l in mem && (up != NULL ==> up in mem) && (child2 != NULL ==> child2 in mem)
               && successor !in {nd, l, up} && l !in {nd, up} && nd != up
               && (child2 != NULL ==> child2 !in {successor, nd, l, up})
      modifies this`node, this`mem
      ensures var m := old(mem);
              var l, up := m[nd].left, m[nd].parent;
              && Changes(m, mem, successor, l, child2, up)
              && successor in mem && mem[successor] == Cell(l, m[successor].right, up, m[nd].red)
              && l in mem && mem[l] == m[l].(parent := successor)
              && (child2 != NULL ==> child2 in mem && mem[child2] == m[child2].(parent := parent, red := false))
              && Repointed(m, mem, old(node), node, up, nd, successor)
              && rebalance == if child2 == NULL && !m[successor].red then parent else NULL
    {
      var tmp := mem[nd].left;
      mem := SetLeft(mem, successor, tmp);
      mem := SetParent(mem, tmp, successor);
      var up, red := mem[nd].parent, mem[nd].red;
      ChangeChild(nd, successor, up);
      if child2 != NULL {
        mem := SetParentColor(mem, successor, up, red);
        mem := SetParentColor(mem, child2, parent, false);
        rebalance := NULL;
      } else {
        var red2 := mem[successor].red;
        mem := SetParentColor(mem, successor, up, red);
        rebalance := if !red2 then parent else NULL;
      }
    }

    /** The last case of `__rb_erase` (lines 129-158): two children. */
    method EraseSplice(nd: Ptr, ghost c: Ctx, ghost t: Tree) returns (rebalance: Ptr)
      requires Fits(mem, c, t, node, all) && t.Bin? && t.n == nd && t.l.Bin? && t.r.Bin?
      modifies this`node, this`mem
      ensures Fits(mem, c, Spliced(t), node, all - {nd}) && Frame(old(mem), mem, all)
      ensures rebalance == if MinNode(t.r).r.Leaf? && !MinNode(t.r).red then SpliceParent(t) else NULL
    {
      ReadSpliced(mem, node, all, c, t);
      Descend(mem, c, t, node, all);
      var child := mem[nd].right;
      var parent, successor := FindSuccessor(child, InRight(c, t.n, t.red, t.l), t.r);
      var child2 := mem[successor].right;
      if successor != child {
        UnlinkSuccessor(child, parent, successor, child2);
      }
      rebalance := PlaceSuccessor(nd, parent, successor, child2);
      WriteSpliced(old(mem), mem, old(node), node, all, c, t);
    }

    /** The first half of case 4 with the sibling on the right (lines 197-201). */
    method EraseLiftLeft(parent: Ptr, sibling: Ptr, tmp1: Ptr)
      requires NULL !in mem && parent in mem && sibling in mem && tmp1 in mem
      requires var b := mem[sibling].left; (b != NULL ==> b in mem) && Distinct(sibling, parent, b, tmp1, NULL)
      modifies this`mem
      ensures var m := old(mem);
              var b := m[sibling].left;
              && Changes(m, mem, sibling, parent, b, tmp1)
              && sibling in mem && mem[sibling] == m[sibling].(left := parent)
              && parent in mem && mem[parent] == m[parent].(right := b)
              && (b != NULL ==> b in mem && mem[b] == m[b].(parent := parent))
              && tmp1 in mem && mem[tmp1] == m[tmp1].(parent := sibling, red := false)
    {
      var tmp2 := mem[sibling].left;
      mem := SetRight(mem, parent, tmp2);
      if tmp2 != NULL {
        mem := SetParent(mem, tmp2, parent);
      }
      mem := SetLeft(mem, sibling, parent);
      mem := SetParentColor(mem, tmp1, sibling, false);
    }

    /** Case 4 with the sibling on the right (lines 197-202). */
    method EraseCase4Left(parent: Ptr, sibling: Ptr, tmp1: Ptr)
      requires NULL !in mem && parent in mem && sibling in mem && tmp1 in mem
      requires var b, up := mem[sibling].left, mem[parent].parent;
               (b != NULL ==> b in mem) && (up != NULL ==> up in mem) && Distinct(sibling, parent, b, tmp1, up)
      modifies this`node, this`mem
      ensures var m := old(mem);
              var b, up := m[sibling].left, m[parent].parent;
              && Changes(m, mem, sibling, parent, b, tmp1, up)
              && sibling in mem && mem[sibling] == m[sibling].(left := parent, parent := up, red := m[parent].red)
              && parent in mem && mem[parent] == m[parent].(right := b, parent := sibling, red := false)
              && (b != NULL ==> b in mem && mem[b] == m[b].(parent := parent))
              && tmp1 in mem && mem[tmp1] == m[tmp1].(parent := sibling, red := false)
              && Repointed(m, mem, old(node), node, up, parent, sibling)
    {
      EraseLiftLeft(parent, sibling, tmp1);
      RotateSetParents(parent, sibling, false);
    }

    /** Case 3 with the sibling on the right (lines 188-192). */
    method EraseCase3Left(parent: Ptr, sibling: Ptr, tmp2: Ptr)
      requires NULL !in mem && parent in mem && sibling in mem && tmp2 in mem
      requires var d := mem[tmp2].right; (d != NULL ==> d in mem) && Distinct(tmp2, sibling, d, parent, NULL)
      modifies this`mem
      ensures var m := old(mem);
              var d := m[tmp2].right;
              && Changes(m, mem, sibling, parent, tmp2, d)
              && sibling in mem && mem[sibling] == m[sibling].(left := d)
              && parent in mem && mem[parent] == m[parent].(right := tmp2)
              && tmp2 in mem && mem[tmp2] == m[tmp2].(right := sibling)
              && (d != NULL ==> d in mem && mem[d] == m[d].(parent := sibling, red := false))
    {
      var tmp1 := mem[tmp2].right;
      mem := SetLeft(mem, sibling, tmp1);
      if tmp1 != NULL {
        mem := SetParentColor(mem, tmp1, sibling, false);
      }
      mem := SetRight(mem, tmp2, sibling);
      mem := SetRight(mem, parent, tmp2);
    }

    /** Case 3 followed by case 4, with the sibling on the right (lines 188-202). */
    method EraseCases34Left(parent: Ptr, sibling: Ptr, tmp2: Ptr)
      requires NULL !in mem && parent in mem && sibling in mem && tmp2 in mem
      requires var b, d, up := mem[tmp2].right, mem[tmp2].left, mem[parent].parent;
               && (b != NULL ==> b in mem) && (d != NULL ==> d in mem) && (up != NULL ==> up in mem)
               && Distinct(sibling, parent, b, d, up) && Distinct(tmp2, sibling, b, d, up) && tmp2 != parent
      modifies this`node, this`mem
      ensures var m := old(mem);
              var b, d, up := m[tmp2].right, m[tmp2].left, m[parent].parent;
              && Changes(m, mem, sibling, tmp2, parent, b, d, up)
              && sibling in mem && mem[sibling] == m[sibling].(left := b, parent := tmp2, red := false)
              && tmp2 in mem && mem[tmp2] == Cell(parent, sibling, up, m[parent].red)
              && parent in mem && mem[parent] == m[parent].(right := d, parent := tmp2, red := false)
              && (b != NULL ==> b in mem && mem[b] == m[b].(parent := sibling, red := false))
              && (d != NULL ==> d in mem && mem[d] == m[d].(parent := parent))
              && Repointed(m, mem, old(node), node, up, parent, tmp2)
    {
      EraseCase3Left(parent, sibling, tmp2);
      EraseCase4Left(parent, tmp2, sibling);
    }

    /** The first half of case 4 with the sibling on the left (lines 237-241). */
    method EraseLiftRight(parent: Ptr, sibling: Ptr, tmp1: Ptr)
      requires NULL !in mem && parent in mem && sibling in mem && tmp1 in mem
      requires var b := mem[sibling].right; (b != NULL ==> b in mem) && Distinct(sibling, parent, b, tmp1, NULL)
      modifies this`mem
      ensures var m := old(mem);
              var b := m[sibling].right;
              && Changes(m, mem, sibling, parent, b, tmp1)
              && sibling in mem && mem[sibling] == m[sibling].(right := parent)
              && parent in mem && mem[parent] == m[parent].(left := b)
              && (b != NULL ==> b in mem && mem[b] == m[b].(parent := parent))
              && tmp1 in mem && mem[tmp1] == m[tmp1].(parent := sibling, red := false)
    {
      var tmp2 := mem[sibling].right;
      mem := SetLeft(mem, parent, tmp2);
      if tmp2 != NULL {
        mem := SetParent(mem, tmp2, parent);
      }
      mem := SetRight(mem, sibling, parent);
      mem := SetParentColor(mem, tmp1, sibling, false);
    }

    /** Case 4 with the sibling on the left (lines 237-242). */
    method EraseCase4Right(parent: Ptr, sibling: Ptr, tmp1: Ptr)
      requires NULL !in mem && parent in mem && sibling in mem && tmp1 in mem
      requires var b, up := mem[sibling].right, mem[parent].parent;
               (b != NULL ==> b in mem) && (up != NULL ==> up in mem) && Distinct(sibling, parent, b, tmp1, up)
      modifies this`node, this`mem
      ensures var m := old(mem);
              var b, up := m[sibling].right, m[parent].parent;
              && Changes(m, mem, sibling, parent, b, tmp1, up)
              && sibling in mem && mem[sibling] == m[sibling].(right := parent, parent := up, red := m[parent].red)
              && parent in mem && mem[parent] == m[parent].(left := b, parent := sibling, red := false)
              && (b != NULL ==> b in mem && mem[b] == m[b].(parent := parent))
              && tmp1 in mem && mem[tmp1] == m[tmp1].(parent := sibling, red := false)
              && Repointed(m, mem, old(node), node, up, parent, sibling)
    {
      EraseLiftRight(parent, sibling, tmp1);
      RotateSetParents(parent, sibling, false);
    }

    /** Case 3 with the sibling on the left (lines 228-232). */
    method EraseCase3Right(parent: Ptr, sibling: Ptr, tmp2: Ptr)
      requires NULL !in mem && parent in mem && sibling in mem && tmp2 in mem
      requires var d := mem[tmp2].left; (d != NULL ==> d in mem) && Distinct(tmp2, sibling, d, parent, NULL)
      modifies this`mem
      ensures var m := old(mem);
              var d := m[tmp2].left;
              && Changes(m, mem, sibling, parent, tmp2, d)
              && sibling in mem && mem[sibling] == m[sibling].(right := d)
              && parent in mem && mem[parent] == m[parent].(left := tmp2)
              && tmp2 in mem && mem[tmp2] == m[tmp2].(left := sibling)
              && (d != NULL ==> d in mem && mem[d] == m[d].(parent := sibling, red := false))
    {
      var tmp1 := mem[tmp2].left;
      mem := SetRight(mem, sibling, tmp1);
      if tmp1 != NULL {
        mem := SetParentColor(mem, tmp1, sibling, false);
      }
      mem := SetLeft(mem, tmp2, sibling);
      mem := SetLeft(mem, parent, tmp2);
    }

    /** Case 3 followed by case 4, with the sibling on the left (lines 228-242). */
    method EraseCases34Right(parent: Ptr, sibling: Ptr, tmp2: Ptr)
      requires NULL !in mem && parent in mem && sibling in mem && tmp2 in mem
      requires var b, d, up := mem[tmp2].left, mem[tmp2].right, mem[parent].parent;
               && (b != NULL ==> b in mem) && (d != NULL ==> d in mem) && (up != NULL ==> up in mem)
               && Distinct(sibling, parent, b, d, up) && Distinct(tmp2, sibling, b, d, up) && tmp2 != parent
      modifies this`node, this`mem
      ensures var m := old(mem);
              var b, d, up := m[tmp2].left, m[tmp2].right, m[parent].parent;
              && Changes(m, mem, sibling, tmp2, parent, b, d, up)
              && sibling in mem && mem[sibling] == m[sibling].(right := b, parent := tmp2, red := false)
              && tmp2 in mem && mem[tmp2] == Cell(sibling, parent, up, m[parent].red)
              && parent in mem && mem[parent] == m[parent].(left := d, parent := tmp2, red := false)
              && (b != NULL ==> b in mem && mem[b] == m[b].(parent := sibling, red := false))
              && (d != NULL ==> d in mem && mem[d] == m[d].(parent := parent))
              && Repointed(m, mem, old(node), node, up, parent, tmp2)
    {
      EraseCase3Right(parent, sibling, tmp2);
      EraseCase4Right(parent, tmp2, sibling);
    }

    method EraseOuterLeft(parent: Ptr, sibling: Ptr, tmp1: Ptr, ghost c: Ctx, ghost t: Tree, ghost pc: bool,
                          ghost b: Tree, ghost e: Tree)
      requires Fits(mem, c, Bin(t, parent, pc, Bin(b, sibling, false, e)), node, all) && e.Bin? && e.n == tmp1
      modifies this`node, this`mem
      ensures Rebuilt(old(mem), mem, c, Bin(Bin(t, parent, false, b), sibling, pc, Tint(e, false)), node, all)
    {
      ReadLeft(mem, node, all, c, t, parent, pc, b, sibling, false, e);
      EraseCase4Left(parent, sibling, tmp1);
      WriteLeft(old(mem), mem, old(node), node, all, c, t, parent, pc, b, sibling, false, e, false, pc,
                b.Bin? && b.red, false);
    }

    method EraseInnerLeft(parent: Ptr, sibling: Ptr, tmp2: Ptr, ghost c: Ctx, ghost t: Tree, ghost pc: bool,
                          ghost d: Tree, ghost b: Tree, ghost e: Tree)
      requires Fits(mem, c, Bin(t, parent, pc, Bin(Bin(d, tmp2, true, b), sibling, false, e)), node, all) && Black(d)
      requires Black(b)
      modifies this`node, this`mem
      ensures Rebuilt(old(mem), mem, c, Bin(Bin(t, parent, false, d), tmp2, pc, Bin(b, sibling, false, e)), node, all)
    {
      ReadDoubleLeft(mem, node, all, c, t, parent, pc, d, tmp2, true, b, sibling, false, e);
      EraseCases34Left(parent, sibling, tmp2);
      WriteDoubleLeft(old(mem), mem, old(node), node, all, c, t, parent, pc, d, tmp2, true, b, sibling, false, e,
                      false, pc, false);
    }

    method EraseOuterRight(parent: Ptr, sibling: Ptr, tmp1: Ptr, ghost c: Ctx, ghost t: Tree, ghost pc: bool,
                           ghost b: Tree, ghost e: Tree)
      requires Fits(mem, c, Bin(Bin(e, sibling, false, b), parent, pc, t), node, all) && e.Bin? && e.n == tmp1
      modifies this`node, this`mem
      ensures Rebuilt(old(mem), mem, c, Bin(Tint(e, false), sibling, pc, Bin(b, parent, false, t)), node, all)
    {
      ReadRight(mem, node, all, c, e, sibling, false, b, parent, pc, t);
      EraseCase4Right(parent, sibling, tmp1);
      WriteRight(old(mem), mem, old(node), node, all, c, e, sibling, false, b, parent, pc, t, false, pc,
                 b.Bin? && b.red, false);
    }

    method EraseInnerRight(parent: Ptr, sibling: Ptr, tmp2: Ptr, ghost c: Ctx, ghost t: Tree, ghost pc: bool,
                           ghost d: Tree, ghost b: Tree, ghost e: Tree)
      requires Fits(mem, c, Bin(Bin(e, sibling, false, Bin(b, tmp2, true, d)), parent, pc, t), node, all) && Black(d)
      requires Black(b)
      modifies this`node, this`mem
      ensures Rebuilt(old(mem), mem, c, Bin(Bin(e, sibling, false, b), tmp2, pc, Bin(d, parent, false, t)), node, all)
    {
      ReadDoubleRight(mem, node, all, c, e, sibling, false, b, tmp2, true, d, parent, pc, t);
      EraseCases34Right(parent, sibling, tmp2);
      WriteDoubleRight(old(mem), mem, old(node), node, all, c, e, sibling, false, b, tmp2, true, d, parent, pc, t,
                       false, pc, false);
    }

    /** Case 2 (lines 177-179, 217-219): the sibling turns red and the parent black. */
    method EraseSink(parent: Ptr, sibling: Ptr, ghost c: Ctx, ghost t: Tree) returns (up: bool)
      requires !c.Top? && Fits(mem, c, t, node, all) && c.n == parent && Black(t)
      requires Uncle(c).Bin? && Uncle(c).n == sibling && !Uncle(c).red && Black(Uncle(c).l) && Black(Uncle(c).r)
      modifies this`mem
      ensures Rebuilt(old(mem), mem, c.up, ErasedTree(c, t), node, all) && up == !c.red
    {
      ghost var pt := Fill(c, t);
      Ascend(mem, c, t, node, all);
      ReadNode(mem, c.up, pt, node, all);
      mem := SetParentColor(mem, sibling, parent, true);
      if mem[parent].red {
        mem := mem[parent := mem[parent].(red := false)];
        up := false;
      } else {
        up := true;
      }
      WriteColors(old(mem), mem, node, all, c.up, pt, c.InRight?, false, c.InLeft?);
    }

    /** A turn of the loop of `__rb_erase_fix` with a black sibling on the right (lines 173-203). */
    method EraseBlackLeft(parent: Ptr, sibling: Ptr, ghost c: Ctx, ghost t: Tree, ghost h: nat) returns (up: bool)
      requires c.InLeft? && Fits(mem, c, t, node, all) && Deficient(c, t, h) && c.n == parent
      requires Uncle(c).Bin? && Uncle(c).n == sibling && !Uncle(c).red
      modifies this`node, this`mem
      ensures Rebuilt(old(mem), mem, c.up, ErasedTree(c, t), node, all) && up == StillShort(c)
    {
      ghost var pt, w := Fill(c, t), Uncle(c);
      SiblingRb(c, t, h);
      Ascend(mem, c, t, node, all);
      Descend(mem, c.up, pt, node, all);
      ReadNode(mem, InRight(c.up, pt.n, pt.red, pt.l), w, node, all);
      up := false;
      var tmp1 := mem[sibling].right;
      if tmp1 == NULL || !mem[tmp1].red {
        var tmp2 := mem[sibling].left;
        if tmp2 == NULL || !mem[tmp2].red {
          up := EraseSink(parent, sibling, c, t);
        } else {
          EraseInnerLeft(parent, sibling, tmp2, c.up, t, c.red, w.l.l, w.l.r, w.r);
        }
      } else {
        EraseOuterLeft(parent, sibling, tmp1, c.up, t, c.red, w.l, w.r);
      }
    }

    /** A turn of the loop of `__rb_erase_fix` with a black sibling on the left (lines 213-243). */
    method EraseBlackRight(parent: Ptr, sibling: Ptr, ghost c: Ctx, ghost t: Tree, ghost h: nat) returns (up: bool)
      requires c.InRight? && Fits(mem, c, t, node, all) && Deficient(c, t, h) && c.n == parent
      requires Uncle(c).Bin? && Uncle(c).n == sibling && !Uncle(c).red
      modifies this`node, this`mem
      ensures Rebuilt(old(mem), mem, c.up, ErasedTree(c, t), node, all) && up == StillShort(c)
    {
      ghost var pt, w := Fill(c, t), Uncle(c);
      SiblingRb(c, t, h);
      Ascend(mem, c, t, node, all);
      Descend(mem, c.up, pt, node, all);
      ReadNode(mem, InLeft(c.up, pt.n, pt.red, pt.r), w, node, all);
      up := false;
      var tmp1 := mem[sibling].left;
      if tmp1 == NULL || !mem[tmp1].red {
        var tmp2 := mem[sibling].right;
        if tmp2 == NULL || !mem[tmp2].red {
          up := EraseSink(parent, sibling, c, t);
        } else {
          EraseInnerRight(parent, sibling, tmp2, c.up, t, c.red, w.r.r, w.r.l, w.l);
        }
      } else {
        EraseOuterRight(parent, sibling, tmp1, c.up, t, c.red, w.r, w.l);
      }
    }

    /** Case 1 with the sibling on the right (lines 167-171). */
    method EraseCase1Left(parent: Ptr, sibling_: Ptr, ghost c: Ctx, ghost t: Tree, ghost h: nat) returns (sibling: Ptr)
      requires c.InLeft? && Fits(mem, c, t, node, all) && Deficient(c, t, h) && c.n == parent
      requires c.r.Bin? && c.r.n == sibling_ && c.r.red
      modifies this`node, this`mem
      ensures Rebuilt(old(mem), mem, AfterCase1(c), t, node, all) && sibling == RootOf(c.r.l)
    {
      ghost var w := c.r;
      SiblingRb(c, t, h);
      Ascend(mem, c, t, node, all);
      ReadLeft(mem, node, all, c.up, t, parent, false, w.l, sibling_, true, w.r);
      sibling := mem[sibling_].left;
      InsertOuterRight(sibling_, parent, c.up, w.r, w.l, t);
      Descend(mem, c.up, Bin(Bin(t, parent, true, w.l), sibling_, false, w.r), node, all);
      Descend(mem, AfterCase1(c).up, Bin(t, parent, true, w.l), node, all);
    }

    method EraseCase1Right(parent: Ptr, sibling_: Ptr, ghost c: Ctx, ghost t: Tree, ghost h: nat) returns (sibling: Ptr)
      requires c.InRight? && Fits(mem, c, t, node, all) && Deficient(c, t, h) && c.n == parent
      requires c.l.Bin? && c.l.n == sibling_ && c.l.red
      modifies this`node, this`mem
      ensures Rebuilt(old(mem), mem, AfterCase1(c), t, node, all) && sibling == RootOf(c.l.r)
    {
      ghost var w := c.l;
      SiblingRb(c, t, h);
      Ascend(mem, c, t, node, all);
      ReadRight(mem, node, all, c.up, w.l, sibling_, true, w.r, parent, false, t);
      sibling := mem[sibling_].right;
      InsertOuterLeft(sibling_, parent, c.up, w.l, w.r, t);
      Descend(mem, c.up, Bin(w.l, sibling_, false, Bin(w.r, parent, true, t)), node, all);
      Descend(mem, AfterCase1(c).up, Bin(w.r, parent, true, t), node, all);
    }

    /** One turn of the loop of `__rb_erase_fix` (lines 164-244). */
    method EraseStep(nd: Ptr, parent: Ptr, ghost c: Ctx, ghost t: Tree, ghost h: nat) returns (up: bool, ghost c': Ctx)
      requires Fits(mem, c, t, node, all) && Deficient(c, t, h) && c.n == parent && nd == RootOf(t)
      modifies this`node, this`mem
      ensures Uncle(c).Bin? && c' == (if Uncle(c).red then AfterCase1(c) else c)
      ensures Deficient(c', t, h) && Uncle(c').Bin? && !Uncle(c').red
      ensures Rebuilt(old(mem), mem, c'.up, ErasedTree(c', t), node, all) && up == StillShort(c')
    {
      SiblingRb(c, t, h);
      Ascend(mem, c, t, node, all);
      ReadNode(mem, c.up, Fill(c, t), node, all);
      c' := c;
      var sibling := mem[parent].right;
      if nd != sibling {
        if mem[sibling].red {
          Case1Rb(c, t, h);
          sibling := EraseCase1Left(parent, sibling, c, t, h);
          c' := AfterCase1(c);
        }
        up := EraseBlackLeft(parent, sibling, c', t, h);
      } else {
        sibling := mem[parent].left;
        if mem[sibling].red {
          Case1Rb(c, t, h);
          sibling := EraseCase1Right(parent, sibling, c, t, h);
          c' := AfterCase1(c);
        }
        up := EraseBlackRight(parent, sibling, c', t, h);
      }
    }

    /** `__rb_erase_fix` */
    method EraseFix(parent_: Ptr, ghost c0: Ctx, ghost h0: nat) returns (ghost c: Ctx, ghost t: Tree, ghost h: nat)
      requires Fits(mem, c0, Leaf, node, all) && Deficient(c0, Leaf, h0) && c0.n == parent_
      modifies this`node, this`mem
      ensures Rebuilt(old(mem), mem, c, t, node, all) && Sound(c, t, h) && Outermost(c) == Outermost(c0)
    {
      var nd, parent := NULL, parent_;
      c, t, h := c0, Leaf, h0;
      while true
        invariant Fits(mem, c, t, node, all) && Deficient(c, t, h) && c.n == parent && nd == RootOf(t)
        invariant Outermost(c) == Outermost(c0) && Frame(old(mem), mem, all)
        decreases c
      {
        var up;
        ghost var c', t';
        up, c' := EraseStep(nd, parent, c, t, h);
        ErasedRb(c', t, h);
        t' := ErasedTree(c', t);
        if !up {
          c, t, h := c'.up, t', if c'.red then h + 1 else h + 2;
          return;
        }
        Read(mem, c'.up, t', node, all);
        nd := parent;
        parent := mem[nd].parent;
        c, t, h := c'.up, t', h + 1;
        if parent == NULL {
          return;
        }
      }
    }

    /** `_rb_erase` */
    method Erase(nd: Ptr)
      requires Valid() && nd in all
      modifies this
      ensures Valid() && all == old(all) - {nd} && Frame(old(mem), mem, old(all))
    {
      ghost var h: nat :| Rb(tree, h);
      ghost var c, t;
      assert Fitting(mem, nd, CellIn(Top(lo, hi), tree, nd), all);
      c, t, h := Locate(mem, Top(lo, hi), tree, node, all, h, nd);
      ReadNode(mem, c, t, node, all);
      var rebalance;
      if mem[nd].left == NULL || mem[nd].right == NULL {
        rebalance := EraseSkip(nd, c, t, h);
        all := all - {nd};
        c, t, h := c, Tint(OnlyChild(t), t.red), if OnlyChild(t).Bin? then h else 0;
      } else {
        rebalance := EraseSplice(nd, c, t);
        all := all - {nd};
        c, t, h := AfterSplice(mem, node, all, c, t, h);
      }
      if rebalance != NULL {
        c, t, h := EraseFix(rebalance, c, h);
      }
      Close(mem, c, t, node, all, h);
      tree := Plug(c, t);
    }

    /** `_rb_lookup`; `visited` counts the nodes it looks at. */
    method Lookup(nd: Ptr) returns (r: Ptr, ghost visited: nat)
      requires Valid()
      ensures r != NULL ==> r in all && !Less(nd, r) && !Less(r, nd)
      ensures r == NULL ==> forall x :: x in all ==> Less(nd, x) || Less(x, nd)
      ensures Pow2(visited) <= (|all| + 1) * (|all| + 1)
    {
      AllNodes(mem, Top(lo, hi), tree, node, all);
      var nw := node;
      ghost var c := Top(if nd.key <= lo then nd.key - 1.0 else lo, if hi <= nd.key then nd.key + 1.0 else hi);
      ghost var t := tree;
      WidenFits(mem, tree, lo, hi, c.lo, c.hi, node, all);
      visited := 0;
      while nw != NULL
        invariant Fits(mem, c, t, node, all) && nw == RootOf(t) && visited + Height(t) <= Height(tree)
        invariant Lo(c) < nd.key < Hi(c)
        decreases t
      {
        Read(mem, c, t, node, all);
        Descend(mem, c, t, node, all);
        visited := visited + 1;
        if Less(nd, nw) {
          nw := mem[nw].left;
          c, t := InLeft(c, t.n, t.red, t.r), t.l;
        } else if Less(nw, nd) {
          nw := mem[nw].right;
          c, t := InRight(c, t.n, t.red, t.l), t.r;
        } else {
          HeightBound(tree, visited, lo, hi);
          return nw, visited;
        }
      }
      forall x | x in all
        ensures Less(nd, x) || Less(x, nd)
      {
        assert Fitting(mem, x, CellIn(c, t, x), all);
      }
      HeightBound(tree, visited, lo, hi);
      r := NULL;
    }

    /** `_rb_first` */
    method First() returns (r: Ptr, ghost visited: nat)
      requires Valid()
      ensures r == NULL <==> all == {}
      ensures r != NULL ==> r in all && forall x :: x in all && x != r ==> Less(r, x)
      ensures Pow2(visited) <= (|all| + 1) * (|all| + 1)
    {
      AllNodes(mem, Top(lo, hi), tree, node, all);
      r := node;
      visited := 0;
      if r == NULL {
        return;
      }
      ghost var c, t := Top(lo, hi), tree;
      Read(mem, c, t, node, all);
      visited := 1;
      while mem[r].left != NULL
        invariant Fits(mem, c, t, node, all) && t.Bin? && r == t.n && r in mem
        invariant visited + Height(t) <= 1 + Height(tree)
        invariant mem[r].left == RootOf(t.l) && Lo(c) == lo
        decreases t
      {
        ReadNode(mem, c, t, node, all);
        Descend(mem, c, t, node, all);
        r := mem[r].left;
        c, t := InLeft(c, t.n, t.red, t.r), t.l;
        Read(mem, c, t, node, all);
        visited := visited + 1;
      }
      ReadNode(mem, c, t, node, all);
      assert Fitting(mem, r, CellIn(c, t, r), all);
      forall x | x in all && x != r
        ensures Less(r, x)
      {
        AtNodes(tree, NULL, x, lo, hi);
        assert Fitting(mem, x, CellIn(c, t, x), all);
        assert At(Leaf, r, x) == None;
      }
      HeightBound(tree, visited, lo, hi);
    }
  }

  // ----- what a valid tree means in memory

  /** The fields of one node agree with those of its neighbours, and break no rule. */
  ghost predicate Agrees(m: Mem, all: set<Ptr>, top: Ptr, n: Ptr)
    requires n in m
  {
    var x := m[n];
    && (x.left != NULL ==>
          x.left in all && x.left in m && m[x.left].parent == n && Less(x.left, n) && !(x.red && m[x.left].red))
    && (x.right != NULL ==>
          x.right in all && x.right in m && m[x.right].parent == n && Less(n, x.right) && !(x.red && m[x.right].red))
    && (x.left == x.right ==> x.left == NULL)
    && if x.parent == NULL then top == n && !x.red
       else x.parent in all && x.parent in m && (m[x.parent].left == n || m[x.parent].right == n)
  }

  lemma {:induction false} ValidAgrees(m: Mem, lo: real, hi: real, t: Tree, top: Ptr, all: set<Ptr>, n: Ptr)
    requires Fits(m, Top(lo, hi), t, top, all) && RedBlack(t) && n in all
    ensures n in m && Agrees(m, all, top, n)
  {
    var h: nat :| Rb(t, h);
    assert Fitting(m, n, CellIn(Top(lo, hi), t, n), all);
    var c, s, k := Locate(m, Top(lo, hi), t, top, all, h, n);
    ReadNode(m, c, s, top, all);
    Read(m, c, s, top, all);
    Descend(m, c, s, top, all);
    if s.l.Bin? { Read(m, InLeft(c, s.n, s.red, s.r), s.l, top, all); }
    if s.r.Bin? { Read(m, InRight(c, s.n, s.red, s.l), s.r, top, all); }
    if !c.Top? {
      Ascend(m, c, s, top, all);
      Read(m, c.up, Fill(c, s), top, all);
    }
  }

  /** The path, left for `true`, leads from `p` through nodes to NULL. */
  ghost predicate Leads(m: Mem, p: Ptr, path: seq<bool>)
    decreases |path|
  {
    if path == [] then p == NULL
    else p in m && Leads(m, if path[0] then m[p].left else m[p].right, path[1..])
  }

  ghost function Blacks(m: Mem, p: Ptr, path: seq<bool>): nat
    requires Leads(m, p, path)
    decreases |path|
  {
    if path == [] then 0
    else (if m[p].red then 0 else 1) + Blacks(m, if path[0] then m[p].left else m[p].right, path[1..])
  }

  lemma {:induction false} PathBlacks(m: Mem, c: Ctx, t: Tree, top: Ptr, all: set<Ptr>, h: nat, path: seq<bool>)
    requires Fits(m, c, t, top, all) && Rb(t, h) && Leads(m, RootOf(t), path)
    ensures Blacks(m, RootOf(t), path) == h
    decreases t
  {
    if t.Bin? {
      ReadNode(m, c, t, top, all);
      Descend(m, c, t, top, all);
      var k := if t.red then h else h - 1;
      if path[0] {
        PathBlacks(m, InLeft(c, t.n, t.red, t.r), t.l, top, all, k, path[1..]);
      } else {
        PathBlacks(m, InRight(c, t.n, t.red, t.l), t.r, top, all, k, path[1..]);
      }
    }
  }

  /** All ways down from the root meet the same number of black nodes. */
  lemma {:induction false} EqualBlacks(m: Mem, lo: real, hi: real, t: Tree, top: Ptr, all: set<Ptr>, p: seq<bool>,
                                       q: seq<bool>)
    requires Fits(m, Top(lo, hi), t, top, all) && RedBlack(t) && Leads(m, top, p) && Leads(m, top, q)
    ensures Blacks(m, top, p) == Blacks(m, top, q)
  {
    var h: nat :| Rb(t, h);
    PathBlacks(m, Top(lo, hi), t, top, all, h, p);
    PathBlacks(m, Top(lo, hi), t, top, all, h, q);
  }
}
