/** Taking a node out of a red-black tree: the splices of `__rb_erase`, and what they leave behind. */
module RbSplice {
  import opened Basics
  import opened RbShape
  import opened RbRotate

  // ----- the leftmost node of a tree

  /** The subtree rooted at the leftmost node. */
  ghost function MinNode(t: Tree): Tree
    requires t.Bin?
    ensures MinNode(t).Bin? && MinNode(t).l.Leaf?
  {
    if t.l.Leaf? then t else MinNode(t.l)
  }

  /** The parent of the leftmost node, when that is not the root. */
  ghost function MinParent(t: Tree): Ptr
    requires t.Bin? && t.l.Bin?
  {
    if t.l.l.Leaf? then t.n else MinParent(t.l)
  }

  /** The tree without its leftmost node, whose right child moves up and turns black. */
  ghost function DelMin(t: Tree): Tree
    requires t.Bin?
  {
    if t.l.Leaf? then Tint(t.r, false) else Bin(DelMin(t.l), t.n, t.red, t.r)
  }

  lemma {:induction false} MinOrder(t: Tree, lo: real, hi: real)
    requires t.Bin? && Ordered(t, lo, hi)
    ensures lo < MinNode(t).n.key < hi && MinNode(t).n != NULL
    ensures Ordered(DelMin(t), MinNode(t).n.key, hi)
    ensures t.l.Bin? ==> MinNode(t).n.key < MinParent(t).key < hi && MinNode(t).n.key < t.n.key && MinParent(t) != NULL
    ensures var s := MinNode(t).r; s.Bin? ==>
        s.n != NULL && MinNode(t).n.key < s.n.key < hi && (t.l.Bin? ==> s.n.key < MinParent(t).key)
    ensures RootOf(DelMin(t)) == if t.l.Leaf? then RootOf(t.r) else t.n
    decreases t
  {
    if t.l.Bin? {
      MinOrder(t.l, lo, t.n.key);
    } else {
      TintOrdered(t.r, false, t.n.key, hi);
      assert t.r.Bin? ==> Ordered(t.r, t.n.key, hi);
    }
  }

  lemma {:induction false} DelMinCells(t: Tree, par: Ptr, n: Ptr, lo: real, hi: real)
    requires t.Bin? && Ordered(t, lo, hi)
    ensures var mn := MinNode(t);
            var before, after := At(t, par, n), At(DelMin(t), par, n);
            if n == mn.n then before.Some? && before.value.right == RootOf(mn.r) && before.value.red == mn.red &&
              after == None
            else if mn.r.Bin? && n == mn.r.n then
              before.Some? && after == Some(before.value.(parent := if t.l.Leaf? then par else MinParent(t),
                                                          red := false))
            else if t.l.Bin? && n == MinParent(t)
              then before.Some? && after == Some(before.value.(left := RootOf(mn.r)))
            else after == before
    decreases t
  {
    MinOrder(t, lo, hi);
    if t.l.Bin? {
      MinOrder(t.l, lo, t.n.key);
      DelMinCells(t.l, t.n, n, lo, t.n.key);
      if n.key >= t.n.key && n != t.n {
        Absent(DelMin(t.l), t.n, n, MinNode(t).n.key, t.n.key); Absent(t.l, t.n, n, lo, t.n.key);
      }
    } else {
      Regraft(t.r, t.n, par, false, n);
      Absent(t.r, t.n, t.n, t.n.key, hi);
      Absent(Tint(t.r, false), par, t.n, t.n.key, hi);
      if n.key <= t.n.key { Absent(Tint(t.r, false), par, n, t.n.key, hi); }
    }
  }

  // ----- replacing a node by its successor

  /** `t` after its root has been replaced by its in-order successor. */
  ghost function Spliced(t: Tree): Tree
    requires t.Bin? && t.r.Bin?
  {
    Bin(t.l, MinNode(t.r).n, t.red, DelMin(t.r))
  }

  /** The parent, after the splice, of the place the successor came from. */
  ghost function SpliceParent(t: Tree): Ptr
    requires t.Bin? && t.r.Bin?
  {
    if t.r.l.Leaf? then t.r.n else MinParent(t.r)
  }

  lemma {:induction false} SplicedCells(t: Tree, par: Ptr, n: Ptr, lo: real, hi: real)
    requires t.Bin? && t.l.Bin? && t.r.Bin? && Ordered(t, lo, hi)
    ensures Ordered(Spliced(t), lo, hi)
    ensures var s, mr, q := MinNode(t.r).n, MinNode(t.r).r, SpliceParent(t);
            var before, after := At(t, par, n), At(Spliced(t), par, n);
            if n == t.n then before.Some? && after == None
            else if n == s then before.Some? &&
              after == Some(Cell(t.l.n, if t.r.l.Leaf? then RootOf(mr) else t.r.n, par, t.red))
            else if n == t.l.n then before.Some? && after == Some(before.value.(parent := s))
            else if mr.Bin? && n == mr.n then before.Some? && after == Some(before.value.(parent := q, red := false))
            else if n == q then before.Some? &&
              after == Some(before.value.(left := RootOf(mr), parent := if n == t.r.n then s else before.value.parent))
            else if n == t.r.n then before.Some? && after == Some(before.value.(parent := s))
            else after == before
  {
    var s := MinNode(t.r).n;
    MinOrder(t.r, t.n.key, hi);
    Widen(t.l, lo, t.n.key, lo, s.key);
    DelMinCells(t.r, t.n, n, t.n.key, hi);
    AtParent(t.l, t.n, s, n);
    AtParent(DelMin(t.r), t.n, s, n);
    if n.key >= t.n.key { Absent(t.l, t.n, n, lo, t.n.key); Absent(t.l, s, n, lo, t.n.key); }
    if n.key <= s.key { Absent(DelMin(t.r), t.n, n, s.key, hi); }
    if n.key <= t.n.key { Absent(t.r, t.n, n, t.n.key, hi); }
    assert Ordered(t.l, lo, t.n.key);
  }

  lemma {:induction false} WriteSpliced(m: Mem, m': Mem, top: Ptr, top': Ptr, all: set<Ptr>, c: Ctx, t: Tree)
    requires Fits(m, c, t, top, all) && t.Bin? && t.l.Bin? && t.r.Bin?
    requires var s, mr, q := MinNode(t.r).n, MinNode(t.r).r, SpliceParent(t);
             && s in m' && m'[s] == Cell(t.l.n, if t.r.l.Leaf? then RootOf(mr) else t.r.n, Above(c), t.red)
             && t.l.n in m && t.l.n in m' && m'[t.l.n] == m[t.l.n].(parent := s)
             && (mr.Bin? ==> mr.n in m && mr.n in m' && m'[mr.n] == m[mr.n].(parent := q, red := false))
             && (t.r.l.Bin? ==>
                   q in m && q in m' && m'[q] ==
                     m[q].(left := RootOf(mr), parent := if q == t.r.n then s else m[q].parent))
             && (t.r.l.Bin? && t.r.n != q ==> t.r.n in m && t.r.n in m' && m'[t.r.n] == m[t.r.n].(parent := s))
             && Repointed(m, m', top, top', Above(c), t.n, s)
             && Changes(m, m', s, t.l.n, RootOf(mr), q, t.r.n, Above(c))
    ensures Fits(m', c, Spliced(t), top', all - {t.n}) && Frame(m, m', all)
  {
    var t', s := Spliced(t), MinNode(t.r).n;
    MinOrder(t.r, t.n.key, Hi(c));
    forall n
      ensures Fitting(m', n, CellIn(c, t', n), all - {t.n}) && (n in m && n !in all ==> n in m' && m'[n] == m[n]) {
      assert Fitting(m, n, CellIn(c, t, n), all);
      SplicedCells(t, Above(c), n, Lo(c), Hi(c));
      Refill(c, t.n, s, n);
    }
    SplicedCells(t, Above(c), s, Lo(c), Hi(c));
  }

  lemma {:induction false} ReadSpliced(m: Mem, top: Ptr, all: set<Ptr>, c: Ctx, t: Tree)
    requires Fits(m, c, t, top, all) && t.Bin? && t.l.Bin? && t.r.Bin?
    ensures var s, mr, q := MinNode(t.r).n, MinNode(t.r).r, SpliceParent(t);
            && {t.n, t.l.n, t.r.n, s, q} <= m.Keys && (mr.Bin? ==> mr.n in m)
            && m[t.n] == Cell(t.l.n, t.r.n, Above(c), t.red)
            && m[s].right == RootOf(mr) && m[s].red == MinNode(t.r).red
            && (t.r.l.Leaf? <==> s == t.r.n) && (t.r.l.Leaf? <==> s == q)
            && s !in {t.n, t.l.n, Above(c)} && t.l.n !in {t.n, q, t.r.n, Above(c)} && t.n !in {q, t.r.n, Above(c)} &&
                 Above(c) !in {q, t.r.n}
            && (mr.Bin? ==> mr.n != NULL && mr.n !in {s, t.n, t.l.n, q, Above(c)} && (t.r.l.Bin? ==> mr.n != t.r.n))
            && (Above(c) != NULL ==> Above(c) in m)
  {
    var s, mr, q := MinNode(t.r).n, MinNode(t.r).r, SpliceParent(t);
    ReadNode(m, c, t, top, all);
    Read(m, c, t, top, all);
    MinOrder(t.r, t.n.key, Hi(c));
    assert Ordered(t.l, Lo(c), t.n.key) && Ordered(t.r, t.n.key, Hi(c));
    assert Fitting(m, s, CellIn(c, t, s), all) && Fitting(m, q, CellIn(c, t, q), all) &&
      Fitting(m, RootOf(mr), CellIn(c, t, RootOf(mr)), all);
    DelMinCells(t.r, t.n, s, t.n.key, Hi(c));
    DelMinCells(t.r, t.n, q, t.n.key, Hi(c));
    DelMinCells(t.r, t.n, RootOf(mr), t.n.key, Hi(c));
    if mr.Bin? && t.r.l.Bin? { MinBelowRoot(t.r, t.n.key, Hi(c)); }
  }

  lemma {:induction false} MinBelowRoot(t: Tree, lo: real, hi: real)
    requires t.Bin? && t.l.Bin? && Ordered(t, lo, hi)
    ensures MinNode(t).r.Bin? ==> MinNode(t).r.n.key < t.n.key
  {
    MinOrder(t.l, lo, t.n.key);
  }

  // ----- removing a node with at most one child

  /** The only child tree of the root, or `Leaf`. */
  ghost function OnlyChild(t: Tree): Tree
    requires t.Bin?
  {
    if t.l.Leaf? then t.r else t.l
  }

  lemma {:induction false} SkippedCells(c: Ctx, t: Tree, n: Ptr)
    requires AllOrdered(c, t) && t.Bin? && (t.l.Leaf? || t.r.Leaf?)
    ensures AllOrdered(c, Tint(OnlyChild(t), t.red))
    ensures var s := OnlyChild(t);
            var before, after := CellIn(c, t, n), CellIn(c, Tint(s, t.red), n);
            if n == t.n then before.Some? && after == None
            else if s.Bin? && n == s.n then before.Some? &&
              after == Some(before.value.(parent := Above(c), red := t.red))
            else if c.InLeft? && n == c.n then before.Some? && before.value.left == t.n &&
              after == Some(before.value.(left := RootOf(s)))
            else if c.InRight? && n == c.n then before.Some? && before.value.left != t.n &&
              after == Some(before.value.(right := RootOf(s)))
            else after == before
  {
    var s := OnlyChild(t);
    TintOrdered(s, t.red, Lo(c), Hi(c));
    if t.l.Leaf? {
      Widen(t.r, t.n.key, Hi(c), Lo(c), Hi(c));
      if n.key <= t.n.key { Absent(t.r, t.n, n, t.n.key, Hi(c)); }
    } else {
      Widen(t.l, Lo(c), t.n.key, Lo(c), Hi(c));
      if t.n.key <= n.key { Absent(t.l, t.n, n, Lo(c), t.n.key); }
    }
    Refill(c, t.n, RootOf(s), n);
    Regraft(s, t.n, Above(c), t.red, n);
    assert At(Leaf, t.n, n) == None;
  }

  lemma {:induction false} WriteSkipped(m: Mem, m': Mem, top: Ptr, top': Ptr, all: set<Ptr>, c: Ctx, t: Tree)
    requires Fits(m, c, t, top, all) && t.Bin? && (t.l.Leaf? || t.r.Leaf?)
    requires Regrafted(m, m', OnlyChild(t), Above(c), t.red)
    requires Repointed(m, m', top, top', Above(c), t.n, RootOf(OnlyChild(t)))
    requires Changes(m, m', RootOf(OnlyChild(t)), Above(c))
    ensures Fits(m', c, Tint(OnlyChild(t), t.red), top', all - {t.n}) && Frame(m, m', all)
  {
    var t' := Tint(OnlyChild(t), t.red);
    forall n
      ensures Fitting(m', n, CellIn(c, t', n), all - {t.n}) && (n in m && n !in all ==> n in m' && m'[n] == m[n]) {
      assert Fitting(m, n, CellIn(c, t, n), all);
      SkippedCells(c, t, n);
    }
    SkippedCells(c, t, t.n);
  }

  // ----- what happens to the black heights

  /** The way down to where the leftmost node of `t` was. */
  ghost function Spine(c: Ctx, t: Tree): Ctx
    requires t.Bin?
    decreases t
  {
    if t.l.Leaf? then c else Spine(InLeft(c, t.n, t.red, t.r), t.l)
  }

  lemma {:induction false} DelMinRb(t: Tree, h: nat)
    requires t.Bin? && Rb(t, h) && (MinNode(t).red || MinNode(t).r.Bin?)
    ensures Rb(DelMin(t), h) && (Black(t) ==> Black(DelMin(t)))
    decreases t
  {
    if t.l.Bin? {
      DelMinRb(t.l, if t.red then h else h - 1);
    } else {
      assert Rb(t.l, 0) && Rb(t.r, 0);
    }
  }

  /** A black successor without a child leaves a leaf that is one black node short. */
  lemma {:induction false} SpineRb(m: Mem, top: Ptr, all: set<Ptr>, c: Ctx, t: Tree, h: nat)
    requires t.Bin? && Sound(c, t, h) && !MinNode(t).red && MinNode(t).r.Leaf?
    requires Fits(m, c, DelMin(t), top, all)
    ensures CtxRb(Spine(c, t), 1) && Fits(m, Spine(c, t), Leaf, top, all) && Outermost(Spine(c, t)) == Outermost(c)
    ensures Above(Spine(c, t)) == (if t.l.Leaf? then Above(c) else MinParent(t)) && (!c.Top? ==> !Spine(c, t).Top?)
    decreases t
  {
    if t.l.Bin? {
      Descend(m, c, DelMin(t), top, all);
      SpineRb(m, top, all, InLeft(c, t.n, t.red, t.r), t.l, if t.red then h else h - 1);
    } else {
      assert Rb(t.l, h - 1);
    }
  }
}
