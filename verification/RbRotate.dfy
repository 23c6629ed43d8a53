/** The shape changes of `src/common/rbtree.c`, as statements about trees and about memory. */
module RbRotate {
  import opened Basics
  import opened RbShape

  // ----- what the code does to the cells

  /** The pointer to `from`, in the cell `up` or in the root, now points to `to`. */
  ghost predicate Repointed(m: Mem, m': Mem, top: Ptr, top': Ptr, up: Ptr, from: Ptr, to: Ptr) {
    if up == NULL then top' == to
    else top' == top && up in m && up in m' && m'[up] == NewChild(m[up], from, to)
  }

  ghost predicate Repainted(m: Mem, m': Mem, t: Tree, red: bool) {
    t.Bin? ==> t.n in m && t.n in m' && m'[t.n] == m[t.n].(red := red)
  }

  ghost predicate Regrafted(m: Mem, m': Mem, t: Tree, par: Ptr, red: bool) {
    t.Bin? ==> t.n in m && t.n in m' && m'[t.n] == m[t.n].(parent := par, red := red)
  }

  ghost predicate Distinct(p: Ptr, g: Ptr, s: Ptr, a: Ptr, up: Ptr) {
    && p != NULL && g != NULL && p != g
    && (s != NULL ==> s != p && s != g && s != a && s != up)
    && (a != NULL ==> a != p && a != g && a != up)
    && up != p && up != g
  }

  /** The cell of a node after its child `from` has been replaced by `to`. */
  function NewChild(up: Cell, from: Ptr, to: Ptr): Cell {
    if up.left == from then up.(left := to) else up.(right := to)
  }

  /** `Bin(Bin(a, p, s), g, u)` becomes `Bin(a, p, Bin(s, g, u))`, with new colours for `p`,
      `g` and the roots of `a` and `s`: what this means for the cell of each node `n`. */
  lemma {:induction false} RotateRightCells(par: Ptr, a: Tree, p: Ptr, pc: bool, s: Tree, g: Ptr, gc: bool, u: Tree,
                                            ac': bool, pc': bool, sc': bool, gc': bool, n: Ptr, lo: real, hi: real)
    requires Ordered(Bin(Bin(a, p, pc, s), g, gc, u), lo, hi)
    ensures Ordered(Bin(Tint(a, ac'), p, pc', Bin(Tint(s, sc'), g, gc', u)), lo, hi)
    ensures var before := At(Bin(Bin(a, p, pc, s), g, gc, u), par, n);
            var after := At(Bin(Tint(a, ac'), p, pc', Bin(Tint(s, sc'), g, gc', u)), par, n);
            && (after.Some? <==> before.Some?)
            && if n == p then before == Some(Cell(RootOf(a), RootOf(s), g, pc)) &&
                 after == Some(Cell(RootOf(a), g, par, pc'))
               else if n == g then before == Some(Cell(p, RootOf(u), par, gc)) &&
                 after == Some(Cell(RootOf(s), RootOf(u), p, gc'))
               else if s.Bin? && n == s.n then before.Some? && after == Some(before.value.(parent := g, red := sc'))
               else if a.Bin? && n == a.n then before.Some? && after == Some(before.value.(red := ac'))
               else after == before
  {
    var L, R := Bin(a, p, pc, s), Bin(Tint(s, sc'), g, gc', u);
    assert Ordered(L, lo, g.key);
    TintOrdered(s, sc', p.key, g.key);
    TintOrdered(a, ac', lo, p.key);
    assert Ordered(R, p.key, hi);
    Regraft(s, p, g, sc', n);
    Regraft(a, p, p, ac', n);
    assert At(L, g, n) == if n == p then Some(Cell(RootOf(a), RootOf(s), g, pc))
                          else if n.key < p.key then At(a, p, n) else if p.key < n.key then At(s, p, n) else None;
    assert At(R, p, n) == if n == g then Some(Cell(RootOf(s), RootOf(u), p, gc'))
                          else if n.key < g.key then At(Tint(s, sc'), g, n) else if g.key < n.key
                            then At(u, g, n) else None;
  }

  lemma {:induction false} RotateLeftCells(par: Ptr, u: Tree, g: Ptr, gc: bool, s: Tree, p: Ptr, pc: bool, a: Tree,
                                           ac': bool, pc': bool, sc': bool, gc': bool, n: Ptr, lo: real, hi: real)
    requires Ordered(Bin(u, g, gc, Bin(s, p, pc, a)), lo, hi)
    ensures Ordered(Bin(Bin(u, g, gc', Tint(s, sc')), p, pc', Tint(a, ac')), lo, hi)
    ensures var before := At(Bin(u, g, gc, Bin(s, p, pc, a)), par, n);
            var after := At(Bin(Bin(u, g, gc', Tint(s, sc')), p, pc', Tint(a, ac')), par, n);
            && (after.Some? <==> before.Some?)
            && if n == p then before == Some(Cell(RootOf(s), RootOf(a), g, pc)) &&
                 after == Some(Cell(g, RootOf(a), par, pc'))
               else if n == g then before == Some(Cell(RootOf(u), p, par, gc)) &&
                 after == Some(Cell(RootOf(u), RootOf(s), p, gc'))
               else if s.Bin? && n == s.n then before.Some? && after == Some(before.value.(parent := g, red := sc'))
               else if a.Bin? && n == a.n then before.Some? && after == Some(before.value.(red := ac'))
               else after == before
  {
    var R, L := Bin(s, p, pc, a), Bin(u, g, gc', Tint(s, sc'));
    assert Ordered(R, g.key, hi);
    TintOrdered(s, sc', g.key, p.key);
    TintOrdered(a, ac', p.key, hi);
    assert Ordered(L, lo, p.key);
    Regraft(s, p, g, sc', n);
    Regraft(a, p, p, ac', n);
    assert At(R, g, n) == if n == p then Some(Cell(RootOf(s), RootOf(a), g, pc))
                          else if n.key < p.key then At(s, p, n) else if p.key < n.key then At(a, p, n) else None;
    assert At(L, p, n) == if n == g then Some(Cell(RootOf(u), RootOf(s), p, gc'))
                          else if n.key < g.key then At(u, g, n) else if g.key < n.key
                            then At(Tint(s, sc'), g, n) else None;
  }

  lemma {:induction false} RotateRight(c: Ctx, a: Tree, p: Ptr, pc: bool, s: Tree, g: Ptr, gc: bool, u: Tree,
                                       ac': bool, pc': bool, sc': bool, gc': bool, n: Ptr)
    requires AllOrdered(c, Bin(Bin(a, p, pc, s), g, gc, u))
    ensures AllOrdered(c, Bin(Tint(a, ac'), p, pc', Bin(Tint(s, sc'), g, gc', u)))
    ensures var before := CellIn(c, Bin(Bin(a, p, pc, s), g, gc, u), n);
            var after := CellIn(c, Bin(Tint(a, ac'), p, pc', Bin(Tint(s, sc'), g, gc', u)), n);
            && (after.Some? <==> before.Some?)
            && if n == p then before == Some(Cell(RootOf(a), RootOf(s), g, pc)) &&
                 after == Some(Cell(RootOf(a), g, Above(c), pc'))
               else if n == g then before == Some(Cell(p, RootOf(u), Above(c), gc)) &&
                 after == Some(Cell(RootOf(s), RootOf(u), p, gc'))
               else if s.Bin? && n == s.n then before.Some? && after == Some(before.value.(parent := g, red := sc'))
               else if a.Bin? && n == a.n then before.Some? && after == Some(before.value.(red := ac'))
               else if c.InLeft? && n == c.n then before.Some? && after == Some(before.value.(left := p))
               else if c.InRight? && n == c.n then before.Some? && after == Some(before.value.(right := p))
               else after == before
  {
    var L := Bin(a, p, pc, s);
    assert Ordered(L, Lo(c), g.key);
    assert s.Bin? ==> Ordered(s, p.key, g.key);
    assert a.Bin? ==> Ordered(a, Lo(c), p.key);
    RotateRightCells(Above(c), a, p, pc, s, g, gc, u, ac', pc', sc', gc', n, Lo(c), Hi(c));
    Refill(c, g, p, n);
  }

  lemma {:induction false} RotateLeft(c: Ctx, u: Tree, g: Ptr, gc: bool, s: Tree, p: Ptr, pc: bool, a: Tree,
                                      ac': bool, pc': bool, sc': bool, gc': bool, n: Ptr)
    requires AllOrdered(c, Bin(u, g, gc, Bin(s, p, pc, a)))
    ensures AllOrdered(c, Bin(Bin(u, g, gc', Tint(s, sc')), p, pc', Tint(a, ac')))
    ensures var before := CellIn(c, Bin(u, g, gc, Bin(s, p, pc, a)), n);
            var after := CellIn(c, Bin(Bin(u, g, gc', Tint(s, sc')), p, pc', Tint(a, ac')), n);
            && (after.Some? <==> before.Some?)
            && if n == p then before == Some(Cell(RootOf(s), RootOf(a), g, pc)) &&
                 after == Some(Cell(g, RootOf(a), Above(c), pc'))
               else if n == g then before == Some(Cell(RootOf(u), p, Above(c), gc)) &&
                 after == Some(Cell(RootOf(u), RootOf(s), p, gc'))
               else if s.Bin? && n == s.n then before.Some? && after == Some(before.value.(parent := g, red := sc'))
               else if a.Bin? && n == a.n then before.Some? && after == Some(before.value.(red := ac'))
               else if c.InLeft? && n == c.n then before.Some? && after == Some(before.value.(left := p))
               else if c.InRight? && n == c.n then before.Some? && after == Some(before.value.(right := p))
               else after == before
  {
    var R := Bin(s, p, pc, a);
    assert Ordered(R, g.key, Hi(c));
    assert s.Bin? ==> Ordered(s, g.key, p.key);
    assert a.Bin? ==> Ordered(a, p.key, Hi(c));
    RotateLeftCells(Above(c), u, g, gc, s, p, pc, a, ac', pc', sc', gc', n, Lo(c), Hi(c));
    Refill(c, g, p, n);
  }

  lemma {:induction false} ReadRight(m: Mem, top: Ptr, all: set<Ptr>, c: Ctx, a: Tree, p: Ptr, pc: bool, s: Tree,
                                     g: Ptr, gc: bool, u: Tree)
    requires Fits(m, c, Bin(Bin(a, p, pc, s), g, gc, u), top, all)
    ensures p in m && m[p] == Cell(RootOf(a), RootOf(s), g, pc)
    ensures g in m && m[g] == Cell(p, RootOf(u), Above(c), gc)
    ensures PointsTo(m, c, top, g) && Distinct(p, g, RootOf(s), RootOf(a), Above(c))
    ensures s.Bin? ==> s.n != NULL && s.n in m && m[s.n].red == s.red
    ensures a.Bin? ==> a.n != NULL && a.n in m && m[a.n].red == a.red && m[a.n].parent == p
  {
    var t := Bin(a, p, pc, s);
    Read(m, c, Bin(t, g, gc, u), top, all);
    Descend(m, c, Bin(t, g, gc, u), top, all);
    var d := InLeft(c, g, gc, u);
    Read(m, d, t, top, all);
    Descend(m, d, t, top, all);
    if a.Bin? { Read(m, InLeft(d, p, pc, s), a, top, all); }
    if s.Bin? { Read(m, InRight(d, p, pc, a), s, top, all); }
  }

  lemma {:induction false} WriteRight(m: Mem, m': Mem, top: Ptr, top': Ptr, all: set<Ptr>,
                                      c: Ctx, a: Tree, p: Ptr, pc: bool, s: Tree, g: Ptr, gc: bool, u: Tree,
                                      ac': bool, pc': bool, sc': bool, gc': bool)
    requires Fits(m, c, Bin(Bin(a, p, pc, s), g, gc, u), top, all)
    requires p in m' && m'[p] == Cell(RootOf(a), g, Above(c), pc')
    requires g in m' && m'[g] == Cell(RootOf(s), RootOf(u), p, gc')
    requires Regrafted(m, m', s, g, sc') && Repainted(m, m', a, ac') && Repointed(m, m', top, top', Above(c), g, p)
    requires Changes(m, m', p, g, RootOf(s), RootOf(a), Above(c))
    ensures Rebuilt(m, m', c, Bin(Tint(a, ac'), p, pc', Bin(Tint(s, sc'), g, gc', u)), top', all)
  {
    var t := Bin(Bin(a, p, pc, s), g, gc, u);
    var t' := Bin(Tint(a, ac'), p, pc', Bin(Tint(s, sc'), g, gc', u));
    forall n ensures Fitting(m', n, CellIn(c, t', n), all) && (n in m && n !in all ==> n in m' && m'[n] == m[n]) {
      assert Fitting(m, n, CellIn(c, t, n), all);
      RotateRight(c, a, p, pc, s, g, gc, u, ac', pc', sc', gc', n);
    }
    RotateRight(c, a, p, pc, s, g, gc, u, ac', pc', sc', gc', p);
  }

  lemma {:induction false} ReadLeft(m: Mem, top: Ptr, all: set<Ptr>, c: Ctx, u: Tree, g: Ptr, gc: bool, s: Tree,
                                    p: Ptr, pc: bool, a: Tree)
    requires Fits(m, c, Bin(u, g, gc, Bin(s, p, pc, a)), top, all)
    ensures p in m && m[p] == Cell(RootOf(s), RootOf(a), g, pc)
    ensures g in m && m[g] == Cell(RootOf(u), p, Above(c), gc)
    ensures PointsTo(m, c, top, g) && Distinct(p, g, RootOf(s), RootOf(a), Above(c))
    ensures s.Bin? ==> s.n != NULL && s.n in m && m[s.n].red == s.red
    ensures a.Bin? ==> a.n != NULL && a.n in m && m[a.n].red == a.red && m[a.n].parent == p
  {
    var t := Bin(s, p, pc, a);
    Read(m, c, Bin(u, g, gc, t), top, all);
    Descend(m, c, Bin(u, g, gc, t), top, all);
    var d := InRight(c, g, gc, u);
    Read(m, d, t, top, all);
    Descend(m, d, t, top, all);
    if a.Bin? { Read(m, InRight(d, p, pc, s), a, top, all); }
    if s.Bin? { Read(m, InLeft(d, p, pc, a), s, top, all); }
  }

  lemma {:induction false} WriteLeft(m: Mem, m': Mem, top: Ptr, top': Ptr, all: set<Ptr>,
                                     c: Ctx, u: Tree, g: Ptr, gc: bool, s: Tree, p: Ptr, pc: bool, a: Tree,
                                     ac': bool, pc': bool, sc': bool, gc': bool)
    requires Fits(m, c, Bin(u, g, gc, Bin(s, p, pc, a)), top, all)
    requires p in m' && m'[p] == Cell(g, RootOf(a), Above(c), pc')
    requires g in m' && m'[g] == Cell(RootOf(u), RootOf(s), p, gc')
    requires Regrafted(m, m', s, g, sc') && Repainted(m, m', a, ac') && Repointed(m, m', top, top', Above(c), g, p)
    requires Changes(m, m', p, g, RootOf(s), RootOf(a), Above(c))
    ensures Rebuilt(m, m', c, Bin(Bin(u, g, gc', Tint(s, sc')), p, pc', Tint(a, ac')), top', all)
  {
    var t := Bin(u, g, gc, Bin(s, p, pc, a));
    var t' := Bin(Bin(u, g, gc', Tint(s, sc')), p, pc', Tint(a, ac'));
    forall n ensures Fitting(m', n, CellIn(c, t', n), all) && (n in m && n !in all ==> n in m' && m'[n] == m[n]) {
      assert Fitting(m, n, CellIn(c, t, n), all);
      RotateLeft(c, u, g, gc, s, p, pc, a, ac', pc', sc', gc', n);
    }
    RotateLeft(c, u, g, gc, s, p, pc, a, ac', pc', sc', gc', p);
  }

  lemma {:induction false} OrderRight(c: Ctx, a: Tree, p: Ptr, pc: bool, b: Tree, q: Ptr, qc: bool, d: Tree, g: Ptr,
                                      gc: bool, u: Tree)
    requires AllOrdered(c, Bin(Bin(a, p, pc, Bin(b, q, qc, d)), g, gc, u))
    ensures Lo(c) < p.key < q.key < g.key < Hi(c) && NULL !in {p, q, g}
    ensures b.Bin? ==> b.n != NULL && p.key < b.n.key < q.key
    ensures d.Bin? ==> d.n != NULL && q.key < d.n.key < g.key
    ensures !c.Top? ==> c.n != NULL && !(Lo(c) < c.n.key < Hi(c))
  {
    assert Ordered(Bin(a, p, pc, Bin(b, q, qc, d)), Lo(c), g.key);
    assert Ordered(Bin(b, q, qc, d), p.key, g.key);
    assert Ordered(b, p.key, q.key) && Ordered(d, q.key, g.key);
    Refill(c, g, g, Above(c));
  }

  lemma {:induction false} OrderLeft(c: Ctx, u: Tree, g: Ptr, gc: bool, d: Tree, q: Ptr, qc: bool, b: Tree, p: Ptr,
                                     pc: bool, a: Tree)
    requires AllOrdered(c, Bin(u, g, gc, Bin(Bin(d, q, qc, b), p, pc, a)))
    ensures Lo(c) < g.key < q.key < p.key < Hi(c) && NULL !in {p, q, g}
    ensures b.Bin? ==> b.n != NULL && q.key < b.n.key < p.key
    ensures d.Bin? ==> d.n != NULL && g.key < d.n.key < q.key
    ensures !c.Top? ==> c.n != NULL && !(Lo(c) < c.n.key < Hi(c))
  {
    assert Ordered(Bin(Bin(d, q, qc, b), p, pc, a), g.key, Hi(c));
    assert Ordered(Bin(d, q, qc, b), g.key, p.key);
    assert Ordered(d, g.key, q.key) && Ordered(b, q.key, p.key);
    Refill(c, g, g, Above(c));
  }

  /** `Bin(Bin(a, p, Bin(b, q, d)), g, u)` becomes
      `Bin(Bin(a, p, b), q, Bin(d, g, u))`. */
  lemma {:induction false} DoubleRight(c: Ctx, a: Tree, p: Ptr, pc: bool, b: Tree, q: Ptr, qc: bool, d: Tree, g: Ptr,
                                       gc: bool, u: Tree,
                                       pc': bool, qc': bool, gc': bool, n: Ptr)
    requires AllOrdered(c, Bin(Bin(a, p, pc, Bin(b, q, qc, d)), g, gc, u))
    ensures AllOrdered(c, Bin(Bin(a, p, pc', Tint(b, false)), q, qc', Bin(Tint(d, false), g, gc', u)))
    ensures var before := CellIn(c, Bin(Bin(a, p, pc, Bin(b, q, qc, d)), g, gc, u), n);
            var after := CellIn(c, Bin(Bin(a, p, pc', Tint(b, false)), q, qc', Bin(Tint(d, false), g, gc', u)), n);
            && (after.Some? <==> before.Some?)
            && if n == p then before.Some? && after == Some(Cell(RootOf(a), RootOf(b), q, pc'))
               else if n == q then before.Some? && after == Some(Cell(p, g, Above(c), qc'))
               else if n == g then before.Some? && after == Some(Cell(RootOf(d), RootOf(u), q, gc'))
               else if b.Bin? && n == b.n then before.Some? && after == Some(before.value.(parent := p, red := false))
               else if d.Bin? && n == d.n then before.Some? && after == Some(before.value.(parent := g, red := false))
               else if c.InLeft? && n == c.n then before.Some? && after == Some(before.value.(left := q))
               else if c.InRight? && n == c.n then before.Some? && after == Some(before.value.(right := q))
               else after == before
  {
    var c1 := InLeft(c, g, gc, u);
    var L := Bin(a, p, pc, Bin(b, q, qc, d));
    OrderRight(c, a, p, pc, b, q, qc, d, g, gc, u);
    var L' := Bin(Bin(a, p, pc', Tint(b, false)), q, qc, Tint(d, d.Bin? && d.red));
    MoveUp(c, L, g, gc, u);
    RotateLeft(c1, a, p, pc, b, q, qc, d, d.Bin? && d.red, qc, false, pc', n);
    assert AllOrdered(c, Bin(L', g, gc, u));
    MoveUp(c, L', g, gc, u);
    RotateRight(c, Bin(a, p, pc', Tint(b, false)), q, qc, d, g, gc, u, pc', qc', false, gc', n);
  }

  lemma {:induction false} ReadDoubleRight(m: Mem, top: Ptr, all: set<Ptr>, c: Ctx,
                                           a: Tree, p: Ptr, pc: bool, b: Tree, q: Ptr, qc: bool, d: Tree, g: Ptr,
                                           gc: bool, u: Tree)
    requires Fits(m, c, Bin(Bin(a, p, pc, Bin(b, q, qc, d)), g, gc, u), top, all)
    ensures p in m && m[p] == Cell(RootOf(a), q, g, pc)
    ensures q in m && m[q] == Cell(RootOf(b), RootOf(d), p, qc)
    ensures g in m && m[g] == Cell(p, RootOf(u), Above(c), gc)
    ensures PointsTo(m, c, top, g)
    ensures Distinct(p, g, RootOf(b), RootOf(d), Above(c)) && Distinct(q, p, RootOf(b), RootOf(d), Above(c)) && q != g
    ensures b.Bin? ==> b.n != NULL && b.n in m
    ensures d.Bin? ==> d.n != NULL && d.n in m && m[d.n].red == d.red
  {
    var L := Bin(a, p, pc, Bin(b, q, qc, d));
    OrderRight(c, a, p, pc, b, q, qc, d, g, gc, u);
    Read(m, c, Bin(L, g, gc, u), top, all);
    Descend(m, c, Bin(L, g, gc, u), top, all);
    ReadLeft(m, top, all, InLeft(c, g, gc, u), a, p, pc, b, q, qc, d);
  }

  lemma {:induction false} WriteDoubleRight(m: Mem, m': Mem, top: Ptr, top': Ptr, all: set<Ptr>,
                                            c: Ctx, a: Tree, p: Ptr, pc: bool, b: Tree, q: Ptr, qc: bool, d: Tree,
                                            g: Ptr, gc: bool, u: Tree,
                                            pc': bool, qc': bool, gc': bool)
    requires Fits(m, c, Bin(Bin(a, p, pc, Bin(b, q, qc, d)), g, gc, u), top, all)
    requires p in m' && m'[p] == Cell(RootOf(a), RootOf(b), q, pc')
    requires q in m' && m'[q] == Cell(p, g, Above(c), qc')
    requires g in m' && m'[g] == Cell(RootOf(d), RootOf(u), q, gc')
    requires Regrafted(m, m', b, p, false) && Regrafted(m, m', d, g, false)
    requires Repointed(m, m', top, top', Above(c), g, q)
    requires Changes(m, m', p, q, g, RootOf(b), RootOf(d), Above(c))
    ensures Rebuilt(m, m', c, Bin(Bin(a, p, pc', Tint(b, false)), q, qc', Bin(Tint(d, false), g, gc', u)), top', all)
  {
    var t, t' := Bin(Bin(a, p, pc, Bin(b, q, qc, d)), g, gc, u),
      Bin(Bin(a, p, pc', Tint(b, false)), q, qc', Bin(Tint(d, false), g, gc', u));
    forall n ensures Fitting(m', n, CellIn(c, t', n), all) && (n in m && n !in all ==> n in m' && m'[n] == m[n]) {
      assert Fitting(m, n, CellIn(c, t, n), all);
      DoubleRight(c, a, p, pc, b, q, qc, d, g, gc, u, pc', qc', gc', n);
    }
    DoubleRight(c, a, p, pc, b, q, qc, d, g, gc, u, pc', qc', gc', p);
  }

  /** `Bin(u, g, Bin(Bin(d, q, b), p, a))` becomes
      `Bin(Bin(u, g, d), q, Bin(b, p, a))`. */
  lemma {:induction false} DoubleLeft(c: Ctx, u: Tree, g: Ptr, gc: bool, d: Tree, q: Ptr, qc: bool, b: Tree, p: Ptr,
                                      pc: bool, a: Tree,
                                       pc': bool, qc': bool, gc': bool, n: Ptr)
    requires AllOrdered(c, Bin(u, g, gc, Bin(Bin(d, q, qc, b), p, pc, a)))
    ensures AllOrdered(c, Bin(Bin(u, g, gc', Tint(d, false)), q, qc', Bin(Tint(b, false), p, pc', a)))
    ensures var before := CellIn(c, Bin(u, g, gc, Bin(Bin(d, q, qc, b), p, pc, a)), n);
            var after := CellIn(c, Bin(Bin(u, g, gc', Tint(d, false)), q, qc', Bin(Tint(b, false), p, pc', a)), n);
            && (after.Some? <==> before.Some?)
            && if n == p then before.Some? && after == Some(Cell(RootOf(b), RootOf(a), q, pc'))
               else if n == q then before.Some? && after == Some(Cell(g, p, Above(c), qc'))
               else if n == g then before.Some? && after == Some(Cell(RootOf(u), RootOf(d), q, gc'))
               else if b.Bin? && n == b.n then before.Some? && after == Some(before.value.(parent := p, red := false))
               else if d.Bin? && n == d.n then before.Some? && after == Some(before.value.(parent := g, red := false))
               else if c.InLeft? && n == c.n then before.Some? && after == Some(before.value.(left := q))
               else if c.InRight? && n == c.n then before.Some? && after == Some(before.value.(right := q))
               else after == before
  {
    var c1 := InRight(c, g, gc, u);
    var L := Bin(Bin(d, q, qc, b), p, pc, a);
    OrderLeft(c, u, g, gc, d, q, qc, b, p, pc, a);
    var L' := Bin(Tint(d, d.Bin? && d.red), q, qc, Bin(Tint(b, false), p, pc', a));
    MoveUp(c, u, g, gc, L);
    RotateRight(c1, d, q, qc, b, p, pc, a, d.Bin? && d.red, qc, false, pc', n);
    assert AllOrdered(c, Bin(u, g, gc, L'));
    MoveUp(c, u, g, gc, L');
    RotateLeft(c, u, g, gc, d, q, qc, Bin(Tint(b, false), p, pc', a), pc', qc', false, gc', n);
  }

  lemma {:induction false} ReadDoubleLeft(m: Mem, top: Ptr, all: set<Ptr>, c: Ctx,
                                          u: Tree, g: Ptr, gc: bool, d: Tree, q: Ptr, qc: bool, b: Tree, p: Ptr,
                                          pc: bool, a: Tree)
    requires Fits(m, c, Bin(u, g, gc, Bin(Bin(d, q, qc, b), p, pc, a)), top, all)
    ensures p in m && m[p] == Cell(q, RootOf(a), g, pc)
    ensures q in m && m[q] == Cell(RootOf(d), RootOf(b), p, qc)
    ensures g in m && m[g] == Cell(RootOf(u), p, Above(c), gc)
    ensures PointsTo(m, c, top, g)
    ensures Distinct(p, g, RootOf(b), RootOf(d), Above(c)) && Distinct(q, p, RootOf(b), RootOf(d), Above(c)) && q != g
    ensures b.Bin? ==> b.n != NULL && b.n in m
    ensures d.Bin? ==> d.n != NULL && d.n in m && m[d.n].red == d.red
  {
    var L := Bin(Bin(d, q, qc, b), p, pc, a);
    OrderLeft(c, u, g, gc, d, q, qc, b, p, pc, a);
    Read(m, c, Bin(u, g, gc, L), top, all);
    Descend(m, c, Bin(u, g, gc, L), top, all);
    ReadRight(m, top, all, InRight(c, g, gc, u), d, q, qc, b, p, pc, a);
  }

  lemma {:induction false} WriteDoubleLeft(m: Mem, m': Mem, top: Ptr, top': Ptr, all: set<Ptr>,
                                            c: Ctx, u: Tree, g: Ptr, gc: bool, d: Tree, q: Ptr, qc: bool, b: Tree,
                                            p: Ptr, pc: bool, a: Tree,
                                            pc': bool, qc': bool, gc': bool)
    requires Fits(m, c, Bin(u, g, gc, Bin(Bin(d, q, qc, b), p, pc, a)), top, all)
    requires p in m' && m'[p] == Cell(RootOf(b), RootOf(a), q, pc')
    requires q in m' && m'[q] == Cell(g, p, Above(c), qc')
    requires g in m' && m'[g] == Cell(RootOf(u), RootOf(d), q, gc')
    requires Regrafted(m, m', b, p, false) && Regrafted(m, m', d, g, false)
    requires Repointed(m, m', top, top', Above(c), g, q)
    requires Changes(m, m', p, q, g, RootOf(b), RootOf(d), Above(c))
    ensures Rebuilt(m, m', c, Bin(Bin(u, g, gc', Tint(d, false)), q, qc', Bin(Tint(b, false), p, pc', a)), top', all)
  {
    var t, t' := Bin(u, g, gc, Bin(Bin(d, q, qc, b), p, pc, a)),
      Bin(Bin(u, g, gc', Tint(d, false)), q, qc', Bin(Tint(b, false), p, pc', a));
    forall n ensures Fitting(m', n, CellIn(c, t', n), all) && (n in m && n !in all ==> n in m' && m'[n] == m[n]) {
      assert Fitting(m, n, CellIn(c, t, n), all);
      DoubleLeft(c, u, g, gc, d, q, qc, b, p, pc, a, pc', qc', gc', n);
    }
    DoubleLeft(c, u, g, gc, d, q, qc, b, p, pc, a, pc', qc', gc', p);
  }

  // ----- changes of colour, and a new node

  /** New colours for a node and its two children. */
  lemma {:induction false} Recolor(c: Ctx, t: Tree, lc': bool, xc': bool, rc': bool, n: Ptr)
    requires AllOrdered(c, t) && t.Bin?
    ensures AllOrdered(c, Bin(Tint(t.l, lc'), t.n, xc', Tint(t.r, rc')))
    ensures var before, after := CellIn(c, t, n), CellIn(c, Bin(Tint(t.l, lc'), t.n, xc', Tint(t.r, rc')), n);
            && (after.Some? <==> before.Some?)
            && if n == t.n then before.Some? && after == Some(before.value.(red := xc'))
               else if t.l.Bin? && n == t.l.n then before.Some? && after == Some(before.value.(red := lc'))
               else if t.r.Bin? && n == t.r.n then before.Some? && after == Some(before.value.(red := rc'))
               else after == before
  {
    TintOrdered(t.l, lc', Lo(c), t.n.key);
    TintOrdered(t.r, rc', t.n.key, Hi(c));
    assert t.l.Bin? ==> Ordered(t.l, Lo(c), t.n.key);
    assert t.r.Bin? ==> Ordered(t.r, t.n.key, Hi(c));
    Regraft(t.l, t.n, t.n, lc', n);
    Regraft(t.r, t.n, t.n, rc', n);
    Refill(c, t.n, t.n, n);
  }

  lemma {:induction false} WriteColors(m: Mem, m': Mem, top: Ptr, all: set<Ptr>, c: Ctx, t: Tree, lc': bool,
                                       xc': bool, rc': bool)
    requires Fits(m, c, t, top, all) && t.Bin?
    requires t.n in m && t.n in m' && m'[t.n] == m[t.n].(red := xc')
    requires Repainted(m, m', t.l, lc') && Repainted(m, m', t.r, rc')
    requires Changes(m, m', t.n, RootOf(t.l), RootOf(t.r))
    ensures Rebuilt(m, m', c, Bin(Tint(t.l, lc'), t.n, xc', Tint(t.r, rc')), top, all)
  {
    var t' := Bin(Tint(t.l, lc'), t.n, xc', Tint(t.r, rc'));
    forall n
      ensures AllOrdered(c, t') && Fitting(m', n, CellIn(c, t', n), all)
      ensures (n in m && n !in all ==> n in m' && m'[n] == m[n]) {
      assert Fitting(m, n, CellIn(c, t, n), all);
      Recolor(c, t, lc', xc', rc', n);
    }
    Recolor(c, t, lc', xc', rc', t.n);
  }

  /** A new red leaf `x` in an empty hole. */
  lemma {:induction false} WriteLeaf(m: Mem, m': Mem, top: Ptr, top': Ptr, all: set<Ptr>, c: Ctx, x: Ptr)
    requires Fits(m, c, Leaf, top, all) && x != NULL && Lo(c) < x.key < Hi(c)
    requires x in m' && m'[x] == Cell(NULL, NULL, Above(c), true)
    requires if c.Top? then top' == x
             else top' == top && c.n in m && c.n in m' && m'[c.n] == if c.InLeft?
               then m[c.n].(left := x) else m[c.n].(right := x)
    requires Changes(m, m', x, Above(c))
    ensures Rebuilt(m, m', c, Bin(Leaf, x, true, Leaf), top', all + {x})
  {
    var t' := Bin(Leaf, x, true, Leaf);
    forall n
      ensures Fitting(m', n, CellIn(c, t', n), all + {x}) && (n in m && n !in all + {x} ==> n in m' && m'[n] == m[n]) {
      assert Fitting(m, n, CellIn(c, Leaf, n), all);
      Refill(c, NULL, x, n);
      assert At(Leaf, x, n) == None;
    }
  }
}
