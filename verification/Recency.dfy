/** The order in which the block cache of `src/fs/cache.c` keeps its blocks: the last one used first. */
module Recency {
  import opened Basics

  /** When block `b` was used last; `uses` are all uses so far, in order. */
  function LastUse(uses: seq<nat>, b: nat): (r: int)
    ensures -1 <= r < |uses| && (r >= 0 ==> uses[r] == b)
  {
    if uses == [] then -1
    else if uses[|uses| - 1] == b then |uses| - 1
    else LastUse(uses[..|uses| - 1], b)
  }

  lemma {:induction false} NoLaterUse(uses: seq<nat>, b: nat, i: nat)
    requires LastUse(uses, b) < i < |uses|
    ensures uses[i] != b
    decreases |uses|
  {
    if i < |uses| - 1 {
      NoLaterUse(uses[..|uses| - 1], b, i);
    }
  }

  /** Everything in the list has been used, and nothing later than what is before it. */
  ghost predicate Recent(l: seq<nat>, uses: seq<nat>) {
    && (forall i :: 0 <= i < |l| ==> LastUse(uses, l[i]) >= 0)
    && (forall i, j :: 0 <= i < j < |l| ==> LastUse(uses, l[j]) < LastUse(uses, l[i]))
  }

  /** The list when `b` is used: `b`, and the others in the same order. */
  function ToFront(l: seq<nat>, b: nat): seq<nat> {
    [b] + Without(l, b)
  }

  lemma {:induction false} UsedAgain(uses: seq<nat>, b: nat, x: nat)
    ensures LastUse(uses + [b], x) == if x == b then |uses| else LastUse(uses, x)
  {
    assert (uses + [b])[..|uses|] == uses;
  }

  lemma {:induction false} NotWithout(l: seq<nat>, b: nat)
    requires b !in l
    ensures Without(l, b) == l
    decreases |l|
  {
    if l != [] {
      NotWithout(l[1..], b);
    }
  }

  lemma {:induction false} WithoutRecent(l: seq<nat>, uses: seq<nat>, b: nat)
    requires Recent(l, uses)
    ensures Recent(Without(l, b), uses) && b !in Without(l, b)
  {
    hide LastUse, Without;
    if b in l {
      var k := WithoutSlice(l, b);
      var r := l[..k] + l[k + 1..];
      forall i | 0 <= i < |r| ensures r[i] == l[if i < k then i else i + 1] && r[i] != b { }
    } else {
      NotWithout(l, b);
    }
  }

  /** A use keeps the order by recency. */
  lemma {:induction false} UseKeeps(l: seq<nat>, uses: seq<nat>, b: nat)
    requires Recent(l, uses)
    ensures Recent(ToFront(l, b), uses + [b])
  {
    hide LastUse, Without;
    var r := Without(l, b);
    WithoutRecent(l, uses, b);
    UsedAgain(uses, b, b);
    forall i | 0 <= i < |r| ensures LastUse(uses + [b], r[i]) == LastUse(uses, r[i]) {
      UsedAgain(uses, b, r[i]);
    }
  }

  // ----- eviction

  /** Those of the list that are in `busy`, in the same order. */
  function Kept(l: seq<nat>, busy: set<nat>): seq<nat> {
    if l == [] then [] else if l[0] in busy then [l[0]] + Kept(l[1..], busy) else Kept(l[1..], busy)
  }

  /** The list when everything behind position `cut` that is not busy has been dropped. */
  function Survivors(l: seq<nat>, busy: set<nat>, cut: nat): seq<nat>
    requires cut <= |l|
  {
    l[..cut] + Kept(l[cut..], busy)
  }

  lemma {:induction false} KeptItems(l: seq<nat>, busy: set<nat>)
    ensures forall x :: x in Kept(l, busy) <==> x in l && x in busy
    decreases |l|
  {
    if l != [] {
      KeptItems(l[1..], busy);
      assert forall x :: x in l <==> x == l[0] || x in l[1..];
    }
  }

  lemma {:induction false} SurvivorItems(l: seq<nat>, busy: set<nat>, cut: nat)
    requires cut <= |l|
    ensures forall x :: x in Survivors(l, busy, cut) <==> x in l[..cut] || (x in l[cut..] && x in busy)
  {
    KeptItems(l[cut..], busy);
  }

  /** What has been dropped was last used before everything that stays and is not busy. */
  lemma {:induction false} LeastRecentFirst(l: seq<nat>, busy: set<nat>, cut: nat, uses: seq<nat>, x: nat, y: nat)
    requires Recent(l, uses) && cut <= |l|
    requires x in l && x !in Survivors(l, busy, cut) && y in Survivors(l, busy, cut) && y !in busy
    ensures LastUse(uses, x) < LastUse(uses, y)
  {
    SurvivorItems(l, busy, cut);
    assert l == l[..cut] + l[cut..];
    var i :| 0 <= i < cut && l[i] == y;
    var j :| cut <= j < |l| && l[j] == x;
  }

  lemma {:induction false} SurvivorsAll(l: seq<nat>, busy: set<nat>)
    ensures Survivors(l, busy, |l|) == l
  {
  }

  /** One step of the eviction loop, which goes from the back to the front. */
  lemma {:induction false} SurvivorsNext(l: seq<nat>, busy: set<nat>, i: nat)
    requires 0 < i <= |l|
    ensures var r := Survivors(l, busy, i);
            && |r| >= i && r[i - 1] == l[i - 1]
            && Survivors(l, busy, i - 1) == if l[i - 1] in busy then r else r[..i - 1] + r[i..]
  {
    var r := Survivors(l, busy, i);
    assert l[i - 1..][1..] == l[i..] && l[i - 1..][0] == l[i - 1];
    assert l[..i] == l[..i - 1] + [l[i - 1]];
    assert r[..i - 1] == l[..i - 1] && r[i..] == Kept(l[i..], busy);
  }
}
