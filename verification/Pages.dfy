/** The pages of memory, `kalloc_page` and `kfree_page` of `src/kernel/mem.c`. */
module Pages {
  import opened Basics

  const PAGE_SIZE: nat := 4096

  /** A page is free exactly if nobody refers to it, and is then once on the stack. */
  ghost predicate PagesOk(stack: seq<nat>, ref: map<nat, int>) {
    && (forall i, j :: 0 <= i < j < |stack| ==> stack[i] != stack[j])
    && (forall p :: p in stack <==> p in ref && ref[p] == 0)
    && (forall p :: p in ref ==> 0 < p && 0 <= ref[p])
  }

  lemma {:induction false} PageAdded(stack: seq<nat>, ref: map<nat, int>, p: nat)
    requires PagesOk(stack, ref) && p > 0 && (p !in ref || ref[p] > 0)
    ensures PagesOk([p] + stack, ref[p := 0]) && |ref[p := 0]| == |ref| + if p in ref then 0 else 1
  {
    assert ref[p := 0].Keys == ref.Keys + {p};
    assert |ref[p := 0].Keys| == |ref[p := 0]| && |ref.Keys| == |ref|;
    if p in ref { assert ref.Keys + {p} == ref.Keys; }
  }

  lemma {:induction false} PageRemoved(stack: seq<nat>, ref: map<nat, int>)
    requires PagesOk(stack, ref) && stack != []
    ensures stack[0] in ref && PagesOk(stack[1..], ref[stack[0] := 1]) && |ref[stack[0] := 1]| == |ref|
  {
    var p := stack[0];
    assert p in stack;
    assert ref[p := 1].Keys == ref.Keys;
    assert |ref[p := 1].Keys| == |ref[p := 1]| && |ref.Keys| == |ref|;
  }

  /** `pages`, `refpage` and `alloc_page_cnt`, without concurrency. */
  class PageAllocator {
    var stack: seq<nat>
    var ref: map<nat, int>
    var count: int
    /** The pages on the stack. */
    ghost var idle: set<nat>

    ghost predicate Valid()
      reads this
    {
      PagesOk(stack, ref) && count + |stack| == |ref| && forall p :: p in stack <==> p in idle
    }

    /** `left_page_cnt` */
    function Left(): int
      reads this
    {
      |ref| - count
    }

    constructor (first: nat, n: nat)
      requires first > 0
      ensures Valid() && |stack| == n == Left() && forall p :: p in ref <==> first <= p < first + n
    {
      stack, ref, count, idle := [], map[], 0, {};
      new;
      var p := first;
      while p < first + n
        invariant first <= p <= first + n && |stack| == p - first == |ref| && count == 0 && PagesOk(stack, ref)
        invariant (forall q :: q in ref <==> first <= q < p) && forall q :: q in stack <==> q in idle
      {
        PageAdded(stack, ref, p);
        stack, ref, idle := [p] + stack, ref[p := 0], idle + {p};
        p := p + 1;
      }
    }

    /** `kalloc_page`: a page that nobody had, or nothing when there is none. */
    method Alloc() returns (r: Option<nat>)
      requires Valid()
      modifies this
      ensures Valid()
      ensures r.None? <==> old(stack) == []
      ensures r.None? ==> stack == old(stack) && ref == old(ref) && count == old(count) && idle == old(idle) == {}
      ensures r.Some? ==> ref == old(ref)[r.value := 1] && stack == old(stack)[1..] && Left() == old(Left()) - 1
      ensures r.Some? ==> r.value in old(idle) && r.value > 0 && idle == old(idle) - {r.value}
      ensures r.Some? ==> r.value == old(stack)[0]
    {
      if stack == [] {
        assert forall p :: p in idle ==> p in stack;
        return None;
      }
      PageRemoved(stack, ref);
      var p := stack[0];
      assert p in stack;
      count := count + 1;
      stack, idle := stack[1..], idle - {p};
      ref := ref[p := ref[p] + 1];
      r := Some(p);
    }

    /** `kfree_page`: the page is free when its last user gives it up. */
    method Free(p: nat)
      requires Valid() && p in ref && ref[p] > 0
      modifies this
      ensures Valid() && ref == old(ref)[p := old(ref)[p] - 1]
      ensures stack == if old(ref)[p] == 1 then [p] + old(stack) else old(stack)
      ensures Left() == old(Left()) + if old(ref)[p] == 1 then 1 else 0
    {
      PageAdded(stack, ref, p);
      ref := ref[p := ref[p] - 1];
      if ref[p] == 0 {
        count := count - 1;
        stack, idle := [p] + stack, idle + {p};
      } else {
        assert ref.Keys == old(ref).Keys;
        assert |ref.Keys| == |ref| && |old(ref).Keys| == |old(ref)|;
      }
    }
  }
}
