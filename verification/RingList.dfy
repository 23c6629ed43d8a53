/** The circular lists of `src/common/list.c`, which carry the cache's recency order, the
    sleepers of a semaphore and the run queues. */
module RingList {

  class ListNode {
    var prev: ListNode
    var next: ListNode

    /** `init_list_node` */
    constructor ()
      ensures Ring([this])
    {
      prev, next := this, this;
    }
  }

  /** Following `next` from the first node visits the nodes of `s` in order and comes back;
      `prev` goes the other way. */
  ghost predicate Ring(s: seq<ListNode>)
    reads s
  {
    && s != []
    && (forall i, j :: 0 <= i < j < |s| ==> s[i] != s[j])
    && (forall i {:trigger s[i].next} :: 0 <= i < |s| - 1 ==> s[i].next == s[i + 1])
    && (forall i {:trigger s[i].prev} :: 0 < i < |s| ==> s[i].prev == s[i - 1])
    && s[|s| - 1].next == s[0] && s[0].prev == s[|s| - 1]
  }

  ghost predicate Apart(a: seq<ListNode>, b: seq<ListNode>) {
    forall x :: x in a ==> x !in b
  }

  /** A ring may be read from any of its nodes. */
  lemma Rotate(s: seq<ListNode>, k: nat)
    requires Ring(s) && k < |s|
    ensures Ring(s[k..] + s[..k])
  {
    var r := s[k..] + s[..k];
    forall i, j | 0 <= i < j < |r| ensures r[i] != r[j] { }
  }

  /** The list that starts at `node`, or no list for a null pointer. */
  ghost predicate ListAt(node: ListNode?, s: seq<ListNode>)
    reads s
  {
    if node == null then s == [] else Ring(s) && s[0] == node
  }

  /** `_merge_list`: after it, `node1->next == node2`. */
  method MergeList(node1: ListNode?, node2: ListNode?, ghost a: seq<ListNode>, ghost b: seq<ListNode>)
    returns (r: ListNode?)
    requires ListAt(node1, a) && ListAt(node2, b) && Apart(a, b)
    modifies a, b
    ensures ListAt(r, if a == [] then b else [a[0]] + b + a[1..])
  {
    if node1 == null {
      return node2;
    }
    if node2 == null {
      assert [a[0]] + b + a[1..] == a;
      return node1;
    }
    Join(node1, node2, a, b);
    r := node1;
  }

  /** The four assignments that join two lists (lines 23-29). */
  method Join(node1: ListNode, node2: ListNode, ghost a: seq<ListNode>, ghost b: seq<ListNode>)
    requires Ring(a) && Ring(b) && Apart(a, b) && a[0] == node1 && b[0] == node2
    modifies a, b
    ensures Ring([node1] + b + a[1..])
  {
    var node3 := node1.next;
    var node4 := node2.prev;
    node1.next := node2;
    node2.prev := node1;
    node4.next := node3;
    node3.prev := node4;
    ghost var m, n := [node1] + b + a[1..], |b|;
    Merged(a, b);
    assert forall i :: 0 <= i < n ==> b[i] in b && b[i] !in a;
    assert forall i {:trigger b[i].next} :: 0 <= i < n - 1 ==> b[i].next == b[i + 1];
    assert forall i {:trigger a[i].next} :: 1 <= i < |a| - 1 ==> a[i].next == a[i + 1];
    assert forall i {:trigger b[i].prev} :: 0 < i < n ==> b[i].prev == b[i - 1];
    assert forall i {:trigger a[i].prev} :: 1 < i < |a| ==> a[i].prev == a[i - 1];
    forall i | 0 <= i < |m| - 1 ensures m[i].next == m[i + 1] && m[i + 1].prev == m[i] {
      assert m[i] == if i == 0 then node1 else if i <= n then b[i - 1] else a[i - n];
      assert m[i + 1] == if i < n then b[i] else a[i + 1 - n];
    }
    assert m[|m| - 1] == if |a| == 1 then b[n - 1] else a[|a| - 1];
  }

  lemma Merged(a: seq<ListNode>, b: seq<ListNode>)
    requires a != [] && Apart(a, b)
    requires forall i, j :: 0 <= i < j < |a| ==> a[i] != a[j]
    requires forall i, j :: 0 <= i < j < |b| ==> b[i] != b[j]
    ensures var m := [a[0]] + b + a[1..]; forall i, j :: 0 <= i < j < |m| ==> m[i] != m[j]
  {
    var m := [a[0]] + b + a[1..];
    forall i, j | 0 <= i < j < |m| ensures m[i] != m[j] {
      if j <= |b| {
        assert m[j] == b[j - 1] && b[j - 1] in b && a[0] in a;
      } else {
        assert m[j] == a[j - |b|] && a[j - |b|] in a;
        assert 0 < i <= |b| ==> m[i] == b[i - 1] && b[i - 1] in b;
      }
    }
  }

  /** `_insert_into_list`: a fresh node goes right behind `list`. */
  method InsertIntoList(list: ListNode, node: ListNode, ghost a: seq<ListNode>)
    requires Ring(a) && a[0] == list && node !in a
    modifies a, node
    ensures Ring([list, node] + a[1..])
  {
    node.prev, node.next := node, node;
    var _ := MergeList(list, node, a, [node]);
    assert [list] + [node] + a[1..] == [list, node] + a[1..];
  }

  /** `_detach_from_list` of a node anywhere in its list: the node becomes a list of its own, and the rest
      stays a list in the same order. The result is the node before it. */
  method DetachFromList(node: ListNode, ghost a: seq<ListNode>, ghost k: nat) returns (r: ListNode?)
    requires Ring(a) && k < |a| && a[k] == node
    modifies a
    ensures Ring([node]) && (|a| > 1 ==> Ring(a[..k] + a[k + 1..]))
    ensures r == if |a| == 1 then null else a[if k == 0 then |a| - 1 else k - 1]
  {
    Rotate(a, k);
    ghost var b := a[k..] + a[..k];
    r := DetachFirst(node, b);
    if |a| > 1 && k > 0 {
      Rotate(b[1..], |a| - 1 - k);
      assert b[1..][|a| - 1 - k..] + b[1..][..|a| - 1 - k] == a[..k] + a[k + 1..];
    }
    if |a| > 1 && k == 0 {
      assert b[1..] == a[..k] + a[k + 1..];
    }
  }

  /** The same, with the list read from the node on. */
  method DetachFirst(node: ListNode, ghost a: seq<ListNode>) returns (r: ListNode?)
    requires Ring(a) && a[0] == node
    modifies a
    ensures Ring([node]) && (|a| > 1 ==> Ring(a[1..]))
    ensures r == if |a| == 1 then null else a[|a| - 1]
  {
    var prev := node.prev;
    node.prev.next := node.next;
    node.next.prev := node.prev;
    node.prev, node.next := node, node;
    r := if prev == node then null else prev;
  }
}
