/** The circular doubly linked lists under every queue of the kernel, with their pointers. A list with
    its sentinel is a ring; what the other modules call a list is the sequence of the nodes after the
    sentinel. */
module IntrusiveLists {
  import opened Lists

  class Node {
    var next: Node?
    var prev: Node?

    constructor ()
      ensures next == null && prev == null
    {
      next, prev := null, null;
    }
  }

  function After(s: seq<Node>, i: nat): Node
    requires i < |s|
  {
    if i == |s| - 1 then s[0] else s[i + 1]
  }

  function Before(s: seq<Node>, i: nat): Node
    requires i < |s|
  {
    if i == 0 then s[|s| - 1] else s[i - 1]
  }

  /** `s` is the ring that starts at the sentinel `s[0]`: each node points to the one after it and to
      the one before it, all the way round. */
  ghost predicate Ring(s: seq<Node>)
    reads s
  {
    && s != [] && NoDup(s)
    && forall i :: 0 <= i < |s| ==> s[i].next == After(s, i) && s[i].prev == Before(s, i)
  }

  /** A ring has no other reading: the pointers determine the sequence. */
  lemma {:induction false} RingPrefix(s: seq<Node>, t: seq<Node>, n: nat)
    requires Ring(s) && Ring(t) && s[0] == t[0] && n <= |s| && n <= |t|
    ensures forall i :: 0 <= i < n ==> s[i] == t[i]
    decreases n
  {
    if n > 1 {
      RingPrefix(s, t, n - 1);
      assert s[n - 2].next == After(s, n - 2) && t[n - 2].next == After(t, n - 2);
    }
  }

  lemma RingNotLonger(s: seq<Node>, t: seq<Node>)
    requires Ring(s) && Ring(t) && s[0] == t[0]
    ensures |t| <= |s|
  {
    var m := if |s| <= |t| then |s| else |t|;
    RingPrefix(s, t, m);
    assert s[m - 1].next == After(s, m - 1) && t[m - 1].next == After(t, m - 1);
  }

  lemma RingUnique(s: seq<Node>, t: seq<Node>)
    requires Ring(s) && Ring(t) && s[0] == t[0]
    ensures s == t
  {
    RingNotLonger(s, t);
    RingNotLonger(t, s);
    RingPrefix(s, t, |s|);
  }

  method InitSentinel(ptr: Node)
    modifies ptr
    ensures Ring([ptr])
  {
    ptr.next, ptr.prev := ptr, ptr;
  }

  method ListIsEmpty(head: Node, ghost s: seq<Node>) returns (r: bool)
    requires Ring(s) && s[0] == head
    ensures r <==> s == [head]
  {
    r := head == head.next;
    assert s[0].next == After(s, 0);
  }

  method ListFirstEntry(head: Node, ghost s: seq<Node>) returns (r: Node?)
    requires Ring(s) && s[0] == head
    ensures r == if |s| == 1 then null else s[1]
  {
    assert s[0].next == After(s, 0);
    r := if head == head.next then null else head.next;
  }

  /** A node in a ring of two or more counts as linked; a node that was popped does not. */
  method ListNodeIsLinked(node: Node, ghost s: seq<Node>) returns (r: bool)
    requires (Ring(s) && node in s) || (node.next == null && node.prev == null)
    ensures r <==> Ring(s) && node in s && |s| > 1
  {
    r := node.next != null && node.prev != null && node.next != node;
    if Ring(s) && node in s {
      ghost var i :| 0 <= i < |s| && s[i] == node;
      assert node.next == After(s, i) && node.prev == Before(s, i);
    }
  }

  method ListAddHead(node: Node, head: Node, ghost s: seq<Node>)
    requires Ring(s) && s[0] == head && node !in s
    modifies node, s
    ensures Ring([head] + ([node] + s[1..]))
  {
    assert head.next == After(s, 0) && head.prev == Before(s, 0);
    var first := head.next;
    node.next := first;
    node.prev := head;
    first.prev := node;
    head.next := node;
    ghost var t := [head] + ([node] + s[1..]);
    InsertedDistinct(s, node);
    hide NoDup;
    forall i | 0 <= i < |t| ensures t[i].next == After(t, i) && t[i].prev == Before(t, i) {
      assert t[0] == s[0] && t[1] == node && (i >= 2 ==> t[i] == s[i - 1]);
      if i != 1 {
        ghost var j := if i == 0 then 0 else i - 1;
        assert old(s[j].next) == After(s, j) && old(s[j].prev) == Before(s, j);
        Apart(s, 0, j);
        if |s| > 1 { Apart(s, 1, j); }
      }
    }
  }

  lemma Apart(s: seq<Node>, i: nat, j: nat)
    requires NoDup(s) && i < |s| && j < |s|
    ensures s[i] == s[j] <==> i == j
  {
  }

  lemma InsertedDistinct(s: seq<Node>, node: Node)
    requires NoDup(s) && node !in s && s != []
    ensures NoDup([s[0]] + ([node] + s[1..]))
  {
  }

  lemma RemovedDistinct(s: seq<Node>, k: nat)
    requires NoDup(s) && k < |s|
    ensures NoDup(s[..k] + s[k + 1..])
  {
  }

  method ListAddTail(node: Node, head: Node, ghost s: seq<Node>)
    requires Ring(s) && s[0] == head && node !in s
    modifies node, s
    ensures Ring([head] + (s[1..] + [node]))
  {
    hide NoDup, After, Before;
    LastNode(s);
    assert head.next == After(s, 0) && head.prev == Before(s, 0);
    var last := head.prev;
    head.prev := node;
    node.next := head;
    node.prev := last;
    last.next := node;
    ghost var t := s + [node];
    assert [head] + (s[1..] + [node]) == t;
    AppendedDistinct(s, node);
    forall i | 0 <= i < |s| ensures t[i].next == After(t, i) && t[i].prev == Before(t, i) {
      AppendedNeighbours(s, node, i);
      assert old(s[i].next) == After(s, i) && old(s[i].prev) == Before(s, i);
      Apart(s, i, 0);
      Apart(s, i, |s| - 1);
    }
    AppendedNeighbours(s, node, 0);
  }

  lemma {:induction false} RemoveAt<T>(s: seq<T>, k: nat)
    requires NoDup(s) && k < |s|
    ensures Remove(s, s[k]) == s[..k] + s[k + 1..]
  {
    if k > 0 {
      RemoveAt(s[1..], k - 1);
      assert s[0] != s[k] && s[1..][k - 1] == s[k];
      assert s[..k] + s[k + 1..] == [s[0]] + (s[1..][..k - 1] + s[1..][k..]);
    }
  }

  /** Removal by value is removal of the one entry that the node is. */
  lemma RemoveNode(s: seq<Node>, k: nat)
    requires NoDup(s) && 0 < k < |s|
    ensures [s[0]] + Remove(s[1..], s[k]) == s[..k] + s[k + 1..]
  {
    RemoveAt(s[1..], k - 1);
    assert s[1..][k - 1] == s[k];
  }

  /** `pop_node` takes the node out of its list, whichever list that is; its own links become null. */
  method PopNode(node: Node, ghost s: seq<Node>)
    requires Ring(s) && node in s && node != s[0]
    modifies s
    ensures Ring([s[0]] + Remove(s[1..], node)) && node.next == null && node.prev == null
  {
    hide Remove, NoDup, After, Before;
    ghost var k :| 0 <= k < |s| && s[k] == node;
    assert node.next == After(s, k) && node.prev == Before(s, k);
    NeighboursAre(s, k);
    var before, after := node.prev, node.next;
    before.next := after;
    after.prev := before;
    node.next := null;
    node.prev := null;
    RemoveNode(s, k);
    RemovedDistinct(s, k);
    ghost var t := s[..k] + s[k + 1..];
    forall i | 0 <= i < |t| ensures t[i].next == After(t, i) && t[i].prev == Before(t, i) {
      ghost var j := if i < k then i else i + 1;
      RemovedNeighbours(s, k, i);
      assert old(s[j].next) == After(s, j) && old(s[j].prev) == Before(s, j);
      Apart(s, j, k);
      Apart(s, j, k - 1);
      Apart(s, j, Next(s, k));
    }
  }

  function Next(s: seq<Node>, i: nat): nat {
    if i == |s| - 1 then 0 else i + 1
  }

  /** Only the neighbours of the removed node get new neighbours: each other. */
  lemma RemovedNeighbours(s: seq<Node>, k: nat, i: nat)
    requires 0 < k < |s| && i < |s| - 1
    ensures var t, j := s[..k] + s[k + 1..], if i < k then i else i + 1;
            && t[i] == s[j]
            && After(t, i) == (if j == k - 1 then After(s, k) else After(s, j))
            && Before(t, i) == (if j == Next(s, k) then Before(s, k) else Before(s, j))
  {
  }

  lemma NeighboursAre(s: seq<Node>, k: nat)
    requires 0 < k < |s|
    ensures Before(s, k) == s[k - 1] && After(s, k) == s[Next(s, k)]
  {
  }

  lemma AppendedNeighbours(s: seq<Node>, node: Node, i: nat)
    requires i < |s|
    ensures var t := s + [node];
            && t[i] == s[i] && After(t, |s|) == s[0] && Before(t, |s|) == s[|s| - 1]
            && After(t, i) == (if i == |s| - 1 then node else After(s, i))
            && Before(t, i) == (if i == 0 then node else Before(s, i))
  {
  }

  lemma LastNode(s: seq<Node>)
    requires s != []
    ensures Before(s, 0) == s[|s| - 1]
  {
  }

  lemma AppendedDistinct(s: seq<Node>, node: Node)
    requires NoDup(s) && node !in s
    ensures NoDup(s + [node])
  {
  }
}
