/** The application order list of include/uthash.h: the doubly linked list through next and prev
    that remembers in which order elements were added. */
module AppOrderList {
  import opened IntrusiveSort
  import opened HashChains

  function Inserted<T>(s: seq<T>, k: nat, x: T): seq<T>
    requires k <= |s|
  {
    s[..k] + [x] + s[k..]
  }

  lemma InsertedAt(s: seq<Node>, k: nat, x: Node, i: int)
    requires k <= |s|
    ensures At(Inserted(s, k, x), i) == if i < k then At(s, i) else if i == k then x else At(s, i - 1)
  {
  }

  lemma InsertedDistinct(s: seq<Node>, k: nat, x: Node)
    requires k <= |s| && Distinct(s) && x !in s
    ensures Distinct(Inserted(s, k, x))
  {
    var t := Inserted(s, k, x);
    assert forall i :: 0 <= i < |t| ==> t[i] == if i < k then s[i] else if i == k then x else s[i - 1];
  }

  /** The links of s with x spliced in at k. */
  ghost predicate Spliced(s: seq<Node>, k: nat, x: Node)
    reads s, x
  {
    && k <= |s| && x.next == At(s, k) && x.prev == At(s, k - 1)
    && (forall i {:trigger s[i].next} :: 0 <= i < |s| ==> s[i].next == if i == k - 1 then x else At(s, i + 1))
    && (forall i {:trigger s[i].prev} :: 0 <= i < |s| ==> s[i].prev == if i == k then x else At(s, i - 1))
  }

  lemma SplicedList(head: Node?, s: seq<Node>, k: nat, x: Node)
    requires Distinct(s) && x !in s && Spliced(s, k, x) && head == if k == 0 then x else At(s, 0)
    ensures IsList(AppOrder, head, Inserted(s, k, x))
  {
    var t := Inserted(s, k, x);
    InsertedDistinct(s, k, x);
    InsertedAt(s, k, x, 0);
    forall i | 0 <= i < |t|
      ensures t[i].next == NextOf(AppOrder, t, i) && t[i].prev == PrevOf(AppOrder, t, i)
    {
      InsertedAt(s, k, x, i);
      InsertedAt(s, k, x, i + 1);
      InsertedAt(s, k, x, i - 1);
    }
  }

  /** HASH_APPEND_LIST. */
  method AppendList(head: Node, tail: Node, add: Node, ghost s: seq<Node>, ghost nodes: set<Node>)
    requires IsList(AppOrder, head, s) && s != [] && tail == s[|s| - 1] && add !in s && AllIn(s, nodes) && add in nodes
    modifies nodes`next, nodes`prev
    ensures IsList(AppOrder, head, s + [add])
  {
    add.next := null;
    add.prev := tail;
    tail.next := add;
    SplicedList(head, s, |s|, add);
    assert Inserted(s, |s|, add) == s + [add];
  }

  /** Links `add` in front of `iter`, as HASH_ADD_KEYPTR_BYHASHVALUE_INORDER does. */
  method InsertBefore(head: Node, iter: Node, add: Node, ghost s: seq<Node>, ghost k: nat, ghost nodes: set<Node>)
    returns (head': Node)
    requires IsList(AppOrder, head, s) && k < |s| && iter == s[k] && add !in s && AllIn(s, nodes) && add in nodes
    modifies nodes`next, nodes`prev
    ensures IsList(AppOrder, head', Inserted(s, k, add))
  {
    head' := head;
    add.next := iter;
    add.prev := iter.prev;
    if add.prev != null {
      add.prev.next := add;
    } else {
      head' := add;
    }
    iter.prev := add;
    SplicedList(head', s, k, add);
  }

  /** The links of s with the element at k bypassed. */
  ghost predicate Bypassed(s: seq<Node>, k: nat)
    reads s
  {
    && k < |s|
    && (forall i {:trigger s[i].next} :: 0 <= i < |s| && i != k ==>
        s[i].next == At(s, if i == k - 1 then k + 1 else i + 1))
    && (forall i {:trigger s[i].prev} :: 0 <= i < |s| && i != k ==>
        s[i].prev == At(s, if i == k + 1 then k - 1 else i - 1))
  }

  lemma BypassedList(head: Node?, s: seq<Node>, k: nat)
    requires Distinct(s) && Bypassed(s, k) && head == At(s, if k == 0 then 1 else 0)
    ensures IsList(AppOrder, head, Without(s, k))
  {
    var t := Without(s, k);
    DistinctWithout(s, k);
    WithoutAt(s, k, 0);
    forall i | 0 <= i < |t|
      ensures t[i].next == NextOf(AppOrder, t, i) && t[i].prev == PrevOf(AppOrder, t, i)
    {
      WithoutAt(s, k, i);
      WithoutAt(s, k, i + 1);
      WithoutAt(s, k, i - 1);
    }
  }

  /** The list part of HASH_DELETE_HH, for an element that is not the only one. */
  method RemoveFromList(head: Node, tail: Node, del: Node, ghost s: seq<Node>, ghost k: nat, ghost nodes: set<Node>)
    returns (head': Node, tail': Node)
    requires IsList(AppOrder, head, s) && |s| > 1 && k < |s| && del == s[k] && tail == s[|s| - 1] && AllIn(s, nodes)
    modifies nodes`next, nodes`prev
    ensures IsList(AppOrder, head', Without(s, k)) && tail' == At(Without(s, k), |s| - 2)
    ensures del.next == old(del.next) && del.prev == old(del.prev)
  {
    head', tail' := head, tail;
    WithoutAt(s, k, |s| - 2);
    if del == tail {
      tail' := del.prev;
    }
    if del.prev != null {
      del.prev.next := del.next;
    } else {
      head' := del.next;
    }
    if del.next != null {
      del.next.prev := del.prev;
    }
    BypassedList(head', s, k);
  }
}
