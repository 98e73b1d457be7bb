/** The in-place list sorts: LL_SORT, DL_SORT and CDL_SORT of include/utlist.h and HASH_SRT of
    include/uthash.h. The four macros are one algorithm on `next` links that differs in three
    places only: how the end of the list is recognised, whether `prev` is rewritten, and how the
    ends are tied together after a pass. */
module IntrusiveSort {
  import opened Veils
  import opened StableMerge

  /** An element with its intrusive links. The hash handle fields are used by uthash only. */
  class Node {
    const key: seq<bv8>
    var next: Node?
    var prev: Node?
    var hhNext: Node?
    var hhPrev: Node?
    var hashv: nat
    var tbl: object?

    constructor (key: seq<bv8>)
      ensures this.key == key
    {
      this.key := key;
      next, prev, hhNext, hhPrev, hashv, tbl := null, null, null, null, 0, null;
    }
  }

  /** Singly: utlist LL, Doubly: DL (head's prev is the tail), Circular: CDL, AppOrder: uthash. */
  datatype Shape = Singly | Doubly | Circular | AppOrder

  ghost function At(s: seq<Node>, i: int): Node? {
    if 0 <= i < |s| then s[i] else null
  }

  ghost predicate Distinct(s: seq<Node>) {
    forall i, j :: 0 <= i < j < |s| ==> s[i] != s[j]
  }

  /** What follows s[i]: the ring closes, the other shapes end in NULL. */
  ghost function NextOf(shape: Shape, s: seq<Node>, i: nat): Node?
    requires i < |s|
  {
    if i + 1 < |s| then s[i + 1] else if shape.Circular? then s[0] else null
  }

  ghost function PrevOf(shape: Shape, s: seq<Node>, i: nat): Node?
    requires i < |s|
  {
    if i > 0 then s[i - 1] else if shape.AppOrder? then null else s[|s| - 1]
  }

  /** The links of s[lo..] are those of the list s. */
  ghost predicate Links(shape: Shape, s: seq<Node>, lo: nat, hi: nat)
    reads s`next
  {
    forall i {:trigger s[i].next} :: lo <= i < hi && i < |s| ==> s[i].next == NextOf(shape, s, i)
  }

  ghost predicate Chained(shape: Shape, head: Node?, s: seq<Node>)
    reads s`next
  {
    Distinct(s) && head == At(s, 0) && Links(shape, s, 0, |s|)
  }

  /** A list of the given shape that holds exactly s, in that order. */
  ghost predicate IsList(shape: Shape, head: Node?, s: seq<Node>)
    reads s`next, s`prev
  {
    && Chained(shape, head, s)
    && (shape.Singly? || forall i {:trigger s[i].prev} :: 0 <= i < |s| ==> s[i].prev == PrevOf(shape, s, i))
  }

  /** What the shapes are: all are linked forward in order; the ring's last element leads back to its
      head, the others' to NULL; backward links mirror the forward ones, and the head's leads to the
      last element, or to NULL in the table's order list. */
  lemma ShapeMeans(shape: Shape, head: Node?, s: seq<Node>)
    requires IsList(shape, head, s) && s != []
    ensures head == s[0] && forall i :: 0 <= i < |s| - 1 ==> s[i].next == s[i + 1]
    ensures s[|s| - 1].next == if shape.Circular? then head else null
    ensures !shape.Singly? ==> forall i :: 0 < i < |s| ==> s[i].prev == s[i - 1]
    ensures shape.Doubly? || shape.Circular? ==> head.prev == s[|s| - 1]
    ensures shape.AppOrder? ==> head.prev == null
  {
    forall i | 0 <= i < |s| ensures s[i].next == NextOf(shape, s, i) {}
    assert !shape.Singly? ==> s[0].prev == PrevOf(shape, s, 0);
  }

  // ---------------------------------------------------------------- the output list of a pass

  /** The list being built: its ends are not tied up yet, so the last next link may be stale. */
  ghost predicate Building(shape: Shape, list: Node?, tail: Node?, out: seq<Node>)
    reads out
  {
    && Distinct(out)
    && list == At(out, 0) && tail == At(out, |out| - 1)
    && (forall i {:trigger out[i].next} :: 0 <= i < |out| - 1 ==> out[i].next == out[i + 1])
    && (shape.Singly? || forall i {:trigger out[i].prev} :: 0 <= i < |out| ==> out[i].prev == At(out, i - 1))
  }

  method Emit(shape: Shape, e: Node, list: Node?, tail: Node?, ghost out: seq<Node>, ghost nodes: set<Node>)
    returns (list': Node?)
    requires Building(shape, list, tail, out) && e !in out
    requires e in nodes && (tail != null ==> tail in nodes)
    modifies nodes`next, nodes`prev
    ensures Building(shape, list', e, out + [e])
    ensures forall n: Node :: n in nodes && n != tail ==> n.next == old(n.next)
  {
    list' := list;
    if tail != null {
      tail.next := e;
    } else {
      list' := e;
    }
    if !shape.Singly? {
      e.prev := tail;
    }
  }

  /** The next element, or null at the end of the list (for a ring: at the old head). */
  method Advance(shape: Shape, n: Node, oldhead: Node, ghost L: seq<Node>, ghost i: nat) returns (m: Node?)
    requires i < |L| && n == L[i] && oldhead == L[0] && Distinct(L)
    requires n.next == NextOf(shape, L, i)
    ensures m == At(L, i + 1)
  {
    m := n.next;
    if shape.Circular? && m == oldhead {
      m := null;
    }
  }

  // ---------------------------------------------------------------- merging two runs

  /** Where a merge stands: L[pi..b) and L[qi..] are still to be taken and linked as before. */
  ghost predicate Merging(shape: Shape, L: seq<Node>, out: seq<Node>, pi: nat, b: nat, qi: nat)
    reads L
  {
    && pi <= b <= qi <= |L|
    && Links(shape, L, pi, b) && Links(shape, L, qi, |L|)
    && (forall i :: pi <= i < b ==> L[i] !in out)
    && (forall i :: qi <= i < |L| ==> L[i] !in out)
  }

  ghost predicate AllIn(s: seq<Node>, nodes: set<Node>) {
    forall i :: 0 <= i < |s| ==> s[i] in nodes
  }

  /** Taking an element out of either run and appending it leaves the rest of the merge in
      place; `n` is what stood behind it. */
  method Take(shape: Shape, e: Node, oldhead: Node, list: Node?, tail: Node?,
              ghost L: seq<Node>, ghost out: seq<Node>, ghost pi: nat, ghost b: nat, ghost qi: nat,
              ghost left: bool, ghost nodes: set<Node>)
    returns (list': Node?, n: Node?)
    requires Distinct(L) && AllIn(L, nodes) && AllIn(out, nodes) && L != [] && oldhead == L[0]
    requires Merging(shape, L, out, pi, b, qi) && Building(shape, list, tail, out)
    requires if left then pi < b && e == L[pi] else qi < |L| && e == L[qi]
    modifies nodes`next, nodes`prev
    ensures n == if left then At(L, pi + 1) else At(L, qi + 1)
    ensures AllIn(out + [e], nodes) && Building(shape, list', e, out + [e])
    ensures if left then Merging(shape, L, out + [e], pi + 1, b, qi) else Merging(shape, L, out + [e], pi, b, qi + 1)
  {
    n := Advance(shape, e, oldhead, L, if left then pi else qi);
    list' := Emit(shape, e, list, tail, out, nodes);
    assert forall i :: pi <= i < b ==> L[i] != tail;
    assert forall i :: qi <= i < |L| ==> L[i] != tail;
  }

  lemma MergeTakesLeft<T>(cmp: (T, T) -> int, L: seq<T>, pi: nat, b: nat, qi: nat, c: nat)
    requires pi < b <= qi <= c <= |L| && (qi == c || cmp(L[pi], L[qi]) <= 0)
    ensures Merge(cmp, L[pi..b], L[qi..c]) == [L[pi]] + Merge(cmp, L[pi + 1..b], L[qi..c])
  {
    assert L[pi..b][1..] == L[pi + 1..b];
    if qi == c { assert L[pi..b] == [L[pi]] + L[pi + 1..b]; }
  }

  lemma MergeTakesRight<T>(cmp: (T, T) -> int, L: seq<T>, pi: nat, b: nat, qi: nat, c: nat)
    requires pi <= b <= qi < c <= |L| && (pi == b || cmp(L[pi], L[qi]) > 0)
    ensures Merge(cmp, L[pi..b], L[qi..c]) == [L[qi]] + Merge(cmp, L[pi..b], L[qi + 1..c])
  {
    assert L[qi..c][1..] == L[qi + 1..c];
    if pi == b { assert L[qi..c] == [L[qi]] + L[qi + 1..c]; }
  }

  ghost predicate Yields<T>(cmp: (T, T) -> int, goal: seq<T>, out: seq<T>, L: seq<T>, pi: nat, b: nat, qi: nat,
                            c: nat) {
    && pi <= b <= qi <= c <= |L|
    && forall p, q {:trigger Merge(cmp, p, q)} :: p == L[pi..b] && q == L[qi..c] ==> goal == out + Merge(cmp, p, q)
  }

  lemma YieldsLeft<T>(cmp: (T, T) -> int, goal: seq<T>, out: seq<T>, L: seq<T>, pi: nat, b: nat, qi: nat, c: nat)
    requires Yields(cmp, goal, out, L, pi, b, qi, c)
    requires pi < b && (qi == c || cmp(L[pi], L[qi]) <= 0)
    ensures Yields(cmp, goal, out + [L[pi]], L, pi + 1, b, qi, c)
  {
    MergeTakesLeft(cmp, L, pi, b, qi, c);
    var m := Merge(cmp, L[pi + 1..b], L[qi..c]);
    assert out + ([L[pi]] + m) == out + [L[pi]] + m;
  }

  lemma YieldsRight<T>(cmp: (T, T) -> int, goal: seq<T>, out: seq<T>, L: seq<T>, pi: nat, b: nat, qi: nat, c: nat)
    requires Yields(cmp, goal, out, L, pi, b, qi, c)
    requires qi < c && (pi == b || cmp(L[pi], L[qi]) > 0)
    ensures Yields(cmp, goal, out + [L[qi]], L, pi, b, qi + 1, c)
  {
    MergeTakesRight(cmp, L, pi, b, qi, c);
    var m := Merge(cmp, L[pi..b], L[qi + 1..c]);
    assert out + ([L[qi]] + m) == out + [L[qi]] + m;
  }

  lemma YieldsDone<T>(cmp: (T, T) -> int, goal: seq<T>, out: seq<T>, L: seq<T>, b: nat, c: nat)
    requires Yields(cmp, goal, out, L, b, b, c, c)
    ensures goal == out
  {
    assert L[b..b] == [] && L[c..c] == [];
    assert Merge(cmp, L[b..b], L[c..c]) == [];
  }

  /** The whole state of the inner loop, with `out` as the list built so far. */
  ghost predicate Midway(shape: Shape, cmp: (Node, Node) -> int, list: Node?, tail: Node?, L: seq<Node>,
                         out: seq<Node>, goal: seq<Node>, pi: nat, b: nat, qi: nat, c: nat, nodes: set<Node>)
    reads L, out
  {
    forall k {:trigger Veil(k)} :: k >= 0 ==>
      && L != [] && Distinct(L) && AllIn(L, nodes) && AllIn(out, nodes)
      && Building(shape, list, tail, out) && Merging(shape, L, out, pi, b, qi)
      && Yields(cmp, goal, out, L, pi, b, qi, c)
  }

  method TakeLeft(shape: Shape, cmp: (Node, Node) -> int, oldhead: Node, list: Node?, tail: Node?, p: Node,
                  ghost L: seq<Node>, ghost out: seq<Node>, ghost goal: seq<Node>,
                  ghost pi: nat, ghost b: nat, ghost qi: nat, ghost c: nat, ghost nodes: set<Node>)
    returns (list': Node?, p': Node?)
    requires Midway(shape, cmp, list, tail, L, out, goal, pi, b, qi, c, nodes)
    requires pi < b <= |L| && p == L[pi] && oldhead == L[0]
    requires qi == c || (qi < |L| && cmp(p, L[qi]) <= 0)
    modifies nodes`next, nodes`prev
    ensures p' == At(L, pi + 1)
    ensures Midway(shape, cmp, list', p, L, out + [p], goal, pi + 1, b, qi, c, nodes)
  {
    assert Veil(0);
    YieldsLeft(cmp, goal, out, L, pi, b, qi, c);
    list', p' := Take(shape, p, oldhead, list, tail, L, out, pi, b, qi, true, nodes);
  }

  method TakeRight(shape: Shape, cmp: (Node, Node) -> int, oldhead: Node, list: Node?, tail: Node?, q: Node,
                   ghost L: seq<Node>, ghost out: seq<Node>, ghost goal: seq<Node>,
                   ghost pi: nat, ghost b: nat, ghost qi: nat, ghost c: nat, ghost nodes: set<Node>)
    returns (list': Node?, q': Node?)
    requires Midway(shape, cmp, list, tail, L, out, goal, pi, b, qi, c, nodes)
    requires qi < c <= |L| && q == L[qi] && oldhead == L[0]
    requires pi == b || (pi < |L| && cmp(L[pi], q) > 0)
    modifies nodes`next, nodes`prev
    ensures q' == At(L, qi + 1)
    ensures Midway(shape, cmp, list', q, L, out + [q], goal, pi, b, qi + 1, c, nodes)
  {
    assert Veil(0);
    YieldsRight(cmp, goal, out, L, pi, b, qi, c);
    list', q' := Take(shape, q, oldhead, list, tail, L, out, pi, b, qi, false, nodes);
  }

  /** The inner loop: merges the run L[a..b) at p0 with the run L[b..c) at q0 onto the end of the
      output list; c is where insize elements, or the list, end. */
  method MergeRuns(shape: Shape, cmp: (Node, Node) -> int, p0: Node, psize0: nat, q0: Node?, insize: nat,
                   oldhead: Node, list0: Node?, tail0: Node?,
                   ghost L: seq<Node>, ghost a: nat, ghost b: nat, ghost c: nat,
                   ghost out0: seq<Node>, ghost goal: seq<Node>, ghost nodes: set<Node>)
    returns (list: Node?, tail: Node?, q: Node?)
    requires b == a + psize0 <= |L| && c == Min(b + insize, |L|)
    requires a < |L| && p0 == L[a] && q0 == At(L, b) && oldhead == L[0]
    requires Midway(shape, cmp, list0, tail0, L, out0, goal, a, b, b, c, nodes)
    modifies nodes`next, nodes`prev
    ensures q == At(L, c)
    ensures Midway(shape, cmp, list, tail, L, goal, goal, b, b, c, c, nodes)
  {
    list, tail := list0, tail0;
    ghost var out: seq<Node>, pi: nat, qi: nat := out0, a, b;
    var p: Node?, psize, qsize := p0, psize0, insize;
    q := q0;
    while psize > 0 || (qsize > 0 && q != null)
      invariant pi + psize == b <= qi <= c && qi + qsize == b + insize
      invariant p == At(L, pi) && q == At(L, qi)
      invariant Midway(shape, cmp, list, tail, L, out, goal, pi, b, qi, c, nodes)
      decreases psize + qsize
    {
      var fromQ := if psize == 0 then true else if qsize == 0 || q == null then false else cmp(p, q) > 0;
      if fromQ {
        var e: Node := q;
        list, q := TakeRight(shape, cmp, oldhead, list, tail, q, L, out, goal, pi, b, qi, c, nodes);
        qsize := qsize - 1;
        tail, out, qi := e, out + [e], qi + 1;
      } else {
        var e: Node := p;
        list, p := TakeLeft(shape, cmp, oldhead, list, tail, p, L, out, goal, pi, b, qi, c, nodes);
        psize := psize - 1;
        tail, out, pi := e, out + [e], pi + 1;
      }
    }
    MidwayDone(shape, cmp, list, tail, L, out, goal, b, c, nodes);
  }

  lemma MidwayDone(shape: Shape, cmp: (Node, Node) -> int, list: Node?, tail: Node?,
                   L: seq<Node>, out: seq<Node>, goal: seq<Node>, b: nat, c: nat, nodes: set<Node>)
    requires Midway(shape, cmp, list, tail, L, out, goal, b, b, c, c, nodes)
    ensures out == goal
  {
    assert Veil(0);
    YieldsDone(cmp, goal, out, L, b, c);
  }

  /** Steps insize elements ahead, or to the end of the list, counting them. */
  method SkipRun(shape: Shape, p: Node, insize: nat, oldhead: Node, ghost L: seq<Node>, ghost a: nat)
    returns (q: Node?, psize: nat)
    requires a < |L| && p == L[a] && insize > 0 && oldhead == L[0] && Distinct(L) && Links(shape, L, a, |L|)
    ensures psize == Min(insize, |L| - a) && q == At(L, a + psize)
  {
    q, psize := p, 0;
    var i := 0;
    while i < insize
      invariant i <= insize && psize == i && a + psize < |L| && q == L[a + psize]
    {
      psize := psize + 1;
      q := Advance(shape, q, oldhead, L, a + psize - 1);
      if q == null {
        break;
      }
      i := i + 1;
    }
  }

  // ---------------------------------------------------------------- one pass

  /** `goal` is what the pass makes of L when `out` has been built from L[..a]. */
  ghost predicate PassYields<T>(cmp: (T, T) -> int, goal: seq<T>, out: seq<T>, L: seq<T>, a: nat, k: nat) {
    && k > 0 && a <= |L|
    && forall s {:trigger MergePass(cmp, s, k)} :: s == L[a..] ==> goal == out + MergePass(cmp, s, k)
  }

  lemma PassYieldsNext<T>(cmp: (T, T) -> int, goal: seq<T>, out: seq<T>, L: seq<T>, a: nat, k: nat, b: nat, c: nat)
    returns (m: seq<T>)
    requires PassYields(cmp, goal, out, L, a, k) && a < |L|
    requires b == a + Min(k, |L| - a) && c == Min(b + k, |L|)
    ensures Yields(cmp, m, out, L, a, b, b, c) && PassYields(cmp, goal, m, L, c, k)
  {
    PassSplits(cmp, L, a, k, b, c);
    m := out + Merge(cmp, L[a..b], L[b..c]);
    assert out + (Merge(cmp, L[a..b], L[b..c]) + MergePass(cmp, L[c..], k)) == m + MergePass(cmp, L[c..], k);
  }

  lemma PassSplits<T>(cmp: (T, T) -> int, L: seq<T>, a: nat, k: nat, b: nat, c: nat)
    requires k > 0 && a < |L| && b == a + Min(k, |L| - a) && c == Min(b + k, |L|)
    ensures MergePass(cmp, L[a..], k) == Merge(cmp, L[a..b], L[b..c]) + MergePass(cmp, L[c..], k)
  {
    var s := L[a..];
    assert Min(k, |s|) == b - a && Min(2 * k, |s|) == c - a;
    assert s[..b - a] == L[a..b];
    assert s[b - a..c - a] == L[b..c];
    assert s[c - a..] == L[c..];
  }

  lemma PassYieldsDone<T>(cmp: (T, T) -> int, goal: seq<T>, out: seq<T>, L: seq<T>, k: nat)
    requires PassYields(cmp, goal, out, L, |L|, k)
    ensures goal == out
  {
    assert L[|L|..] == [];
    assert MergePass(cmp, L[|L|..], k) == [];
  }

  /** Ties the ends of the finished list together. */
  method CloseEnds(shape: Shape, list: Node, tail: Node, ghost out: seq<Node>, ghost nodes: set<Node>)
    requires Building(shape, list, tail, out) && AllIn(out, nodes)
    modifies nodes`next, nodes`prev
    ensures IsList(shape, list, out)
  {
    if shape.Doubly? || shape.Circular? {
      list.prev := tail;
    }
    tail.next := if shape.Circular? then list else null;
  }

  /** The state between two merges of a pass: L[a..] is still to be merged. */
  ghost predicate Between(shape: Shape, cmp: (Node, Node) -> int, list: Node?, tail: Node?,
                          L: seq<Node>, out: seq<Node>, goal: seq<Node>, a: nat, insize: nat, nodes: set<Node>)
    reads L, out
  {
    forall k {:trigger Veil(k)} :: k >= 0 ==>
      && L != [] && Distinct(L) && AllIn(L, nodes) && AllIn(out, nodes)
      && Building(shape, list, tail, out) && Merging(shape, L, out, a, a, a)
      && PassYields(cmp, goal, out, L, a, insize)
      && (a > 0 ==> out != [])
  }

  method MergeNext(shape: Shape, cmp: (Node, Node) -> int, p: Node, insize: nat, oldhead: Node, list: Node?,
                   tail: Node?, ghost L: seq<Node>, ghost out: seq<Node>, ghost goal: seq<Node>, ghost a: nat,
                   ghost nodes: set<Node>)
    returns (list': Node?, tail': Node?, q: Node?, ghost m: seq<Node>)
    requires a < |L| && p == L[a] && oldhead == L[0] && insize > 0
    requires Between(shape, cmp, list, tail, L, out, goal, a, insize, nodes)
    modifies nodes`next, nodes`prev
    ensures q == At(L, Min(a + 2 * insize, |L|))
    ensures Between(shape, cmp, list', tail', L, m, goal, Min(a + 2 * insize, |L|), insize, nodes)
  {
    var r, psize := SkipNext(shape, cmp, p, insize, oldhead, list, tail, L, out, goal, a, nodes);
    ghost var b := a + psize;
    ghost var c := Min(b + insize, |L|);
    m := MergeBegins(shape, cmp, list, tail, L, out, goal, a, b, c, insize, nodes);
    list', tail', q := MergeRuns(shape, cmp, p, psize, r, insize, oldhead, list, tail, L, a, b, c, out, m, nodes);
    MergeEnds(shape, cmp, list', tail', L, m, goal, b, c, insize, nodes);
  }

  method SkipNext(shape: Shape, cmp: (Node, Node) -> int, p: Node, insize: nat, oldhead: Node, list: Node?,
                  tail: Node?, ghost L: seq<Node>, ghost out: seq<Node>, ghost goal: seq<Node>, ghost a: nat,
                  ghost nodes: set<Node>)
    returns (q: Node?, psize: nat)
    requires a < |L| && p == L[a] && oldhead == L[0] && insize > 0
    requires Between(shape, cmp, list, tail, L, out, goal, a, insize, nodes)
    ensures psize == Min(insize, |L| - a) && q == At(L, a + psize)
  {
    assert Veil(0);
    q, psize := SkipRun(shape, p, insize, oldhead, L, a);
  }

  lemma MergeBegins(shape: Shape, cmp: (Node, Node) -> int, list: Node?, tail: Node?, L: seq<Node>, out: seq<Node>,
                    goal: seq<Node>, a: nat, b: nat, c: nat, insize: nat, nodes: set<Node>)
    returns (m: seq<Node>)
    requires Between(shape, cmp, list, tail, L, out, goal, a, insize, nodes)
    requires insize > 0 && a < |L| && b == a + Min(insize, |L| - a) && c == Min(b + insize, |L|)
    ensures Midway(shape, cmp, list, tail, L, out, m, a, b, b, c, nodes)
    ensures PassYields(cmp, goal, m, L, c, insize) && m != []
  {
    assert Veil(0);
    m := PassYieldsNext(cmp, goal, out, L, a, insize, b, c);
    MergeLength(cmp, L[a..b], L[b..c]);
  }

  lemma MergeEnds(shape: Shape, cmp: (Node, Node) -> int, list: Node?, tail: Node?, L: seq<Node>, m: seq<Node>,
                  goal: seq<Node>, b: nat, c: nat, insize: nat, nodes: set<Node>)
    requires Midway(shape, cmp, list, tail, L, m, m, b, b, c, c, nodes)
    requires PassYields(cmp, goal, m, L, c, insize) && m != []
    ensures Between(shape, cmp, list, tail, L, m, goal, c, insize, nodes)
  {
    assert Veil(0);
  }

  lemma Started(shape: Shape, cmp: (Node, Node) -> int, head: Node, L: seq<Node>, insize: nat, nodes: set<Node>)
    requires insize > 0 && Chained(shape, head, L) && AllIn(L, nodes)
    ensures Between(shape, cmp, null, null, L, [], MergePass(cmp, L, insize), 0, insize, nodes)
  {
    assert L[0..] == L;
    var out: seq<Node> := [];
    assert L != [] && Distinct(L) && AllIn(L, nodes) && AllIn(out, nodes);
    assert Building(shape, null, null, out);
    assert Merging(shape, L, out, 0, 0, 0);
    assert PassYields(cmp, MergePass(cmp, L, insize), out, L, 0, insize);
  }

  lemma Finished(shape: Shape, cmp: (Node, Node) -> int, list: Node?, tail: Node?,
                 L: seq<Node>, out: seq<Node>, goal: seq<Node>, insize: nat, nodes: set<Node>)
    requires Between(shape, cmp, list, tail, L, out, goal, |L|, insize, nodes)
    ensures out == goal != [] && Building(shape, list, tail, out) && AllIn(out, nodes)
  {
    assert Veil(0);
    PassYieldsDone(cmp, goal, out, L, insize);
  }

  /** One iteration of the outermost loop: all runs of length insize are merged pairwise. */
  method Pass(shape: Shape, cmp: (Node, Node) -> int, head: Node, insize: nat, ghost L: seq<Node>,
              ghost nodes: set<Node>)
    returns (list: Node, tail: Node, nmerges: nat, ghost out: seq<Node>)
    requires insize > 0 && Chained(shape, head, L) && AllIn(L, nodes)
    modifies nodes`next, nodes`prev
    ensures out == MergePass(cmp, L, insize) && IsList(shape, list, out) && AllIn(out, nodes)
    ensures out != [] && tail == out[|out| - 1]
    ensures nmerges == Merges(|L|, insize)
  {
    Started(shape, cmp, head, L, insize, nodes);
    ghost var goal := MergePass(cmp, L, insize);
    var l, t;
    l, t, nmerges, out := MergeAll(shape, cmp, head, insize, L, goal, nodes);
    Finished(shape, cmp, l, t, L, out, goal, insize, nodes);
    CloseEnds(shape, l, t, out, nodes);
    list, tail := l, t;
  }

  /** How many merges a pass over n elements with runs of length k makes. */
  function Merges(n: nat, k: nat): nat
    requires k > 0
    decreases n
  {
    if n == 0 then 0 else 1 + Merges(n - Min(2 * k, n), k)
  }

  /** It is n / (2 * k), rounded up: the number of runs that are left after the pass. */
  lemma {:induction false} MergesIsCeiling(n: nat, k: nat)
    requires k > 0
    ensures (Merges(n, k) - 1) * (2 * k) < n <= Merges(n, k) * (2 * k) || n == Merges(n, k) == 0
    ensures Merges(n, k) <= 1 <==> n <= 2 * k
  {
    if n > 2 * k { MergesIsCeiling(n - 2 * k, k); }
  }

  method MergeAll(shape: Shape, cmp: (Node, Node) -> int, head: Node, insize: nat,
                  ghost L: seq<Node>, ghost goal: seq<Node>, ghost nodes: set<Node>)
    returns (list: Node?, tail: Node?, nmerges: nat, ghost out: seq<Node>)
    requires insize > 0 && L != [] && head == L[0]
    requires Between(shape, cmp, null, null, L, [], goal, 0, insize, nodes)
    modifies nodes`next, nodes`prev
    ensures Between(shape, cmp, list, tail, L, out, goal, |L|, insize, nodes)
    ensures nmerges == Merges(|L|, insize)
  {
    var p: Node? := head;
    list, tail, nmerges, out := null, null, 0, [];
    ghost var a := 0;
    while p != null
      invariant a <= |L| && p == At(L, a)
      invariant nmerges + Merges(|L| - a, insize) == Merges(|L|, insize)
      invariant Between(shape, cmp, list, tail, L, out, goal, a, insize, nodes)
      decreases |L| - a
    {
      nmerges := nmerges + 1;
      list, tail, p, out := MergeNext(shape, cmp, p, insize, head, list, tail, L, out, goal, a, nodes);
      a := Min(a + 2 * insize, |L|);
    }
  }

  // ---------------------------------------------------------------- the sort

  /** Runs of length `insize` are still to be merged until the list is Sort(L). */
  ghost predicate Unsorted(shape: Shape, cmp: (Node, Node) -> int, list: Node?, L: seq<Node>, out: seq<Node>,
                           insize: nat)
    reads out`next
  {
    insize > 0 && forall k {:trigger Veil(k)} :: k >= 0 ==>
      Chained(shape, list, out) && SortFrom(cmp, out, insize) == Sort(cmp, L)
  }

  ghost predicate SortedList(shape: Shape, cmp: (Node, Node) -> int, list: Node?, tail: Node?, L: seq<Node>,
                             out: seq<Node>)
    reads out`next, out`prev
  {
    forall k {:trigger Veil(k)} :: k >= 0 ==>
      out == Sort(cmp, L) && IsList(shape, list, out) && tail == At(out, |out| - 1)
  }

  /** One pass, and the test whether it was the last. */
  method SortPass(shape: Shape, cmp: (Node, Node) -> int, head: Node, insize: nat, ghost L: seq<Node>,
                  ghost s: seq<Node>, ghost nodes: set<Node>)
    returns (list: Node, tail: Node, more: bool, ghost out: seq<Node>)
    requires Unsorted(shape, cmp, head, L, s, insize) && AllIn(s, nodes)
    modifies nodes`next, nodes`prev
    ensures |out| == |s| && AllIn(out, nodes) && (more ==> 2 * insize < |s|)
    ensures if more then Unsorted(shape, cmp, list, L, out, 2 * insize) else SortedList(shape, cmp, list, tail, L, out)
  {
    assert Veil(0);
    PassLength(cmp, s, insize);
    var nmerges;
    list, tail, nmerges, out := Pass(shape, cmp, head, insize, s, nodes);
    MergesIsCeiling(|s|, insize);
    more := nmerges > 1;
  }

  /** LL_SORT, DL_SORT, CDL_SORT and HASH_SRT: passes over runs of length 1, 2, 4, ... until a
      pass has needed a single merge. Only next and prev links are written. */
  method ListSort(shape: Shape, cmp: (Node, Node) -> int, head: Node?, ghost L: seq<Node>, ghost nodes: set<Node>)
    returns (list: Node?, tail: Node?, ghost out: seq<Node>)
    requires Chained(shape, head, L) && AllIn(L, nodes)
    modifies nodes`next, nodes`prev
    ensures out == Sort(cmp, L) && AllIn(out, nodes)
    ensures IsList(shape, list, out) && tail == At(out, |out| - 1)
  {
    list, tail, out := head, null, L;
    if head != null {
      var insize, looping := 1, true;
      assert SortFrom(cmp, L, 1) == Sort(cmp, L);
      while looping
        invariant list != null && |out| == |L| && AllIn(out, nodes)
        invariant if looping then Unsorted(shape, cmp, list, L, out, insize)
                  else SortedList(shape, cmp, list, tail, L, out)
        decreases looping, |L| - insize
      {
        list, tail, looping, out := SortPass(shape, cmp, list, insize, L, out, nodes);
        insize := insize * 2;
      }
      assert Veil(0);
    }
  }
}
