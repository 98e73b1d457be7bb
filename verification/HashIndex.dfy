/** The parts of the hash table of include/uthash.h: its buckets as an index of the elements, the
    application order list, the filter, and what the macros do to each. */
module HashIndex {
  import opened Options
  import StableMerge
  import opened Veils
  import opened IntrusiveSort
  import opened HashMath
  import opened HashChains
  import opened AppOrderList
  import opened HashMembers
  import Bloom

  const INITIAL_NUM_BUCKETS := 32
  const INITIAL_NUM_BUCKETS_LOG2 := 5
  const BKT_CAPACITY_THRESH := 10

  /** The buckets index exactly the elements of `order`. */
  ghost predicate Indexed(hash: seq<bv8> -> nat, bs: seq<Bucket>, cs: seq<seq<Node>>, order: seq<Node>,
                          nodes: set<Node>)
    reads nodes`hhNext, nodes`hhPrev
  {
    forall k {:trigger Veil(k)} :: k >= 0 ==>
      && ChainsOk(bs, cs, nodes) && Homed(hash, cs) && SameMembers(hash, cs, order)
      && Excess(Counts(bs), 0) == |order|
  }

  /** The chains after redistribution: every element, taken bucket by bucket and front to back, has
      been put in front of the chain of its new home. */
  ghost predicate Rehashed(hash: seq<bv8> -> nat, cs: seq<seq<Node>>, cs': seq<seq<Node>>, m: nat) {
    forall k {:trigger Veil(k)} :: k >= 0 ==> m > 0 && cs' == Dist(hash, m, Flat(cs))
  }

  lemma IndexedAdd(hash: seq<bv8> -> nat, bs: seq<Bucket>, bs': seq<Bucket>, cs: seq<seq<Node>>, order: seq<Node>,
                   order': seq<Node>, n: Node, nodes: set<Node>)
    requires |cs| > 0 && |bs| == |cs| && Homed(hash, cs) && SameMembers(hash, cs, order)
    requires Excess(Counts(bs), 0) == |order|
    requires Extends(order', order, n) && |order'| == |order| + 1
    requires var h := Home(hash, |cs|, n);
             && |bs'| == |bs| && bs'[h].count == bs[h].count + 1 && bs' == bs[h := bs'[h]]
             && ChainsOk(bs', cs[h := [n] + cs[h]], nodes)
    ensures var h := Home(hash, |cs|, n);
            Indexed(hash, bs', cs[h := [n] + cs[h]], order', nodes)
  {
    var h := Home(hash, |cs|, n);
    MembersAdd(hash, cs, order, order', n);
    assert Counts(bs') == Counts(bs)[h := bs'[h].count];
    ExcessUpdate(Counts(bs), h, bs'[h].count, 0);
  }

  /** The work of HASH_EXPAND_BUCKETS: twice as many buckets, into which all elements are moved. */
  method DoubledBuckets(hash: seq<bv8> -> nat, from: array<Bucket>, log2: nat, numItems: nat,
                        ghost cs: seq<seq<Node>>, ghost order: seq<Node>, ghost nodes: set<Node>, ghost table: object)
    returns (bs: array<Bucket>, ideal: nat, nonideal: nat, ghost cs': seq<seq<Node>>)
    requires SizedTo(from.Length, log2) && numItems == |order| && Owned(table, hash, order) && Elems(order) <= nodes
    requires Indexed(hash, from[..], cs, order, nodes)
    modifies nodes`hhNext, nodes`hhPrev
    ensures fresh(bs) && bs.Length == 2 * from.Length && SizedTo(bs.Length, log2 + 1)
    ensures Indexed(hash, bs[..], cs', order, nodes) && Rehashed(hash, cs, cs', bs.Length)
    ensures IsCeiling(ideal, numItems, bs.Length) && Measured(bs[..], numItems, ideal, nonideal)
  {
    SizedOpens(from.Length, log2);
    ideal := IdealLength(numItems, log2, from.Length);
    ReadyToMove(hash, from[..], cs, order, nodes, 2 * from.Length, table);
    bs := new Bucket[from.Length * 2](_ => EMPTY_BUCKET);
    nonideal := Redistribute(hash, from, bs, ideal, log2 + 1, cs, nodes);
    cs' := Dist(hash, bs.Length, Flat(cs));
    assert Veil(0);
  }

  lemma ReadyToMove(hash: seq<bv8> -> nat, bs: seq<Bucket>, cs: seq<seq<Node>>, order: seq<Node>, nodes: set<Node>,
                    m: nat, table: object)
    requires Indexed(hash, bs, cs, order, nodes) && Owned(table, hash, order) && Elems(order) <= nodes && m > 0
    ensures Untouched(hash, bs, cs, 0, [], nodes) && Homed(hash, cs)
    ensures |Flat(cs)| == |order|
    ensures SameMembers(hash, Dist(hash, m, Flat(cs)), order) && Homed(hash, Dist(hash, m, Flat(cs)))
  {
    assert Veil(0);
    FlatLength(bs, cs);
    MembersDist(hash, cs, order, m);
    AllHashed(hash, cs, order);
  }

  lemma IndexedBucket(hash: seq<bv8> -> nat, bs: seq<Bucket>, cs: seq<seq<Node>>, order: seq<Node>, nodes: set<Node>,
                      b: nat)
    requires Indexed(hash, bs, cs, order, nodes) && b < |bs|
    ensures |bs| == |cs| && bs[b].hhHead == At(cs[b], 0) && bs[b].count == |cs[b]| <= |order|
    ensures forall n: Node :: n in cs[b] ==> n in order
  {
    assert Veil(0);
    ExcessAtLeast(Counts(bs), b);
  }

  /** Indexes n, which the order list already holds: the linking part of HASH_ADD_TO_BKT. */
  method IndexAdd(hash: seq<bv8> -> nat, bs: array<Bucket>, b: nat, n: Node,
                  ghost cs: seq<seq<Node>>, ghost order: seq<Node>, ghost order': seq<Node>, ghost nodes: set<Node>)
    returns (ghost cs': seq<seq<Node>>)
    requires Indexed(hash, bs[..], cs, order, nodes) && bs.Length > 0 && b == Home(hash, bs.Length, n)
    requires n in nodes && n !in order && Extends(order', order, n) && |order'| == |order| + 1
    modifies bs, nodes`hhNext, nodes`hhPrev
    ensures |cs| == |cs'| == bs.Length && cs' == cs[b := [n] + cs[b]]
    ensures bs[..] == old(bs[..])[b := Bucket(n, old(bs[b]).count + 1, old(bs[b]).expandMult)]
    ensures Indexed(hash, bs[..], cs', order', nodes)
  {
    ghost var bs0 := bs[..];
    IndexedBucket(hash, bs[..], cs, order, nodes, b);
    IndexedOpens(hash, bs[..], cs, order, nodes);
    cs' := cs[b := [n] + cs[b]];
    AddToBucket(hash, bs, b, n, bs[b].expandMult, cs, nodes);
    IndexedAdd(hash, bs0, bs[..], cs, order, order', n, nodes);
  }

  lemma IndexedOpens(hash: seq<bv8> -> nat, bs: seq<Bucket>, cs: seq<seq<Node>>, order: seq<Node>, nodes: set<Node>)
    requires Indexed(hash, bs, cs, order, nodes)
    ensures ChainsOk(bs, cs, nodes) && Homed(hash, cs) && SameMembers(hash, cs, order)
    ensures Excess(Counts(bs), 0) == |order|
  {
    assert Veil(0);
  }

  /** One element less in bucket b. */
  ghost function Uncount(bs: seq<Bucket>, b: nat): seq<Bucket>
    requires b < |bs| && bs[b].count > 0
  {
    bs[b := Bucket(bs[b].hhHead, bs[b].count - 1, bs[b].expandMult)]
  }

  lemma IndexedDel(hash: seq<bv8> -> nat, bs: seq<Bucket>, bs': seq<Bucket>, cs: seq<seq<Node>>, order: seq<Node>,
                   k: nat, j: nat, nodes: set<Node>)
    requires |cs| > 0 && |bs| == |cs| && Homed(hash, cs) && SameMembers(hash, cs, order)
    requires Excess(Counts(bs), 0) == |order|
    requires Distinct(order) && k < |order|
    requires var h := Home(hash, |cs|, order[k]);
             && j < |cs[h]| && cs[h][j] == order[k] && Distinct(cs[h])
             && |bs'| == |bs| && bs'[h].count == bs[h].count - 1 && bs' == bs[h := bs'[h]]
             && ChainsOk(bs', cs[h := Without(cs[h], j)], nodes)
    ensures var h := Home(hash, |cs|, order[k]);
            Indexed(hash, bs', cs[h := Without(cs[h], j)], Without(order, k), nodes)
  {
    var h := Home(hash, |cs|, order[k]);
    MembersDel(hash, cs, order, k, h, j);
    assert Counts(bs') == Counts(bs)[h := bs'[h].count];
    ExcessUpdate(Counts(bs), h, bs'[h].count, 0);
  }

  /** Before HASH_DEL_IN_BKT: n, at position k of the order list, is indexed; or (stray) it has been
      counted by HASH_ROLLBACK_BKT but is in no chain. */
  ghost predicate Removable(hash: seq<bv8> -> nat, bs: seq<Bucket>, b: nat, n: Node, cs: seq<seq<Node>>,
                            order: seq<Node>, k: nat, stray: bool, nodes: set<Node>)
    reads nodes`hhNext, nodes`hhPrev, n`hhNext, n`hhPrev
  {
    && b < |bs| && k < |order| && order[k] == n && (stray ==> bs[b].count > 0)
    && forall i {:trigger Veil(i)} :: i >= 0 ==>
         && Distinct(order) && b == Home(hash, |bs|, n)
         && if stray
            then n.hhNext == null && n.hhPrev == null && Indexed(hash, Uncount(bs, b), cs, Without(order, k), nodes)
            else Indexed(hash, bs, cs, order, nodes)
  }

  /** The part of `Removable` that does not look at links. */
  ghost predicate Tallied(hash: seq<bv8> -> nat, bs: seq<Bucket>, b: nat, cs: seq<seq<Node>>, order: seq<Node>,
                          k: nat, stray: bool)
  {
    && b < |bs| && k < |order| && (stray ==> bs[b].count > 0)
    && forall i {:trigger Veil(i)} :: i >= 0 ==>
         var bs', order' := if stray then Uncount(bs, b) else bs, if stray then Without(order, k) else order;
         SameMembers(hash, cs, order') && Excess(Counts(bs'), 0) == |order'|
  }

  lemma Locate(hash: seq<bv8> -> nat, bs: seq<Bucket>, b: nat, n: Node, cs: seq<seq<Node>>,
               order: seq<Node>, k: nat, stray: bool, nodes: set<Node>)
    returns (j: int)
    requires Removable(hash, bs, b, n, cs, order, k, stray, nodes)
    ensures |cs| == |bs| && b == Home(hash, |bs|, n) && bs[b].hhHead == At(cs[b], 0)
    ensures ChainsLinked(bs, cs, nodes) && Counted(bs, cs, b, j) && Homed(hash, cs) && Holds(bs[b].hhHead, cs[b], j, n)
    ensures Distinct(order) && (stray <==> j == -1) && (!stray ==> Distinct(cs[b]))
    ensures Tallied(hash, bs, b, cs, order, k, stray)
  {
    assert Veil(0);
    if stray {
      DistinctWithout(order, k);
      IndexedBucket(hash, Uncount(bs, b), cs, Without(order, k), nodes, b);
      IndexedOpens(hash, Uncount(bs, b), cs, Without(order, k), nodes);
      assert forall c :: 0 <= c < |cs| ==> Uncount(bs, b)[c].hhHead == bs[c].hhHead;
      j := -1;
    } else {
      IndexedBucket(hash, bs, cs, order, nodes, b);
      IndexedOpens(hash, bs, cs, order, nodes);
      assert n in cs[b];
      j :| 0 <= j < |cs[b]| && cs[b][j] == n;
    }
  }

  /** HASH_DEL_IN_BKT on an element of the table. */
  method IndexDel(hash: seq<bv8> -> nat, bs: array<Bucket>, b: nat, n: Node, ghost cs: seq<seq<Node>>,
                  ghost order: seq<Node>, ghost k: nat, ghost stray: bool, ghost nodes: set<Node>)
    returns (ghost cs': seq<seq<Node>>, ghost j: int)
    requires Removable(hash, bs[..], b, n, cs, order, k, stray, nodes)
    modifies bs, nodes`hhNext, nodes`hhPrev
    ensures |cs| == |cs'| == bs.Length && (stray <==> j == -1) && -1 <= j < |cs[b]|
    ensures j >= 0 ==> cs[b][j] == n
    ensures cs' == cs[b := Removed(cs[b], j)]
    ensures bs[..] == old(bs[..])[b := Bucket(At(cs'[b], 0), |cs'[b]|, old(bs[b]).expandMult)]
    ensures Indexed(hash, bs[..], cs', Without(order, k), nodes)
  {
    ghost var bs0 := bs[..];
    j := Locate(hash, bs0, b, n, cs, order, k, stray, nodes);
    cs' := cs[b := Removed(cs[b], j)];
    DelInBucket(hash, bs, b, n, cs, j, nodes);
    assert bs[..] == bs0[b := bs[b]];
    IndexedRemoved(hash, bs0, bs[..], b, n, cs, order, k, stray, j, nodes);
  }

  lemma IndexedRemoved(hash: seq<bv8> -> nat, bs: seq<Bucket>, bs': seq<Bucket>, b: nat, n: Node, cs: seq<seq<Node>>,
                       order: seq<Node>, k: nat, stray: bool, j: int, nodes: set<Node>)
    requires |cs| == |bs| == |bs'| && b < |bs| && b == Home(hash, |bs|, n)
    requires Distinct(order) && k < |order| && order[k] == n
    requires (stray <==> j == -1) && -1 <= j < |cs[b]| && Counted(bs, cs, b, j) && (j >= 0 ==> cs[b][j] == n)
    requires Homed(hash, cs) && Tallied(hash, bs, b, cs, order, k, stray)
             && if stray then bs[b].hhHead == At(cs[b], 0) else Distinct(cs[b])
    requires bs' == bs[b := bs'[b]] && bs'[b].expandMult == bs[b].expandMult
    requires ChainsOk(bs', cs[b := Removed(cs[b], j)], nodes)
    ensures Indexed(hash, bs', cs[b := Removed(cs[b], j)], Without(order, k), nodes)
  {
    TalliedOpens(hash, bs, b, cs, order, k, stray);
    if stray {
      IndexedStray(hash, bs, bs', b, cs, order, k, nodes);
    } else {
      IndexedDel(hash, bs, bs', cs, order, k, j, nodes);
    }
  }

  lemma TalliedOpens(hash: seq<bv8> -> nat, bs: seq<Bucket>, b: nat, cs: seq<seq<Node>>, order: seq<Node>, k: nat,
                     stray: bool)
    requires Tallied(hash, bs, b, cs, order, k, stray)
    ensures if stray then SameMembers(hash, cs, Without(order, k)) && Excess(Counts(Uncount(bs, b)), 0) == |order| - 1
            else SameMembers(hash, cs, order) && Excess(Counts(bs), 0) == |order|
  {
    assert Veil(0);
  }

  lemma IndexedStray(hash: seq<bv8> -> nat, bs: seq<Bucket>, bs': seq<Bucket>, b: nat, cs: seq<seq<Node>>,
                     order: seq<Node>, k: nat, nodes: set<Node>)
    requires |cs| == |bs| == |bs'| && b < |bs| && k < |order| && Homed(hash, cs) && Counted(bs, cs, b, -1)
    requires SameMembers(hash, cs, Without(order, k)) && Excess(Counts(Uncount(bs, b)), 0) == |order| - 1
    requires bs' == bs[b := bs'[b]] && bs'[b].expandMult == bs[b].expandMult && ChainsOk(bs', cs[b := cs[b]], nodes)
    requires bs[b].hhHead == At(cs[b], 0)
    ensures Indexed(hash, bs', cs[b := Removed(cs[b], -1)], Without(order, k), nodes)
  {
    assert cs[b := cs[b]] == cs && bs'[b].hhHead == At(cs[b], 0) && bs'[b].count == |cs[b]|;
    assert bs' == Uncount(bs, b);
  }

  /** The numbers in UT_hash_table. */
  datatype Meta = Meta(numBuckets: nat, log2NumBuckets: nat, numItems: nat, idealChainMaxlen: nat,
                       nonidealItems: nat, ineffExpands: nat, noexpand: bool)

  /** What HASH_EXPAND_BUCKETS makes of the numbers, given the new buckets: the ideal chain length
      is the rounded up mean, the non-ideal elements are those beyond it, and two expansions in a
      row that leave more than half of the elements non-ideal stop further ones. */
  ghost predicate Expanded(m: Meta, m': Meta, bs: seq<Bucket>) {
    && m'.numBuckets == 2 * m.numBuckets && m'.log2NumBuckets == m.log2NumBuckets + 1 && m'.numItems == m.numItems
    && IsCeiling(m'.idealChainMaxlen, m.numItems, m'.numBuckets)
    && Measured(bs, m.numItems, m'.idealChainMaxlen, m'.nonidealItems)
    && m'.ineffExpands == (if m'.nonidealItems > m.numItems / 2 then m.ineffExpands + 1 else 0)
    && m'.noexpand == (m.noexpand || m'.ineffExpands > 1)
  }

  /** One more element makes ten for every expansion that bucket b is due. */
  ghost predicate Filled(bs: seq<Bucket>, b: nat)
    requires b < |bs|
  {
    bs[b].count + 1 >= (bs[b].expandMult + 1) * BKT_CAPACITY_THRESH
  }

  /** What adding to bucket b does to buckets, chains and numbers when there is enough memory. */
  ghost predicate Added(hash: seq<bv8> -> nat, bs: seq<Bucket>, cs: seq<seq<Node>>, m: Meta, b: nat, add: Node,
                        bs': seq<Bucket>, cs': seq<seq<Node>>, m': Meta)
  {
    && b < |bs| == |cs|
    && if Filled(bs, b) && !m.noexpand
       then Rehashed(hash, cs[b := [add] + cs[b]], cs', m'.numBuckets) && Expanded(m, m', bs')
       else && cs' == cs[b := [add] + cs[b]] && m' == m
            && bs' == bs[b := Bucket(add, bs[b].count + 1, bs[b].expandMult)]
  }

  /** What deleting does to buckets and chains: `del` goes, and (stray) the count goes back. */
  ghost predicate Deindexed(bs: seq<Bucket>, cs: seq<seq<Node>>, b: nat, del: Node, stray: bool, j: int,
                            bs': seq<Bucket>, cs': seq<seq<Node>>)
  {
    && b < |bs| == |cs| && -1 <= j < |cs[b]| && (stray <==> j == -1) && (j >= 0 ==> cs[b][j] == del)
    && cs' == cs[b := Removed(cs[b], j)] && bs' == bs[b := Bucket(At(cs'[b], 0), |cs'[b]|, bs[b].expandMult)]
  }

  lemma NotYetIndexed(hash: seq<bv8> -> nat, bs: seq<Bucket>, cs: seq<seq<Node>>, order0: seq<Node>, k: nat,
                      add: Node, nodes: set<Node>, b: nat)
    requires Indexed(hash, bs, cs, order0, nodes) && b < |bs| && k <= |order0| && Distinct(Inserted(order0, k, add))
    ensures |bs| == |cs| && bs[b].hhHead == At(cs[b], 0) && bs[b].count == |cs[b]|
    ensures add !in order0 && add !in cs[b] && Extends(Inserted(order0, k, add), order0, add)
  {
    var t := Inserted(order0, k, add);
    IndexedBucket(hash, bs, cs, order0, nodes, b);
    InsertedExtends(order0, k, add);
    forall i | 0 <= i < |order0| ensures order0[i] != add {
      assert t[k] == add && t[if i < k then i else i + 1] == order0[i];
    }
  }

  lemma FrontRemoved(cs: seq<seq<Node>>, b: nat, add: Node, j: int)
    requires b < |cs| && add !in cs[b] && 0 <= j <= |cs[b]| && ([add] + cs[b])[j] == add
    ensures var cs' := cs[b := [add] + cs[b]]; cs'[b := Removed(cs'[b], j)] == cs
  {
    assert j == 0;
    assert Without([add] + cs[b], 0) == cs[b];
  }

  /** Links `add` into its chain; takes it out again if the table must grow and cannot. */
  method LinkUnlessOom(hash: seq<bv8> -> nat, bs: array<Bucket>, b: nat, add: Node, noexpand: bool, oom: bool,
                       ghost cs: seq<seq<Node>>, ghost order0: seq<Node>, ghost order: seq<Node>, ghost k: nat,
                       ghost nodes: set<Node>)
    returns (full: bool, oomed: bool, ghost cs': seq<seq<Node>>)
    requires k <= |order0| && order == Inserted(order0, k, add) && Distinct(order) && add in nodes
    requires bs.Length > 0 && b == Home(hash, bs.Length, add) && Indexed(hash, bs[..], cs, order0, nodes)
    modifies bs, nodes`hhNext, nodes`hhPrev
    ensures |cs| == bs.Length && full == (Filled(old(bs[..]), b) && !noexpand) && oomed == (full && oom)
    ensures oomed ==> bs[..] == old(bs[..]) && cs' == cs && Indexed(hash, bs[..], cs', order0, nodes)
    ensures !oomed ==> cs' == cs[b := [add] + cs[b]] && Indexed(hash, bs[..], cs', order, nodes)
    ensures !oomed ==> bs[..] == old(bs[..])[b := Bucket(add, old(bs[b]).count + 1, old(bs[b]).expandMult)]
  {
    ghost var bs0 := bs[..];
    NotYetIndexed(hash, bs0, cs, order0, k, add, nodes, b);
    cs' := IndexAdd(hash, bs, b, add, cs, order0, order, nodes);
    full := bs[b].count >= (bs[b].expandMult + 1) * BKT_CAPACITY_THRESH && !noexpand;
    oomed := full && oom;
    if oomed {
      ghost var j;
      cs', j := IndexDel(hash, bs, b, add, cs', order, k, false, nodes);
      FrontRemoved(cs, b, add, j);
      assert bs[..] == bs0;
      assert Without(order, k) == order0;
    }
  }

  /** The application order list is intact and holds `order`. */
  ghost predicate Listed(head: Node?, tail: Node?, order: seq<Node>)
    reads order`next, order`prev
  {
    order != [] && forall k {:trigger Veil(k)} :: k >= 0 ==> IsList(AppOrder, head, order) && tail == order[|order| - 1]
  }

  /** The elements belong to the table and carry their hash values. */
  ghost predicate Owned(table: object, hash: seq<bv8> -> nat, order: seq<Node>)
    reads order`hashv, order`tbl
  {
    forall k {:trigger Veil(k)} :: k >= 0 ==>
      Hashed(hash, order) && forall i {:trigger order[i].tbl} :: 0 <= i < |order| ==> order[i].tbl == table
  }

  lemma ListedOpens(head: Node?, tail: Node?, order: seq<Node>)
    requires Listed(head, tail, order)
    ensures IsList(AppOrder, head, order) && tail == order[|order| - 1]
  {
    assert Veil(0);
  }

  /** An element without neighbours is the only one. */
  lemma Alone(head: Node?, tail: Node?, order: seq<Node>, k: nat)
    requires Listed(head, tail, order) && k < |order|
    ensures order[k].prev == null && order[k].next == null <==> |order| == 1
    ensures head == order[0] && tail == order[|order| - 1]
  {
    assert Veil(0);
  }

  lemma OwnedWithout(table: object, hash: seq<bv8> -> nat, order: seq<Node>, k: nat)
    requires Owned(table, hash, order) && k < |order|
    ensures Owned(table, hash, Without(order, k))
  {
    var t := Without(order, k);
    assert Veil(0);
    assert forall i :: 0 <= i < |t| ==> t[i] == order[if i < k then i else i + 1];
  }

  /** Only the elements' own links matter. */
  lemma IndexedWithin(hash: seq<bv8> -> nat, bs: seq<Bucket>, cs: seq<seq<Node>>, order: seq<Node>, nodes: set<Node>)
    requires Indexed(hash, bs, cs, order, nodes)
    ensures Indexed(hash, bs, cs, order, Elems(order))
  {
    IndexedOpens(hash, bs, cs, order, nodes);
    forall b | 0 <= b < |cs| ensures AllIn(cs[b], Elems(order)) {
      forall i | 0 <= i < |cs[b]| ensures cs[b][i] in order {}
    }
    assert ChainsOk(bs, cs, Elems(order));
  }

  lemma IndexedAmong(hash: seq<bv8> -> nat, bs: seq<Bucket>, cs: seq<seq<Node>>, order: seq<Node>, few: set<Node>,
                     nodes: set<Node>)
    requires Indexed(hash, bs, cs, order, few) && few <= nodes
    ensures Indexed(hash, bs, cs, order, nodes)
  {
    IndexedOpens(hash, bs, cs, order, few);
    assert ChainsOk(bs, cs, nodes);
  }

  /** Takes an element that is not the only one out of the order list. */
  method Delist(head: Node, tail: Node, del: Node, ghost order: seq<Node>, ghost k: nat)
    returns (head': Node, tail': Node)
    requires Listed(head, tail, order) && |order| > 1 && k < |order| && del == order[k]
    modifies Elems(order)`next, Elems(order)`prev
    ensures Listed(head', tail', Without(order, k))
  {
    ListedOpens(head, tail, order);
    head', tail' := RemoveFromList(head, tail, del, order, k, Elems(order));
  }

  /** HASH_TO_BKT for an element of the table. */
  method BucketOf(hash: seq<bv8> -> nat, n: Node, numBuckets: nat, ghost log2: nat, ghost order: seq<Node>,
                  ghost k: nat, ghost table: object)
    returns (b: nat)
    requires SizedTo(numBuckets, log2) && Owned(table, hash, order) && k < |order| && order[k] == n
    ensures b < numBuckets && b == Home(hash, numBuckets, n)
  {
    assert Veil(0);
    b := ToBucket(n.hashv, numBuckets, log2);
  }

  lemma RemovableHome(hash: seq<bv8> -> nat, bs: seq<Bucket>, b: nat, n: Node, cs: seq<seq<Node>>, order: seq<Node>,
                      k: nat, stray: bool, nodes: set<Node>)
    requires Removable(hash, bs, b, n, cs, order, k, stray, nodes)
    ensures b == Home(hash, |bs|, n)
  {
    assert Veil(0);
  }

  /** Deletion from the order list and from the buckets, if other elements are left. */
  method Detach(hash: seq<bv8> -> nat, head: Node, tail: Node, del: Node, bs: array<Bucket>, ghost b: nat,
                ghost log2: nat, ghost cs: seq<seq<Node>>, ghost order: seq<Node>, ghost k: nat, ghost stray: bool,
                ghost table: object)
    returns (head': Node, tail': Node, ghost cs': seq<seq<Node>>, ghost j: int)
    requires Listed(head, tail, order) && |order| > 1 && k < |order| && del == order[k] && Owned(table, hash, order)
    requires SizedTo(bs.Length, log2) && Removable(hash, bs[..], b, del, cs, order, k, stray, Elems(order))
    modifies bs, Elems(order)`next, Elems(order)`prev, Elems(order)`hhNext, Elems(order)`hhPrev
    ensures Listed(head', tail', Without(order, k)) && Owned(table, hash, Without(order, k))
    ensures Deindexed(old(bs[..]), cs, b, del, stray, j, bs[..], cs')
    ensures Indexed(hash, bs[..], cs', Without(order, k), Elems(Without(order, k)))
  {
    head', tail' := Delist(head, tail, del, order, k);
    cs', j := Deindex(hash, del, bs, b, log2, cs, order, k, stray, table);
    OwnedWithout(table, hash, order, k);
  }

  /** The bucket's part of a deletion. */
  method Deindex(hash: seq<bv8> -> nat, del: Node, bs: array<Bucket>, ghost b: nat, ghost log2: nat,
                 ghost cs: seq<seq<Node>>, ghost order: seq<Node>, ghost k: nat, ghost stray: bool,
                 ghost table: object)
    returns (ghost cs': seq<seq<Node>>, ghost j: int)
    requires k < |order| && del == order[k] && Owned(table, hash, order)
    requires SizedTo(bs.Length, log2) && Removable(hash, bs[..], b, del, cs, order, k, stray, Elems(order))
    modifies bs, Elems(order)`hhNext, Elems(order)`hhPrev
    ensures Deindexed(old(bs[..]), cs, b, del, stray, j, bs[..], cs')
    ensures Indexed(hash, bs[..], cs', Without(order, k), Elems(Without(order, k)))
  {
    RemovableHome(hash, bs[..], b, del, cs, order, k, stray, Elems(order));
    var bkt := BucketOf(hash, del, bs.Length, log2, order, k, table);
    cs', j := IndexDel(hash, bs, bkt, del, cs, order, k, stray, Elems(order));
    IndexedWithin(hash, bs[..], cs', Without(order, k), Elems(order));
  }

  /** The filter, if there is one, misses no element of s. */
  ghost predicate Sieved(hash: seq<bv8> -> nat, bits: Option<nat>, bv: seq<bv8>, s: seq<Node>) {
    forall k {:trigger Veil(k)} :: k >= 0 && bits.Some? ==>
      |bv| == Bloom.ByteLength(bits.value) && forall i :: 0 <= i < |s| ==> Bloom.Test(bv, bits.value, hash(s[i].key))
  }

  ghost predicate SizedTo(numBuckets: nat, log2: nat) {
    numBuckets > 0 && forall k {:trigger Veil(k)} :: k >= 0 ==> numBuckets == Pow2(log2)
  }

  lemma SizedOpens(numBuckets: nat, log2: nat)
    requires SizedTo(numBuckets, log2)
    ensures numBuckets == Pow2(log2)
  {
    assert Veil(0);
  }

  lemma Taken(order0: seq<Node>, k: nat, add: Node, head: Node?, tail: Node?)
    requires k <= |order0| && Listed(head, tail, Inserted(order0, k, add))
    ensures Distinct(Inserted(order0, k, add)) && Without(Inserted(order0, k, add), k) == order0
    ensures add in Elems(Inserted(order0, k, add))
    ensures add !in order0
  {
    var t := Inserted(order0, k, add);
    ListedOpens(head, tail, t);
    assert t[k] == add;
    forall i | 0 <= i < |order0| ensures order0[i] != add {
      assert t[if i < k then i else i + 1] == order0[i];
    }
  }

  /** HASH_ROLLBACK_BKT: counts an element that is in no chain, so that it can be deleted. */
  method Rollback(hash: seq<bv8> -> nat, bs: array<Bucket>, b: nat, add: Node, ghost cs: seq<seq<Node>>,
                  ghost order0: seq<Node>, ghost order: seq<Node>, ghost k: nat, ghost nodes: set<Node>)
    requires k < |order| && order[k] == add && Distinct(order) && order0 == Without(order, k) && add in nodes
    requires b < bs.Length && b == Home(hash, bs.Length, add) && Indexed(hash, bs[..], cs, order0, nodes)
    modifies bs, add`hhNext, add`hhPrev
    ensures Removable(hash, bs[..], b, add, cs, order, k, true, nodes)
    ensures |cs| == bs.Length && old(bs[b]) == Bucket(At(cs[b], 0), |cs[b]|, bs[b].expandMult)
    ensures forall c :: 0 <= c < bs.Length && c != b ==> bs[c] == old(bs[c])
  {
    ghost var bs0 := bs[..];
    IndexedBucket(hash, bs0, cs, order0, nodes, b);
    NotChained(hash, bs0, cs, order, k, nodes);
    bs[b] := Bucket(bs[b].hhHead, bs[b].count + 1, bs[b].expandMult);
    add.hhNext := null;
    add.hhPrev := null;
    assert Uncount(bs[..], b) == bs0;
    IndexedAmong(hash, bs0, cs, order0, nodes - {add}, nodes);
  }

  lemma NotChained(hash: seq<bv8> -> nat, bs: seq<Bucket>, cs: seq<seq<Node>>, order: seq<Node>, k: nat,
                   nodes: set<Node>)
    requires k < |order| && Distinct(order) && Indexed(hash, bs, cs, Without(order, k), nodes)
    ensures Indexed(hash, bs, cs, Without(order, k), nodes - {order[k]})
  {
    IndexedOpens(hash, bs, cs, Without(order, k), nodes);
    DistinctWithout(order, k);
    forall b | 0 <= b < |cs| ensures AllIn(cs[b], nodes - {order[k]}) {
      forall i | 0 <= i < |cs[b]| ensures cs[b][i] in Without(order, k) {}
    }
    assert ChainsOk(bs, cs, nodes - {order[k]});
  }

  /** A table of few elements has no full bucket. */
  lemma FewFit(hash: seq<bv8> -> nat, bs: seq<Bucket>, cs: seq<seq<Node>>, order: seq<Node>, nodes: set<Node>, b: nat)
    requires Indexed(hash, bs, cs, order, nodes) && b < |bs|
    ensures Filled(bs, b) ==> |order| >= BKT_CAPACITY_THRESH - 1
  {
    IndexedBucket(hash, bs, cs, order, nodes, b);
  }

  /** HASH_BLOOM_ADD, if there is a filter. */
  method SieveAdd(hash: seq<bv8> -> nat, bits: Option<nat>, bv: array<bv8>, add: Node, ghost order0: seq<Node>,
                  ghost order: seq<Node>, ghost k: nat, ghost table: object)
    requires Sieved(hash, bits, bv[..], order0) && Owned(table, hash, order) && k <= |order0|
    requires order == Inserted(order0, k, add)
    modifies bv
    ensures Sieved(hash, bits, bv[..], order)
  {
    assert Veil(0) && order[k] == add;
    if bits.Some? {
      Bloom.Add(bv, bits.value, add.hashv);
      assert forall i :: 0 <= i < |order| ==>
             order[i] == if i < k then order0[i] else if i == k then add else order0[i - 1];
    }
  }

  lemma NothingIndexed(hash: seq<bv8> -> nat, bs: seq<Bucket>, cs: seq<seq<Node>>)
    requires |bs| == |cs| > 0 && forall b :: 0 <= b < |bs| ==> bs[b] == EMPTY_BUCKET && cs[b] == []
    ensures Indexed(hash, bs, cs, [], {})
  {
    var none: seq<Node> := [];
    ExcessZeros(Counts(bs), 0);
    assert ChainsOk(bs, cs, {}) && Homed(hash, cs) && SameMembers(hash, cs, none) && Excess(Counts(bs), 0) == |none|;
  }

  /** A further element becomes part of the table and of its order list, but not yet of its index. */
  method Enrol(hash: seq<bv8> -> nat, head: Node, tail: Node, iter: Node?, add: Node, ghost bs: seq<Bucket>,
               ghost cs: seq<seq<Node>>, ghost order: seq<Node>, ghost k: nat, table: object)
    returns (head': Node, tail': Node)
    requires Listed(head, tail, order) && Owned(table, hash, order) && Indexed(hash, bs, cs, order, Elems(order))
    requires add !in order && k <= |order| && iter == At(order, k) && add.hashv == hash(add.key)
    modifies Elems(order)`next, Elems(order)`prev, add`next, add`prev, add`tbl
    ensures Listed(head', tail', Inserted(order, k, add)) && Owned(table, hash, Inserted(order, k, add))
    ensures Indexed(hash, bs, cs, order, Elems(Inserted(order, k, add)))
  {
    add.tbl := table;
    OwnedInserted(table, hash, order, k, add);
    head', tail' := Enlist(head, tail, iter, add, order, k);
    InsertedExtends(order, k, add);
    IndexedAmong(hash, bs, cs, order, Elems(order), Elems(Inserted(order, k, add)));
  }

  /** Links `add` in front of `iter`, or behind the tail. */
  method Enlist(head: Node, tail: Node, iter: Node?, add: Node, ghost order: seq<Node>, ghost k: nat)
    returns (head': Node, tail': Node)
    requires Listed(head, tail, order) && add !in order && k <= |order| && iter == At(order, k)
    modifies Elems(order)`next, Elems(order)`prev, add`next, add`prev
    ensures Listed(head', tail', Inserted(order, k, add))
  {
    ListedOpens(head, tail, order);
    head', tail' := head, tail;
    if iter != null {
      head' := InsertBefore(head, iter, add, order, k, Elems(order) + {add});
    } else {
      AppendList(head, tail, add, order, Elems(order) + {add});
      tail' := add;
      assert Inserted(order, k, add) == order + [add];
    }
  }

  lemma OwnedInserted(table: object, hash: seq<bv8> -> nat, order: seq<Node>, k: nat, add: Node)
    requires Owned(table, hash, order) && k <= |order| && add.hashv == hash(add.key) && add.tbl == table
    ensures Owned(table, hash, Inserted(order, k, add))
  {
    var t := Inserted(order, k, add);
    assert Veil(0);
    assert forall i :: 0 <= i < |t| ==> t[i] == if i < k then order[i] else if i == k then add else order[i - 1];
  }

  lemma InitialSize()
    ensures SizedTo(INITIAL_NUM_BUCKETS, INITIAL_NUM_BUCKETS_LOG2)
  {
    assert Pow2(2) == 4;
    assert Pow2(4) == 16;
    assert Pow2(5) == 32;
  }

  lemma OnlyElement(table: object, hash: seq<bv8> -> nat, add: Node)
    requires add.next == null && add.prev == null && add.hashv == hash(add.key) && add.tbl == table
    ensures Inserted([], 0, add) == [add] && Listed(add, add, [add]) && Owned(table, hash, [add])
  {
    assert IsList(AppOrder, add, [add]);
    var t := [add];
    assert Hashed(hash, t) && forall i {:trigger t[i].tbl} :: 0 <= i < |t| ==> t[i].tbl == table;
  }

  /** k is where an element goes in front of the first greater one. */
  ghost predicate Place(cmp: (Node, Node) -> int, order: seq<Node>, add: Node, k: nat) {
    && k <= |order| && (forall i :: 0 <= i < k ==> cmp(order[i], add) <= 0)
    && (k < |order| ==> cmp(order[k], add) > 0)
  }

  /** HASH_AKBI_INNER_LOOP. */
  method FirstGreater(cmp: (Node, Node) -> int, head: Node, ghost tail: Node?, add: Node, ghost order: seq<Node>)
    returns (iter: Node?, ghost k: nat)
    requires Listed(head, tail, order)
    ensures Place(cmp, order, add, k) && iter == At(order, k)
  {
    ListedOpens(head, tail, order);
    iter, k := head, 0;
    while iter != null && cmp(iter, add) <= 0
      invariant k <= |order| && iter == At(order, k)
      invariant forall i :: 0 <= i < k ==> cmp(order[i], add) <= 0
      decreases |order| - k
    {
      iter, k := iter.next, k + 1;
    }
  }

  lemma ReadyToDelete(hash: seq<bv8> -> nat, bs: seq<Bucket>, b: nat, del: Node, cs: seq<seq<Node>>, order: seq<Node>,
                      k: nat, head: Node?, tail: Node?)
    requires Indexed(hash, bs, cs, order, Elems(order)) && Listed(head, tail, order) && k < |order| && del == order[k]
    requires |bs| > 0 && b == Home(hash, |bs|, del)
    ensures Removable(hash, bs, b, del, cs, order, k, false, Elems(order))
  {
    ListedOpens(head, tail, order);
  }

  lemma SievedWithout(hash: seq<bv8> -> nat, bits: Option<nat>, bv: seq<bv8>, order: seq<Node>, k: nat)
    requires Sieved(hash, bits, bv, order) && k < |order|
    ensures Sieved(hash, bits, bv, Without(order, k))
  {
    var t := Without(order, k);
    assert Veil(0);
    assert forall i :: 0 <= i < |t| ==> t[i] == order[if i < k then i else i + 1];
  }

  /** n is the element at i of the chain, and the first one with the key. */
  ghost predicate FirstIn(chain: seq<Node>, key: seq<bv8>, i: nat, n: Node) {
    i < |chain| && chain[i] == n && n.key == key && forall j :: 0 <= j < i ==> chain[j].key != key
  }

  lemma SievedOpens(hash: seq<bv8> -> nat, bits: Option<nat>, bv: seq<bv8>, order: seq<Node>)
    requires Sieved(hash, bits, bv, order) && bits.Some?
    ensures |bv| == Bloom.ByteLength(bits.value)
    ensures forall i :: 0 <= i < |order| ==> Bloom.Test(bv, bits.value, hash(order[i].key))
  {
    assert Veil(0);
  }

  /** Every element with a given key is in the chain that the key selects. */
  lemma InItsChain(hash: seq<bv8> -> nat, bs: seq<Bucket>, cs: seq<seq<Node>>, order: seq<Node>, key: seq<bv8>,
                   b: nat, table: object)
    requires Indexed(hash, bs, cs, order, Elems(order)) && Owned(table, hash, order) && |bs| > 0
    requires b == hash(key) % |bs|
    ensures |cs| == |bs| && ChainOk(bs[b].hhHead, cs[b]) && Hashed(hash, cs[b])
    ensures forall n: Node :: n in order && n.key == key ==> n in cs[b]
    ensures forall n: Node :: n in cs[b] ==> n in order
  {
    assert Veil(0);
    AllHashed(hash, cs, order);
  }

  /** HASH_FIND_IN_BKT. */
  method FindInBkt(hash: seq<bv8> -> nat, h: Node?, hashv: nat, key: seq<bv8>, ghost bs: seq<Bucket>, ghost b: nat,
                   ghost cs: seq<seq<Node>>, ghost order: seq<Node>, ghost table: object)
    returns (out: Node?, ghost i: nat)
    requires Indexed(hash, bs, cs, order, Elems(order)) && Owned(table, hash, order) && |bs| > 0
    requires hashv == hash(key) && b == hashv % |bs| && h == bs[b].hhHead
    ensures |cs| == |bs|
    ensures out == null ==> forall n: Node :: n in order ==> n.key != key
    ensures out != null ==> out in order && FirstIn(cs[b], key, i, out)
  {
    InItsChain(hash, bs, cs, order, key, b, table);
    ghost var s := cs[b];
    out, i := h, 0;
    while out != null && !(out.hashv == hashv && out.key == key)
      invariant i <= |s| && out == At(s, i)
      invariant forall j :: 0 <= j < i ==> s[j].key != key
      decreases |s| - i
    {
      out, i := out.hhNext, i + 1;
    }
  }

  /** The work of HASH_SRT on the order list. */
  method SortOrder(cmp: (Node, Node) -> int, head: Node, ghost tail: Node?, ghost order: seq<Node>)
    returns (head': Node?, tail': Node?)
    requires Listed(head, tail, order)
    modifies Elems(order)`next, Elems(order)`prev
    ensures Listed(head', tail', StableMerge.Sort(cmp, order))
  {
    ListedOpens(head, tail, order);
    ghost var out;
    head', tail', out := ListSort(AppOrder, cmp, head, order, Elems(order));
    StableMerge.SortPermutes(cmp, order);
    assert |multiset(out)| == |multiset(order)|;
  }

  /** Nothing but the order list depends on the order. */
  lemma ReorderedTable(hash: seq<bv8> -> nat, bits: Option<nat>, bv: seq<bv8>, bs: seq<Bucket>, cs: seq<seq<Node>>,
                       order: seq<Node>, order': seq<Node>, table: object, cmp: (Node, Node) -> int)
    requires Indexed(hash, bs, cs, order, Elems(order)) && Owned(table, hash, order) && Sieved(hash, bits, bv, order)
    requires order' == StableMerge.Sort(cmp, order)
    ensures |order'| == |order| && Elems(order') == Elems(order)
    ensures Indexed(hash, bs, cs, order', Elems(order')) && Owned(table, hash, order') && Sieved(hash, bits, bv, order')
  {
    StableMerge.SortPermutes(cmp, order);
    SameElements(order, order');
    ReorderedIndex(hash, bs, cs, order, order');
    ReorderedNodes(hash, bits, bv, order, order', table);
  }

  lemma ReorderedIndex(hash: seq<bv8> -> nat, bs: seq<Bucket>, cs: seq<seq<Node>>, order: seq<Node>, order': seq<Node>)
    requires Indexed(hash, bs, cs, order, Elems(order)) && |order'| == |order| && Elems(order') == Elems(order)
    requires forall n: Node :: n in order <==> n in order'
    ensures Indexed(hash, bs, cs, order', Elems(order'))
  {
    IndexedOpens(hash, bs, cs, order, Elems(order));
    forall i | 0 <= i < |order'| ensures order'[i] in cs[Home(hash, |cs|, order'[i])] {
      assert order'[i] in order';
      var j :| 0 <= j < |order| && order[j] == order'[i];
    }
    forall b, i | 0 <= b < |cs| && 0 <= i < |cs[b]| ensures cs[b][i] in order' {
      assert cs[b][i] in order;
    }
    assert SameMembers(hash, cs, order');
  }

  lemma SameElements(s: seq<Node>, t: seq<Node>)
    requires multiset(s) == multiset(t)
    ensures |s| == |t| && Elems(s) == Elems(t) && forall n: Node :: n in s <==> n in t
  {
    assert |multiset(s)| == |s| && |multiset(t)| == |t|;
    assert forall n: Node :: n in s <==> n in multiset(s);
    assert forall n: Node :: n in t <==> n in multiset(t);
  }

  lemma ReorderedNodes(hash: seq<bv8> -> nat, bits: Option<nat>, bv: seq<bv8>, order: seq<Node>, order': seq<Node>,
                       table: object)
    requires Owned(table, hash, order) && Sieved(hash, bits, bv, order) && forall n: Node :: n in order <==> n in order'
    ensures Owned(table, hash, order') && Sieved(hash, bits, bv, order')
  {
    assert Veil(0);
    forall i | 0 <= i < |order'|
      ensures order'[i].hashv == hash(order'[i].key) && order'[i].tbl == table
      ensures bits.Some? ==> Bloom.Test(bv, bits.value, hash(order'[i].key))
    {
      assert order'[i] in order';
      var j :| 0 <= j < |order| && order[j] == order'[i];
      assert order[j].tbl == table;
    }
  }

  lemma AllHashed(hash: seq<bv8> -> nat, cs: seq<seq<Node>>, order: seq<Node>)
    requires SameMembers(hash, cs, order) && Hashed(hash, order)
    ensures forall b :: 0 <= b < |cs| ==> Hashed(hash, cs[b])
  {
    forall b, i | 0 <= b < |cs| && 0 <= i < |cs[b]| ensures cs[b][i].hashv == hash(cs[b][i].key) {
      assert cs[b][i] in order;
    }
  }

  ghost predicate NoneHas(order: seq<Node>, key: seq<bv8>) {
    forall i :: 0 <= i < |order| ==> order[i].key != key
  }

  /** No two elements share a key. */
  ghost predicate KeysUnique(order: seq<Node>) {
    forall i, j :: 0 <= i < j < |order| ==> order[i].key != order[j].key
  }

  /** Replacing keeps keys unique. */
  lemma ReplacedUnique(order: seq<Node>, k: nat, add: Node)
    requires KeysUnique(order) && k < |order| && order[k].key == add.key
    ensures KeysUnique(Without(order, k) + [add])
  {
    var t := Without(order, k);
    assert forall i :: 0 <= i < |t| ==> t[i] == order[if i < k then i else i + 1];
  }

  /** Adding in front of the first greater element keeps a sorted order sorted, and puts the new
      element behind those equal to it. */
  lemma PlacedSorted(cmp: (Node, Node) -> int, dom: set<Node>, order: seq<Node>, add: Node, k: nat)
    requires StableMerge.Orders(cmp, dom) && StableMerge.Within(order, dom) && add in dom
    requires StableMerge.Sorted(cmp, order)
    requires Place(cmp, order, add, k)
    ensures StableMerge.Sorted(cmp, Inserted(order, k, add))
    ensures StableMerge.TiesWith(cmp, add, Inserted(order, k, add)) == StableMerge.TiesWith(cmp, add, order) + [add]
  {
    StableMerge.InsertSorted(cmp, dom, order, add, k);
  }
}
