/** The hash table of include/uthash.h. An object of class HashTable stands for the head pointer an
    application keeps together with the UT_hash_table the head element points at; the table comes
    into being with the first element and goes with the last. Allocation may fail wherever the
    macros allocate (the HASH_NONFATAL_OOM build): the outcomes are parameters. */
module Uthash {
  import opened Options
  import StableMerge
  import opened IntrusiveSort
  import opened HashChains
  import opened AppOrderList
  import opened HashMembers
  import Bloom
  import opened HashIndex
  import opened HashCheck

  class HashTable {
    const hash: seq<bv8> -> nat
    /** HASH_BLOOM, if the filter is compiled in. */
    const bloomBits: Option<nat>
    var head: Node?
    var tail: Node?
    var buckets: array<Bucket>
    var meta: Meta
    var bloomBv: array<bv8>
    /** The elements in application order, and bucket by bucket. */
    ghost var order: seq<Node>
    ghost var chains: seq<seq<Node>>

    constructor (hash: seq<bv8> -> nat, bloomBits: Option<nat>)
      ensures this.hash == hash && this.bloomBits == bloomBits && order == [] && Valid()
    {
      this.hash, this.bloomBits := hash, bloomBits;
      head, tail, order, chains := null, null, [], [];
      buckets := new Bucket[0];
      bloomBv := new bv8[0];
      meta := Meta(0, 0, 0, 0, 0, 0, false);
    }

    ghost predicate Sized()
      reads this
    {
      && buckets.Length == meta.numBuckets && SizedTo(meta.numBuckets, meta.log2NumBuckets)
      && buckets as object != bloomBv as object
    }

    /** What HASH_FSCK checks, and what it takes for granted. */
    ghost predicate Valid()
      reads this, buckets, bloomBv, order
    {
      if order == [] then head == null
      else
        && Sized() && meta.numItems == |order| && Listed(head, tail, order) && Owned(this, hash, order)
        && Indexed(hash, buckets[..], chains, order, Elems(order))
        && Sieved(hash, bloomBits, bloomBv[..], order)
    }

    /** HASH_EXPAND_BUCKETS, once the memory for the new buckets is there. */
    method ExpandBuckets(ghost nodes: set<Node>)
      requires Sized() && meta.numItems == |order| && Owned(this, hash, order) && Elems(order) <= nodes
      requires Indexed(hash, buckets[..], chains, order, nodes)
      modifies this`buckets, this`meta, this`chains, nodes`hhNext, nodes`hhPrev
      ensures fresh(buckets) && Sized() && Expanded(old(meta), meta, buckets[..])
      ensures Rehashed(hash, old(chains), chains, meta.numBuckets)
      ensures Indexed(hash, buckets[..], chains, order, nodes)
      ensures meta.noexpand <==>
              old(meta).noexpand || (old(meta).ineffExpands > 0 && meta.nonidealItems > |order| / 2)
    {
      var bs, ideal, nonideal;
      bs, ideal, nonideal, chains := DoubledBuckets(hash, buckets, meta.log2NumBuckets, meta.numItems, chains, order,
                                                    nodes, this);
      var ineff := if nonideal > meta.numItems / 2 then meta.ineffExpands + 1 else 0;
      meta := Meta(meta.numBuckets * 2, meta.log2NumBuckets + 1, meta.numItems, ideal, nonideal, ineff,
                   if ineff > 1 then true else meta.noexpand);
      buckets := bs;
    }

    /** HASH_ADD_TO_BKT for an element that the order list already holds. A full bucket makes the
        table expand, unless expansion is off; without memory for that, the element is unlinked again. */
    method AddToBkt(b: nat, add: Node, oom: bool, ghost order0: seq<Node>, ghost k: nat, ghost nodes: set<Node>)
      returns (oomed: bool)
      requires Sized() && meta.numItems == |order| && Owned(this, hash, order) && Elems(order) <= nodes
      requires Distinct(order)
      requires k <= |order0| && order == Inserted(order0, k, add)
      requires buckets.Length > 0 && b == Home(hash, buckets.Length, add)
      requires Indexed(hash, buckets[..], chains, order0, nodes)
      modifies this`buckets, this`meta, this`chains, buckets, nodes`hhNext, nodes`hhPrev
      ensures oomed == (oom && Filled(old(buckets[..]), b) && !old(meta).noexpand)
      ensures oomed <==> && oom && !old(meta).noexpand
                         && old(buckets[b]).count >= 10 * old(buckets[b]).expandMult + 9
      ensures oomed ==>
                buckets == old(buckets) && buckets[..] == old(buckets[..]) && chains == old(chains) && meta == old(meta)
      ensures oomed ==> Indexed(hash, buckets[..], chains, order0, nodes)
      ensures !oomed ==> Sized() && Indexed(hash, buckets[..], chains, order, nodes)
      ensures !oomed ==> Added(hash, old(buckets[..]), old(chains), old(meta), b, add, buckets[..], chains, meta)
      ensures buckets == old(buckets) || fresh(buckets)
    {
      var full;
      full, oomed, chains := LinkUnlessOom(hash, buckets, b, add, meta.noexpand, oom, chains, order0, order, k, nodes);
      if full && !oomed {
        ExpandBuckets(nodes);
      }
    }

    /** HASH_DELETE_HH. */
    method DeleteHH(del: Node, ghost b: nat, ghost k: nat, ghost stray: bool) returns (ghost j: int)
      requires Sized() && meta.numItems == |order| && Listed(head, tail, order) && Owned(this, hash, order)
      requires k < |order| && Sieved(hash, bloomBits, bloomBv[..], Without(order, k))
      requires Removable(hash, buckets[..], b, del, chains, order, k, stray, Elems(order))
      modifies this, buckets, Elems(order)`next, Elems(order)`prev, Elems(order)`hhNext, Elems(order)`hhPrev
      ensures Valid() && order == Without(old(order), k) && buckets == old(buckets) && bloomBv == old(bloomBv)
      ensures |old(order)| > 1 ==> Deindexed(old(buckets[..]), old(chains), b, del, stray, j, buckets[..], chains)
      ensures |old(order)| > 1 ==> meta == old(meta).(numItems := |order|)
    {
      Alone(head, tail, order, k);
      ghost var bv := bloomBv[..];
      j := -1;
      if del.prev == null && del.next == null {
        head := null;
        order := [];
      } else {
        ghost var cs;
        var first, last;
        first, last, cs, j := Detach(hash, head, tail, del, buckets, b, meta.log2NumBuckets, chains, order, k, stray,
                                     this);
        assert bloomBv[..] == bv;
        meta := meta.(numItems := meta.numItems - 1);
        head, tail, chains, order := first, last, cs, Without(order, k);
      }
    }

    /** What HASH_ADD_TO_TABLE does when the bucket could not be expanded: `add`, already on the
        order list at position k but in no chain, leaves the table as it was without it. */
    method Retract(add: Node, b: nat, ghost order0: seq<Node>, ghost k: nat)
      requires Sized() && meta.numItems == |order| && Listed(head, tail, order) && Owned(this, hash, order)
      requires k <= |order0| && order0 != [] && order == Inserted(order0, k, add)
      requires Sieved(hash, bloomBits, bloomBv[..], order0)
      requires b < buckets.Length && b == Home(hash, buckets.Length, add)
      requires Indexed(hash, buckets[..], chains, order0, Elems(order))
      modifies this, buckets, Elems(order)`next, Elems(order)`prev, Elems(order)`hhNext, Elems(order)`hhPrev, add`tbl
      ensures Valid() && order == order0 && buckets == old(buckets) && bloomBv == old(bloomBv) && add.tbl == null
      ensures buckets[..] == old(buckets[..]) && chains == old(chains) && meta == old(meta).(numItems := |order|)
    {
      ghost var bs0, cs0 := buckets[..], chains;
      Taken(order0, k, add, head, tail);
      Rollback(hash, buckets, b, add, chains, order0, order, k, Elems(order));
      ghost var j := DeleteHH(add, b, k, true);
      assert chains == cs0 && buckets[..] == bs0;
      add.tbl := null;
    }

    /** `add` is on the order list at position k, and not yet counted or indexed. */
    ghost predicate Pending(add: Node, order0: seq<Node>, k: nat)
      reads this, buckets, bloomBv, order
    {
      && Sized() && meta.numItems == |order0| && Listed(head, tail, order) && Owned(this, hash, order)
      && k <= |order0| && order == Inserted(order0, k, add) && Sieved(hash, bloomBits, bloomBv[..], order0)
      && Indexed(hash, buckets[..], chains, order0, Elems(order))
    }

    /** HASH_ADD_TO_TABLE, for an element that the order list holds at position k. */
    method AddToTable(add: Node, oom: bool, ghost order0: seq<Node>, ghost k: nat) returns (oomed: bool, ghost b: nat)
      requires Pending(add, order0, k)
      modifies this, buckets, bloomBv, Elems(order)`next, Elems(order)`prev, Elems(order)`hhNext, Elems(order)`hhPrev,
               add`tbl
      ensures Valid() && b < old(buckets).Length && b == Home(hash, old(buckets).Length, add)
      ensures oomed == (oom && Filled(old(buckets[..]), b) && !old(meta).noexpand)
      ensures oomed ==> add.tbl == null && order == order0
      ensures oomed ==> Restored(old(buckets), old(buckets[..]), old(chains), old(meta), old(bloomBv), old(bloomBv[..]))
      ensures !oomed ==> order == old(order)
      ensures !oomed ==> Added(hash, old(buckets[..]), old(chains), old(meta).(numItems := |order|), b, add,
                               buckets[..], chains, meta)
      ensures (buckets == old(buckets) || fresh(buckets)) && bloomBv == old(bloomBv)
    {
      Taken(order0, k, add, head, tail);
      var bkt := BucketOf(hash, add, meta.numBuckets, meta.log2NumBuckets, order, k, this);
      b := bkt;
      FewFit(hash, buckets[..], chains, order0, Elems(order), b);
      meta := meta.(numItems := meta.numItems + 1);
      oomed := AddToBkt(bkt, add, oom, order0, k, Elems(order));
      assert Listed(head, tail, order) && Owned(this, hash, order);
      assert bloomBv[..] == old(bloomBv[..]);
      if oomed {
        Retract(add, bkt, order0, k);
      } else {
        Sift(add, order0, k);
      }
    }

    /** HASH_BLOOM_ADD for an element that is counted and indexed. */
    method Sift(add: Node, ghost order0: seq<Node>, ghost k: nat)
      requires Sized() && meta.numItems == |order| && Listed(head, tail, order) && Owned(this, hash, order)
      requires k <= |order0| && order == Inserted(order0, k, add) && Sieved(hash, bloomBits, bloomBv[..], order0)
      requires Indexed(hash, buckets[..], chains, order, Elems(order))
      modifies bloomBv
      ensures Valid() && buckets[..] == old(buckets[..])
    {
      SieveAdd(hash, bloomBits, bloomBv, add, order0, order, k, this);
    }

    /** The index is what it was: same buckets, chains, numbers and filter. */
    ghost predicate Restored(bs0: array<Bucket>, contents: seq<Bucket>, cs0: seq<seq<Node>>, m0: Meta,
                             filter: array<bv8>, bits: seq<bv8>)
      reads this, bs0, filter
    {
      && buckets == bs0 && bs0[..] == contents && chains == cs0 && meta == m0
      && bloomBv == filter && filter[..] == bits
    }

    /** HASH_MAKE_TABLE; `oom` says whether one of its allocations fails. If so, the element's table
        pointer is the caller's to clear. */
    method MakeTable(add: Node, oom: bool) returns (oomed: bool)
      modifies this, add`tbl
      ensures oomed == oom && head == old(head) && order == old(order)
      ensures if oomed then unchanged(this)
              else && Sized() && tail == add && add.tbl == this && fresh(buckets) && fresh(bloomBv)
                   && meta == Meta(INITIAL_NUM_BUCKETS, INITIAL_NUM_BUCKETS_LOG2, 0, 0, 0, 0, false)
                   && Sieved(hash, bloomBits, bloomBv[..], [])
                   && chains == seq(INITIAL_NUM_BUCKETS, _ => [])
                   && Indexed(hash, buckets[..], chains, [], {})
    {
      oomed := oom;
      if !oom {
        add.tbl := this;
        tail := add;
        meta := Meta(INITIAL_NUM_BUCKETS, INITIAL_NUM_BUCKETS_LOG2, 0, 0, 0, 0, false);
        buckets := new Bucket[INITIAL_NUM_BUCKETS](_ => EMPTY_BUCKET);
        bloomBv := new bv8[if bloomBits.Some? then Bloom.ByteLength(bloomBits.value) else 0](_ => 0);
        chains := seq(INITIAL_NUM_BUCKETS, _ => []);
        NothingIndexed(hash, buckets[..], chains);
        InitialSize();
      }
    }

    /** The first element: the table is made. */
    method EnterFirst(add: Node, oom: bool) returns (oomed: bool)
      requires Valid() && head == null && add.hashv == hash(add.key)
      modifies this, add`next, add`prev, add`tbl
      ensures oomed == oom && old(order) == []
      ensures if oomed then unchanged(this)
              else order == [add] && Pending(add, [], 0) && fresh(buckets) && fresh(bloomBv)
    {
      HeadNull();
      add.next := null;
      add.prev := null;
      oomed := MakeTable(add, oom);
      if !oomed {
        head := add;
        order := [add];
        IndexedAmong(hash, buckets[..], chains, [], {}, {add});
        assert Elems(order) == {add};
        OnlyElement(this, hash, add);
      }
    }

    lemma HeadNull()
      requires Valid()
      ensures head == null <==> order == []
    {
      if order != [] { ListedOpens(head, tail, order); }
    }

    /** A further element: it is put on the order list, in front of `iter` or at the end. */
    method EnterMore(add: Node, iter: Node?, ghost k: nat)
      requires Valid() && order != [] && add !in order && k <= |order| && iter == At(order, k)
      requires add.hashv == hash(add.key)
      modifies `head, `tail, `order, add`next, add`prev, add`tbl, Elems(order)`next, Elems(order)`prev
      ensures order == Inserted(old(order), k, add) && Pending(add, old(order), k)
    {
      HeadNull();
      ListedOpens(head, tail, order);
      var first, last := Enrol(hash, head, tail, iter, add, buckets[..], chains, order, k, this);
      head, tail, order := first, last, Inserted(order, k, add);
    }

    /** HASH_ADD_KEYPTR_BYHASHVALUE and its INORDER form, once the place is known: in front of
        `iter`, or at the end. An element that could not be added leaves the table as it was. */
    method AddAt(add: Node, iter: Node?, oom: bool, ghost k: nat) returns (oomed: bool, ghost b: nat)
      requires Valid() && add !in order && k <= |order| && iter == At(order, k)
      modifies this, buckets, bloomBv, add, Elems(order)`next, Elems(order)`prev, Elems(order)`hhNext,
               Elems(order)`hhPrev
      ensures Valid() && (oomed ==> add.tbl == null && order == old(order))
      ensures oomed ==> Restored(old(buckets), old(buckets[..]), old(chains), old(meta), old(bloomBv), old(bloomBv[..]))
      ensures !oomed ==> order == Inserted(old(order), k, add)
      ensures old(order) == [] ==> oomed == oom
      ensures old(order) != [] ==> b < old(buckets).Length && b == Home(hash, old(buckets).Length, add)
      ensures old(order) != [] ==> oomed == (oom && Filled(old(buckets[..]), b) && !old(meta).noexpand)
      ensures old(order) != [] && !oomed ==>
                Added(hash, old(buckets[..]), old(chains), old(meta).(numItems := |order|), b, add, buckets[..],
                      chains, meta)
      ensures (buckets == old(buckets) || fresh(buckets)) && (bloomBv == old(bloomBv) || fresh(bloomBv))
    {
      ghost var order0 := order;
      add.hashv := hash(add.key);
      b := 0;
      if head == null {
        oomed := EnterFirst(add, oom);
        if oomed {
          add.tbl := null;
          return;
        }
      } else {
        EnterMore(add, iter, k);
      }
      oomed, b := AddToTable(add, oom, order0, k);
    }

    /** HASH_ADD: the element becomes the last in application order. */
    method Add(add: Node, oom: bool) returns (oomed: bool, ghost b: nat)
      requires Valid() && add !in order
      modifies this, buckets, bloomBv, add, Elems(order)`next, Elems(order)`prev, Elems(order)`hhNext,
               Elems(order)`hhPrev
      ensures Valid() && (oomed ==> add.tbl == null && order == old(order))
      ensures oomed ==> Restored(old(buckets), old(buckets[..]), old(chains), old(meta), old(bloomBv), old(bloomBv[..]))
      ensures !oomed ==> order == old(order) + [add]
      ensures old(order) == [] ==> oomed == oom
      ensures old(order) != [] ==> b < old(buckets).Length && b == Home(hash, old(buckets).Length, add)
      ensures old(order) != [] ==> oomed == (oom && Filled(old(buckets[..]), b) && !old(meta).noexpand)
      ensures old(order) != [] && !oomed ==>
                Added(hash, old(buckets[..]), old(chains), old(meta).(numItems := |order|), b, add, buckets[..],
                      chains, meta)
      ensures (buckets == old(buckets) || fresh(buckets)) && (bloomBv == old(bloomBv) || fresh(bloomBv))
    {
      assert Inserted(order, |order|, add) == order + [add];
      oomed, b := AddAt(add, null, oom, |order|);
    }

    /** HASH_ADD_INORDER: the element goes in front of the first one that compares greater. */
    method AddInorder(cmp: (Node, Node) -> int, add: Node, oom: bool) returns (oomed: bool, ghost b: nat, ghost k: nat)
      requires Valid() && add !in order
      modifies this, buckets, bloomBv, add, Elems(order)`next, Elems(order)`prev, Elems(order)`hhNext,
               Elems(order)`hhPrev
      ensures Valid() && (oomed ==> add.tbl == null && order == old(order))
      ensures oomed ==> Restored(old(buckets), old(buckets[..]), old(chains), old(meta), old(bloomBv), old(bloomBv[..]))
      ensures Place(cmp, old(order), add, k) && (!oomed ==> order == Inserted(old(order), k, add))
      ensures old(order) == [] ==> oomed == oom
      ensures old(order) != [] ==> b < old(buckets).Length && b == Home(hash, old(buckets).Length, add)
      ensures old(order) != [] ==> oomed == (oom && Filled(old(buckets[..]), b) && !old(meta).noexpand)
      ensures old(order) != [] && !oomed ==>
                Added(hash, old(buckets[..]), old(chains), old(meta).(numItems := |order|), b, add, buckets[..],
                      chains, meta)
      ensures (buckets == old(buckets) || fresh(buckets)) && (bloomBv == old(bloomBv) || fresh(bloomBv))
    {
      var iter := head;
      k := 0;
      HeadNull();
      if head != null {
        iter, k := FirstGreater(cmp, head, tail, add, order);
      }
      oomed, b := AddAt(add, iter, oom, k);
    }

    /** HASH_DELETE. */
    method Delete(del: Node, ghost k: nat) returns (ghost j: int)
      requires Valid() && k < |order| && del == order[k]
      modifies this, buckets, Elems(order)`next, Elems(order)`prev, Elems(order)`hhNext, Elems(order)`hhPrev
      ensures Valid() && order == Without(old(order), k) && buckets == old(buckets) && bloomBv == old(bloomBv)
      ensures order != [] ==> meta == old(meta).(numItems := |order|)
      ensures order != [] ==> Deindexed(old(buckets[..]), old(chains), Home(hash, buckets.Length, del), del, false, j,
                                        buckets[..], chains)
    {
      ghost var b := Home(hash, buckets.Length, del);
      ReadyToDelete(hash, buckets[..], b, del, chains, order, k, head, tail);
      SievedWithout(hash, bloomBits, bloomBv[..], order, k);
      j := DeleteHH(del, b, k, false);
    }

    /** HASH_FIND: the first element of its chain with the key, whether or not there is a filter. */
    method Find(key: seq<bv8>) returns (out: Node?, ghost i: nat)
      requires Valid()
      ensures out == null <==> forall n: Node :: n in order ==> n.key != key
      ensures out != null ==> out in order && out.key == key
      ensures out != null ==> buckets.Length == |chains| > 0 && FirstIn(chains[hash(key) % |chains|], key, i, out)
    {
      out, i := null, 0;
      if head == null {
        HeadNull();
      } else {
        HeadNull();
        var hashv := hash(key);
        SizedOpens(meta.numBuckets, meta.log2NumBuckets);
        var bkt := ToBucket(hashv, meta.numBuckets, meta.log2NumBuckets);
        if bloomBits.Some? {
          SievedOpens(hash, bloomBits, bloomBv[..], order);
        }
        if bloomBits.None? || Bloom.Test(bloomBv[..], bloomBits.value, hashv) {
          out, i := FindInBkt(hash, buckets[bkt].hhHead, hashv, key, buckets[..], bkt, chains, order, this);
        }
      }
    }

    /** HASH_SRT: the application order is sorted; which element is in which bucket does not change. */
    method Sort(cmp: (Node, Node) -> int)
      requires Valid()
      modifies `head, `tail, `order, Elems(order)`next, Elems(order)`prev
      ensures Valid() && order == StableMerge.Sort(cmp, old(order))
    {
      HeadNull();
      if head != null {
        head, tail := SortOrder(cmp, head, tail, order);
        ghost var sorted := StableMerge.Sort(cmp, order);
        ReorderedTable(hash, bloomBits, bloomBv[..], buckets[..], chains, order, sorted, this, cmp);
        order := sorted;
      }
    }

    /** HASH_FSCK accepts exactly the tables whose backward links and counts agree with the forward links. */
    method Fsck() returns (ok: bool)
      requires head != null ==> OrderRuns(head, order) && buckets.Length == |chains|
      requires head != null ==> forall b :: 0 <= b < |chains| ==> ChainRuns(buckets[b].hhHead, chains[b])
      ensures ok <==> (head != null ==> && OrderReturns(order, |order|) && meta.numItems == |order| == |Flat(chains)|
                                        && forall b :: 0 <= b < |chains| ==> BucketFine(buckets[b], chains[b]))
    {
      ok := true;
      if head != null {
        var count;
        ok, count := CheckBuckets(buckets[..], chains);
        if count != meta.numItems {
          ok := false;
        }
        var fine;
        fine, count := CheckOrder(head, order);
        ok := ok && fine && count == meta.numItems;
      }
    }

    /** Every table that the operations maintain passes. */
    lemma ValidPasses()
      requires Valid() && head != null
      ensures OrderRuns(head, order) && OrderReturns(order, |order|) && meta.numItems == |order| == |Flat(chains)|
      ensures buckets.Length == |chains|
      ensures forall b :: 0 <= b < |chains| ==>
              ChainRuns(buckets[b].hhHead, chains[b]) && BucketFine(buckets[b], chains[b])
    {
      HeadNull();
      ListedOpens(head, tail, order);
      IndexedOpens(hash, buckets[..], chains, order, Elems(order));
      FlatLength(buckets[..], chains);
    }

    /** HASH_REPLACE. The element that goes makes room in the bucket of the one that comes; it may be
        the same one, if no other has its key. */
    method Replace(add: Node, oom: bool) returns (replaced: Node?, oomed: bool)
      requires Valid() && (add in order ==> forall n: Node :: n in order && n.key == add.key ==> n == add)
      modifies this, buckets, bloomBv, add, Elems(order)`next, Elems(order)`prev, Elems(order)`hhNext,
               Elems(order)`hhPrev
      ensures Valid()
      ensures replaced == null ==> NoneHas(old(order), add.key) && order == old(order) + (if oomed then [] else [add])
      ensures replaced != null ==>
                && replaced.key == add.key && replaced in old(order)
                && exists k :: 0 <= k < |old(order)| && old(order)[k] == replaced
                               && order == Without(old(order), k) + (if oomed then [] else [add])
      ensures |old(order)| <= (if replaced == null then 0 else 1) ==> oomed == oom
      ensures |old(order)| > (if replaced == null then 0 else 1) ==>
                && old(buckets).Length > 0
                && oomed == (oom && !old(meta).noexpand
                             && old(Full(add, if replaced == null then 1 else 0)))
      ensures (buckets == old(buckets) || fresh(buckets)) && (bloomBv == old(bloomBv) || fresh(bloomBv))
    {
      ghost var i, k, j, b := 0, 0, 0, 0;
      replaced, i := Find(add.key);
      if replaced != null {
        k :| 0 <= k < |order| && order[k] == replaced;
        CountOf(add);
        OnceOnly(k);
        j := Delete(replaced, k);
      }
      oomed, b := Add(add, oom);
    }

    lemma OnceOnly(k: nat)
      requires Valid() && k < |order|
      ensures order[k] !in Without(order, k)
    {
      ListedOpens(head, tail, order);
    }

    /** Whether the bucket of `add` is at its threshold with `more` elements more. */
    ghost predicate Full(add: Node, more: nat)
      requires buckets.Length > 0
      reads this, buckets
    {
      var b := Home(hash, buckets.Length, add);
      buckets[b].count + more >= (buckets[b].expandMult + 1) * BKT_CAPACITY_THRESH
    }

    lemma CountOf(add: Node)
      requires Valid() && order != []
      ensures buckets.Length == |chains| > 0
      ensures var b := Home(hash, buckets.Length, add); b < |chains| && buckets[b].count == |chains[b]|
    {
      IndexedBucket(hash, buckets[..], chains, order, Elems(order), Home(hash, buckets.Length, add));
    }
  }
}
