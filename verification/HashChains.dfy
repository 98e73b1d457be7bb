/** The bucket chains of include/uthash.h: an array of buckets, each the head of a doubly linked
    chain through hh_next and hh_prev, with its length and its expansion multiplier. */
module HashChains {
  import opened Veils
  import opened IntrusiveSort
  import opened HashMath

  /** UT_hash_bucket. */
  datatype Bucket = Bucket(hhHead: Node?, count: nat, expandMult: nat)

  const EMPTY_BUCKET := Bucket(null, 0, 0)

  /** h is the head of the chain s. */
  ghost predicate ChainOk(h: Node?, s: seq<Node>)
    reads s`hhNext, s`hhPrev
  {
    && Distinct(s) && h == At(s, 0)
    && (forall i {:trigger s[i].hhNext} :: 0 <= i < |s| ==> s[i].hhNext == At(s, i + 1))
    && (forall i {:trigger s[i].hhPrev} :: 0 <= i < |s| ==> s[i].hhPrev == At(s, i - 1))
  }

  /** Puts n in front of a chain. */
  method LinkFront(n: Node, h: Node?, ghost s: seq<Node>, ghost nodes: set<Node>)
    requires ChainOk(h, s) && n !in s && n in nodes && AllIn(s, nodes)
    modifies nodes`hhNext, nodes`hhPrev
    ensures ChainOk(n, [n] + s)
    ensures forall m: Node :: m in nodes && m != n && m !in s ==> m.hhNext == old(m.hhNext) && m.hhPrev == old(m.hhPrev)
  {
    n.hhNext := h;
    n.hhPrev := null;
    if h != null {
      h.hhPrev := n;
    }
  }

  function Without<T>(s: seq<T>, k: nat): seq<T>
    requires k < |s|
  {
    s[..k] + s[k + 1..]
  }

  /** n sits at position k of the chain s, or (k == -1) in no chain at all. */
  ghost predicate Holds(h: Node?, s: seq<Node>, k: int, n: Node)
    reads n`hhNext, n`hhPrev
  {
    if k == -1 then n !in s && h != n && n.hhNext == null && n.hhPrev == null
    else 0 <= k < |s| && s[k] == n
  }

  function Removed<T>(s: seq<T>, k: int): seq<T>
    requires -1 <= k < |s|
  {
    if k == -1 then s else Without(s, k)
  }

  /** Takes an element out of a chain; its own links stay as they are. */
  method Unlink(n: Node, h: Node?, ghost s: seq<Node>, ghost k: int, ghost nodes: set<Node>) returns (h': Node?)
    requires ChainOk(h, s) && Holds(h, s, k, n) && AllIn(s, nodes)
    modifies nodes`hhNext, nodes`hhPrev
    ensures ChainOk(h', Removed(s, k))
    ensures n.hhNext == old(n.hhNext) && n.hhPrev == old(n.hhPrev)
    ensures forall m: Node :: m in nodes && m !in s ==> m.hhNext == old(m.hhNext) && m.hhPrev == old(m.hhPrev)
  {
    h' := h;
    if h == n {
      h' := n.hhNext;
    }
    if n.hhPrev != null {
      n.hhPrev.hhNext := n.hhNext;
    }
    if n.hhNext != null {
      n.hhNext.hhPrev := n.hhPrev;
    }
    if k != -1 {
      ClosedUp(h', s, k);
    }
  }

  /** The links of s with the element at k bridged over. */
  ghost predicate Bridged(s: seq<Node>, k: nat)
    reads s
  {
    && k < |s|
    && (forall i {:trigger s[i].hhNext} :: 0 <= i < |s| && i != k ==>
        s[i].hhNext == At(s, if i == k - 1 then k + 1 else i + 1))
    && (forall i {:trigger s[i].hhPrev} :: 0 <= i < |s| && i != k ==>
        s[i].hhPrev == At(s, if i == k + 1 then k - 1 else i - 1))
  }

  lemma WithoutAt(s: seq<Node>, k: nat, i: int)
    requires k < |s|
    ensures At(Without(s, k), i) == At(s, if i < k then i else i + 1)
  {
  }

  lemma DistinctWithout(s: seq<Node>, k: nat)
    requires Distinct(s) && k < |s|
    ensures Distinct(Without(s, k))
    ensures forall m :: m in Without(s, k) <==> m in s && m != s[k]
  {
    var t := Without(s, k);
    assert forall i :: 0 <= i < |t| ==> t[i] == s[if i < k then i else i + 1];
    forall m | m in s && m != s[k] ensures m in t {
      var i :| 0 <= i < |s| && s[i] == m;
      assert t[if i < k then i else i - 1] == m;
    }
  }

  lemma ClosedUp(h: Node?, s: seq<Node>, k: nat)
    requires Distinct(s) && Bridged(s, k) && h == At(s, if k == 0 then 1 else 0)
    ensures ChainOk(h, Without(s, k))
  {
    var t := Without(s, k);
    DistinctWithout(s, k);
    WithoutAt(s, k, 0);
    forall i | 0 <= i < |t|
      ensures t[i].hhNext == At(t, i + 1) && t[i].hhPrev == At(t, i - 1)
    {
      WithoutAt(s, k, i);
      WithoutAt(s, k, i + 1);
      WithoutAt(s, k, i - 1);
    }
  }

  // ---------------------------------------------------------------- all chains of a table

  ghost predicate ChainsOk(bs: seq<Bucket>, cs: seq<seq<Node>>, nodes: set<Node>)
    reads nodes`hhNext, nodes`hhPrev
  {
    ChainsLinked(bs, cs, nodes) && forall b :: 0 <= b < |cs| ==> bs[b].count == |cs[b]|
  }

  ghost predicate ChainsLinked(bs: seq<Bucket>, cs: seq<seq<Node>>, nodes: set<Node>)
    reads nodes`hhNext, nodes`hhPrev
  {
    && |bs| == |cs|
    && (forall b :: 0 <= b < |cs| ==> AllIn(cs[b], nodes))
    && (forall b :: 0 <= b < |cs| ==> ChainOk(bs[b].hhHead, cs[b]))
  }

  /** Every element sits in the bucket its hash value selects. */
  ghost predicate Homed(hash: seq<bv8> -> nat, cs: seq<seq<Node>>) {
    && |cs| > 0
    && forall b, i :: 0 <= b < |cs| && 0 <= i < |cs[b]| ==> Home(hash, |cs|, cs[b][i]) == b
  }

  /** Chains of different buckets share no element. */
  lemma Apart(hash: seq<bv8> -> nat, cs: seq<seq<Node>>, b: nat, n: Node)
    requires Homed(hash, cs) && b < |cs| && Home(hash, |cs|, n) == b
    ensures forall c, i :: 0 <= c < |cs| && c != b && 0 <= i < |cs[c]| ==> cs[c][i] != n && cs[c][i] !in cs[b]
  {
    forall c, i | 0 <= c < |cs| && c != b && 0 <= i < |cs[c]|
      ensures cs[c][i] != n && cs[c][i] !in cs[b]
    {
      assert Home(hash, |cs|, cs[c][i]) == c;
    }
  }

  ghost function Home(hash: seq<bv8> -> nat, m: nat, n: Node): nat
    requires m > 0
  {
    hash(n.key) % m
  }

  /** HASH_TO_BKT. */
  method ToBucket(hashv: nat, numBuckets: nat, ghost log2: nat) returns (b: nat)
    requires numBuckets == Pow2(log2)
    ensures b == hashv % numBuckets < numBuckets
  {
    MaskIsMod(hashv, log2);
    b := And(hashv, numBuckets - 1);
  }

  /** The linking part of HASH_ADD_TO_BKT: counts n and puts it in front of its chain. */
  method AddToBucket(hash: seq<bv8> -> nat, bs: array<Bucket>, b: nat, n: Node, mult: nat, ghost cs: seq<seq<Node>>,
                     ghost nodes: set<Node>)
    requires ChainsOk(bs[..], cs, nodes) && Homed(hash, cs) && n in nodes
    requires b < |cs| && Home(hash, |cs|, n) == b && n !in cs[b]
    modifies bs, nodes`hhNext, nodes`hhPrev
    ensures bs[..] == old(bs[..])[b := Bucket(n, old(bs[b]).count + 1, mult)]
    ensures ChainsOk(bs[..], cs[b := [n] + cs[b]], nodes)
    ensures forall m: Node :: m in nodes && m != n && m !in cs[b] ==>
            m.hhNext == old(m.hhNext) && m.hhPrev == old(m.hhPrev)
  {
    Apart(hash, cs, b, n);
    var bkt := bs[b];
    LinkFront(n, bkt.hhHead, cs[b], nodes);
    bs[b] := Bucket(n, bkt.count + 1, mult);
  }

  /** The counts are right, except that bucket b also counts an element in no chain if k is -1. */
  ghost predicate Counted(bs: seq<Bucket>, cs: seq<seq<Node>>, b: nat, k: int) {
    |bs| == |cs| && forall c :: 0 <= c < |cs| ==> bs[c].count == |cs[c]| + if c == b && k == -1 then 1 else 0
  }

  /** Unlinking in one chain leaves the others alone. */
  method UnlinkAmong(hash: seq<bv8> -> nat, n: Node, h: Node?, ghost bs: seq<Bucket>, ghost cs: seq<seq<Node>>,
                     ghost b: nat, ghost k: int, ghost nodes: set<Node>)
    returns (h': Node?)
    requires b < |bs| == |cs| && Homed(hash, cs) && Home(hash, |cs|, n) == b && h == bs[b].hhHead
    requires ChainsLinked(bs, cs, nodes) && Holds(h, cs[b], k, n)
    modifies nodes`hhNext, nodes`hhPrev
    ensures ChainsLinked(bs[b := Bucket(h', 0, 0)], cs[b := Removed(cs[b], k)], nodes)
    ensures n.hhNext == old(n.hhNext) && n.hhPrev == old(n.hhPrev)
  {
    Apart(hash, cs, b, n);
    h' := Unlink(n, h, cs[b], k, nodes);
  }

  /** HASH_DEL_IN_BKT. It is also run on an element that has been counted but is in no chain. */
  method DelInBucket(hash: seq<bv8> -> nat, bs: array<Bucket>, b: nat, n: Node, ghost cs: seq<seq<Node>>, ghost k: int,
                     ghost nodes: set<Node>)
    requires b < bs.Length == |cs| && Homed(hash, cs) && Home(hash, |cs|, n) == b
    requires ChainsLinked(bs[..], cs, nodes) && Counted(bs[..], cs, b, k) && Holds(bs[b].hhHead, cs[b], k, n)
    modifies bs, nodes`hhNext, nodes`hhPrev
    ensures ChainsOk(bs[..], cs[b := Removed(cs[b], k)], nodes)
    ensures forall c :: 0 <= c < |cs| && c != b ==> bs[c] == old(bs[c])
    ensures bs[b].expandMult == old(bs[b]).expandMult
    ensures n.hhNext == old(n.hhNext) && n.hhPrev == old(n.hhPrev)
  {
    var bkt := bs[b];
    var h := UnlinkAmong(hash, n, bkt.hhHead, bs[..], cs, b, k, nodes);
    bs[b] := Bucket(h, bkt.count - 1, bkt.expandMult);
  }

  // ---------------------------------------------------------------- redistribution

  /** The chain of bucket b when the elements of `done` have been put in front one by one. */
  ghost function ChainOf(hash: seq<bv8> -> nat, m: nat, done: seq<Node>, b: nat): seq<Node>
    requires m > 0
    decreases |done|
  {
    if done == [] then []
    else
      var n := done[|done| - 1];
      var rest := ChainOf(hash, m, done[..|done| - 1], b);
      if Home(hash, m, n) == b then [n] + rest else rest
  }

  ghost function Dist(hash: seq<bv8> -> nat, m: nat, done: seq<Node>): (cs: seq<seq<Node>>)
    requires m > 0
    ensures |cs| == m && forall b :: 0 <= b < m ==> cs[b] == ChainOf(hash, m, done, b)
  {
    seq(m, b requires 0 <= b < m => ChainOf(hash, m, done, b))
  }

  lemma DistNext(hash: seq<bv8> -> nat, m: nat, done: seq<Node>, n: Node)
    requires m > 0
    ensures var h := Home(hash, m, n);
            Dist(hash, m, done + [n]) == Dist(hash, m, done)[h := [n] + Dist(hash, m, done)[h]]
  {
    assert (done + [n])[..|done|] == done;
  }

  /** s holds exactly the elements of `done` whose home is b. */
  ghost predicate Collects(hash: seq<bv8> -> nat, m: nat, done: seq<Node>, b: nat, s: seq<Node>)
    requires m > 0
  {
    && (forall i :: 0 <= i < |s| ==> s[i] in done && Home(hash, m, s[i]) == b)
    && (forall j :: 0 <= j < |done| && Home(hash, m, done[j]) == b ==> done[j] in s)
  }

  lemma {:induction false} ChainOfMembers(hash: seq<bv8> -> nat, m: nat, done: seq<Node>, b: nat)
    requires m > 0
    ensures Collects(hash, m, done, b, ChainOf(hash, m, done, b))
    decreases |done|
  {
    if done != [] {
      var n, before := done[|done| - 1], done[..|done| - 1];
      ChainOfMembers(hash, m, before, b);
      assert done == before + [n];
      CollectsNext(hash, m, before, n, b, ChainOf(hash, m, before, b));
    }
  }

  lemma CollectsNext(hash: seq<bv8> -> nat, m: nat, done: seq<Node>, n: Node, b: nat, s: seq<Node>)
    requires m > 0 && Collects(hash, m, done, b, s)
    ensures Collects(hash, m, done + [n], b, if Home(hash, m, n) == b then [n] + s else s)
  {
  }

  /** Redistribution homes every element, and the chains together hold exactly `done`. */
  lemma DistHomed(hash: seq<bv8> -> nat, m: nat, done: seq<Node>)
    requires m > 0
    ensures Homed(hash, Dist(hash, m, done))
    ensures forall b :: 0 <= b < m ==> Collects(hash, m, done, b, Dist(hash, m, done)[b])
  {
    forall b | 0 <= b < m
      ensures Collects(hash, m, done, b, Dist(hash, m, done)[b])
    {
      ChainOfMembers(hash, m, done, b);
    }
  }

  function Counts(bs: seq<Bucket>): (lens: seq<nat>)
    ensures |lens| == |bs| && forall i :: 0 <= i < |bs| ==> lens[i] == bs[i].count
  {
    seq(|bs|, i requires 0 <= i < |bs| => bs[i].count)
  }

  /** The counters of the new buckets: multipliers, elements beyond the ideal length, total. */
  ghost predicate Stats(bs: seq<Bucket>, total: nat, ideal: nat, nonideal: nat) {
    && (forall b :: 0 <= b < |bs| ==> IsMult(bs[b].expandMult, bs[b].count, ideal))
    && nonideal == Excess(Counts(bs), ideal)
    && Excess(Counts(bs), 0) == total
  }

  ghost predicate Measured(bs: seq<Bucket>, total: nat, ideal: nat, nonideal: nat) {
    forall k {:trigger Veil(k)} :: k >= 0 ==> Stats(bs, total, ideal, nonideal)
  }

  lemma StatsNext(bs: seq<Bucket>, b: nat, bkt: Bucket, total: nat, ideal: nat, nonideal: nat)
    requires Stats(bs, total, ideal, nonideal)
    requires b < |bs| && bkt.count == bs[b].count + 1 && IsMult(bkt.expandMult, bkt.count, ideal)
    ensures Stats(bs[b := bkt], total + 1, ideal, nonideal + if bkt.count > ideal then 1 else 0)
  {
    assert Counts(bs[b := bkt]) == Counts(bs)[b := bkt.count];
    ExcessUpdate(Counts(bs), b, bkt.count, ideal);
    ExcessUpdate(Counts(bs), b, bkt.count, 0);
  }

  /** The new buckets hold `done`, in the order in which insertion in front leaves it. */
  ghost predicate Moved(hash: seq<bv8> -> nat, bs: seq<Bucket>, done: seq<Node>, ideal: nat, nonideal: nat,
                        nodes: set<Node>)
    reads nodes
  {
    && |bs| > 0
    && (forall k {:trigger Veil(k)} :: k >= 0 ==> ChainsOk(bs, Dist(hash, |bs|, done), nodes))
    && Measured(bs, |done|, ideal, nonideal)
  }

  /** The body of the expansion loop: moves one element to the front of its new chain. */
  method Rehome(hash: seq<bv8> -> nat, bs: array<Bucket>, n: Node, ideal: nat, nonideal: nat,
                ghost log2: nat, ghost done: seq<Node>, ghost nodes: set<Node>)
    returns (nonideal': nat)
    requires bs.Length == Pow2(log2) && n.hashv == hash(n.key) && n in nodes && n !in done
    requires Moved(hash, bs[..], done, ideal, nonideal, nodes)
    modifies bs, nodes`hhNext, nodes`hhPrev
    ensures Moved(hash, bs[..], done + [n], ideal, nonideal', nodes)
    ensures forall m: Node :: m in nodes && m != n && m !in done ==>
            m.hhNext == old(m.hhNext) && m.hhPrev == old(m.hhPrev)
  {
    var b := ToBucket(n.hashv, bs.Length, log2);
    ghost var cs := MovedOpens(hash, bs[..], done, ideal, nonideal, nodes, n, b);
    ghost var bs0 := bs[..];
    var count, mult := bs[b].count + 1, bs[b].expandMult;
    nonideal' := nonideal;
    if count > ideal {
      nonideal' := nonideal' + 1;
      if count > mult * ideal {
        mult := mult + 1;
      }
    }
    AddToBucket(hash, bs, b, n, mult, cs, nodes);
    MovedNext(hash, bs0, bs[..], done, ideal, nonideal, nodes, n, b);
  }

  lemma MovedOpens(hash: seq<bv8> -> nat, bs: seq<Bucket>, done: seq<Node>, ideal: nat, nonideal: nat,
                   nodes: set<Node>, n: Node, b: nat)
    returns (cs: seq<seq<Node>>)
    requires Moved(hash, bs, done, ideal, nonideal, nodes) && |bs| > 0 && b == Home(hash, |bs|, n) && n !in done
    ensures cs == Dist(hash, |bs|, done) && ChainsOk(bs, cs, nodes) && Homed(hash, cs) && n !in cs[b]
    ensures forall i :: 0 <= i < |cs[b]| ==> cs[b][i] in done
  {
    assert Veil(0);
    cs := Dist(hash, |bs|, done);
    DistHomed(hash, |bs|, done);
    assert Collects(hash, |bs|, done, b, cs[b]);
  }

  lemma MovedNext(hash: seq<bv8> -> nat, bs: seq<Bucket>, bs': seq<Bucket>, done: seq<Node>, ideal: nat, nonideal: nat,
                  nodes: set<Node>, n: Node, b: nat)
    requires |bs| == |bs'| > 0 && b == Home(hash, |bs|, n) && bs' == bs[b := bs'[b]]
    requires Measured(bs, |done|, ideal, nonideal)
    requires bs'[b].count == bs[b].count + 1
    requires bs'[b].expandMult ==
             bs[b].expandMult + if bs'[b].count > ideal && bs'[b].count > bs[b].expandMult * ideal then 1 else 0
    requires ChainsOk(bs', Dist(hash, |bs|, done)[b := [n] + Dist(hash, |bs|, done)[b]], nodes)
    ensures Moved(hash, bs', done + [n], ideal, nonideal + if bs'[b].count > ideal then 1 else 0, nodes)
  {
    assert Veil(0);
    MultNext(bs[b].expandMult, bs[b].count, ideal);
    StatsNext(bs, b, bs'[b], |done|, ideal, nonideal);
    DistNext(hash, |bs|, done, n);
  }

  ghost predicate Hashed(hash: seq<bv8> -> nat, s: seq<Node>)
    reads s`hashv
  {
    forall i :: 0 <= i < |s| ==> s[i].hashv == hash(s[i].key)
  }

  /** The elements of s from j on have not been moved: they are still linked and not in `done`. */
  ghost predicate Waiting(hash: seq<bv8> -> nat, s: seq<Node>, j: nat, done: seq<Node>, nodes: set<Node>)
    reads nodes
  {
    && j <= |s| && Distinct(s) && AllIn(s, nodes)
    && (forall i {:trigger s[i].hashv} :: 0 <= i < |s| ==> s[i].hashv == hash(s[i].key))
    && (forall i {:trigger s[i].hhNext} :: j <= i < |s| ==> s[i].hhNext == At(s, i + 1))
    && (forall i :: j <= i < |s| ==> s[i] !in done)
  }

  /** One round of the inner expansion loop. */
  method MoveNext(hash: seq<bv8> -> nat, bs: array<Bucket>, thh: Node, ideal: nat, nonideal: nat, ghost log2: nat,
                  ghost s: seq<Node>, ghost j: nat, ghost done: seq<Node>, ghost nodes: set<Node>)
    returns (next: Node?, nonideal': nat)
    requires bs.Length == Pow2(log2) && j < |s| && thh == s[j] && Waiting(hash, s, j, done, nodes)
    requires Moved(hash, bs[..], done, ideal, nonideal, nodes)
    modifies bs, nodes`hhNext, nodes`hhPrev
    ensures next == At(s, j + 1) && Waiting(hash, s, j + 1, done + [s[j]], nodes)
    ensures Moved(hash, bs[..], done + [s[j]], ideal, nonideal', nodes)
    ensures forall m: Node :: m in nodes && m !in s && m !in done ==>
            m.hhNext == old(m.hhNext) && m.hhPrev == old(m.hhPrev)
  {
    next := thh.hhNext;
    nonideal' := Rehome(hash, bs, thh, ideal, nonideal, log2, done, nodes);
  }

  /** The inner expansion loop: empties one old chain into the new buckets. */
  method MoveChain(hash: seq<bv8> -> nat, bs: array<Bucket>, h: Node?, ideal: nat, nonideal: nat,
                   ghost log2: nat, ghost s: seq<Node>, ghost done: seq<Node>, ghost nodes: set<Node>)
    returns (nonideal': nat)
    requires bs.Length == Pow2(log2) && h == At(s, 0) && Waiting(hash, s, 0, done, nodes)
    requires Moved(hash, bs[..], done, ideal, nonideal, nodes)
    modifies bs, nodes`hhNext, nodes`hhPrev
    ensures Moved(hash, bs[..], done + s, ideal, nonideal', nodes)
    ensures forall m: Node :: m in nodes && m !in s && m !in done ==>
            m.hhNext == old(m.hhNext) && m.hhPrev == old(m.hhPrev)
  {
    nonideal' := nonideal;
    var thh := h;
    ghost var j, moved := 0, done;
    while thh != null
      invariant j <= |s| && thh == At(s, j) && moved == done + s[..j]
      invariant Waiting(hash, s, j, moved, nodes) && Moved(hash, bs[..], moved, ideal, nonideal', nodes)
      invariant forall m: Node :: m in nodes && m !in s && m !in done ==>
                m.hhNext == old(m.hhNext) && m.hhPrev == old(m.hhPrev)
      decreases |s| - j
    {
      thh, nonideal' := MoveNext(hash, bs, thh, ideal, nonideal', log2, s, j, moved, nodes);
      moved, j := moved + [s[j]], j + 1;
    }
    assert s[..j] == s;
  }

  /** All elements, bucket by bucket. */
  ghost function Flat(cs: seq<seq<Node>>): seq<Node> {
    if cs == [] then [] else Flat(cs[..|cs| - 1]) + cs[|cs| - 1]
  }

  /** Chains b and later have not been touched yet. */
  ghost predicate Untouched(hash: seq<bv8> -> nat, bs: seq<Bucket>, cs: seq<seq<Node>>, b: nat, done: seq<Node>,
                            nodes: set<Node>)
    reads nodes
  {
    && b <= |cs| == |bs|
    && (forall c :: b <= c < |cs| ==> bs[c].hhHead == At(cs[c], 0))
    && (forall c :: b <= c < |cs| ==> Waiting(hash, cs[c], 0, done, nodes))
  }

  /** One round of the outer expansion loop. */
  method MoveBucket(hash: seq<bv8> -> nat, from: array<Bucket>, bs: array<Bucket>, i: nat, ideal: nat, nonideal: nat,
                    ghost log2: nat, ghost cs: seq<seq<Node>>, ghost done: seq<Node>, ghost nodes: set<Node>)
    returns (nonideal': nat)
    requires from != bs && bs.Length == Pow2(log2) && i < |cs| && Untouched(hash, from[..], cs, i, done, nodes)
    requires forall c, k :: i < c < |cs| && 0 <= k < |cs[c]| ==> cs[c][k] !in cs[i]
    requires Moved(hash, bs[..], done, ideal, nonideal, nodes)
    modifies bs, nodes`hhNext, nodes`hhPrev
    ensures Moved(hash, bs[..], done + cs[i], ideal, nonideal', nodes)
    ensures Untouched(hash, from[..], cs, i + 1, done + cs[i], nodes)
  {
    nonideal' := MoveChain(hash, bs, from[i].hhHead, ideal, nonideal, log2, cs[i], done, nodes);
    forall c | i < c < |cs| ensures Waiting(hash, cs[c], 0, done + cs[i], nodes) {
      assert old(Waiting(hash, cs[c], 0, done, nodes));
    }
  }

  /** The outer expansion loop. */
  method Redistribute(hash: seq<bv8> -> nat, from: array<Bucket>, bs: array<Bucket>, ideal: nat,
                      ghost log2: nat, ghost cs: seq<seq<Node>>, ghost nodes: set<Node>)
    returns (nonideal: nat)
    requires from != bs && bs.Length == Pow2(log2) && Homed(hash, cs)
    requires Untouched(hash, from[..], cs, 0, [], nodes)
    requires forall b :: 0 <= b < bs.Length ==> bs[b] == EMPTY_BUCKET
    modifies bs, nodes`hhNext, nodes`hhPrev
    ensures Moved(hash, bs[..], Flat(cs), ideal, nonideal, nodes)
  {
    nonideal := 0;
    AllEmpty(hash, bs[..], ideal, nodes);
    var i := 0;
    ghost var done := [];
    assert cs[..0] == [];
    while i < from.Length
      invariant i <= |cs| && done == Flat(cs[..i])
      invariant Untouched(hash, from[..], cs, i, done, nodes)
      invariant Moved(hash, bs[..], done, ideal, nonideal, nodes)
    {
      FlatNext(hash, cs, i);
      nonideal := MoveBucket(hash, from, bs, i, ideal, nonideal, log2, cs, done, nodes);
      done := done + cs[i];
      i := i + 1;
    }
    assert cs[..i] == cs;
  }

  lemma AllEmpty(hash: seq<bv8> -> nat, bs: seq<Bucket>, ideal: nat, nodes: set<Node>)
    requires |bs| > 0 && forall b :: 0 <= b < |bs| ==> bs[b] == EMPTY_BUCKET
    ensures Moved(hash, bs, [], ideal, 0, nodes)
  {
    ExcessZeros(Counts(bs), ideal);
    ExcessZeros(Counts(bs), 0);
    assert ChainsOk(bs, Dist(hash, |bs|, []), nodes) && Stats(bs, 0, ideal, 0);
  }

  lemma FlatNext(hash: seq<bv8> -> nat, cs: seq<seq<Node>>, b: nat)
    requires b < |cs| && Homed(hash, cs)
    ensures Flat(cs[..b + 1]) == Flat(cs[..b]) + cs[b]
    ensures forall c, i :: b < c < |cs| && 0 <= i < |cs[c]| ==> cs[c][i] !in cs[b]
  {
    assert cs[..b + 1][..b] == cs[..b];
    forall c, i | b < c < |cs| && 0 <= i < |cs[c]|
      ensures cs[c][i] !in cs[b]
    {
      assert Home(hash, |cs|, cs[c][i]) == c;
    }
  }
}
