/** HASH_FSCK of include/uthash.h, the self-check of a table. It follows the forward links, so it
    is described for tables whose forward links lead to the end of every list; it finds every fault
    in the backward links and in the counts. */
module HashCheck {
  import opened IntrusiveSort
  import opened HashChains

  /** hh_next leads through s to the end. */
  ghost predicate ChainRuns(h: Node?, s: seq<Node>)
    reads s`hhNext
  {
    h == At(s, 0) && forall i {:trigger s[i].hhNext} :: 0 <= i < |s| ==> s[i].hhNext == At(s, i + 1)
  }

  ghost predicate ChainReturns(s: seq<Node>, k: nat)
    reads s`hhPrev
  {
    forall i {:trigger s[i].hhPrev} :: 0 <= i < k && i < |s| ==> s[i].hhPrev == At(s, i - 1)
  }

  method CheckChain(h: Node?, ghost s: seq<Node>) returns (ok: bool, n: nat)
    requires ChainRuns(h, s)
    ensures n == |s| && (ok <==> ChainReturns(s, |s|))
  {
    var thh, prev: Node? := h, null;
    ok, n := true, 0;
    while thh != null
      invariant n <= |s| && thh == At(s, n) && prev == At(s, n - 1)
      invariant ok <==> ChainReturns(s, n)
      decreases |s| - n
    {
      if prev != thh.hhPrev {
        assert s[n].hhPrev != At(s, n - 1);
        ok := false;
      }
      n := n + 1;
      prev := thh;
      thh := thh.hhNext;
    }
  }

  ghost predicate BucketFine(bkt: Bucket, s: seq<Node>)
    reads s`hhPrev
  {
    ChainReturns(s, |s|) && bkt.count == |s|
  }

  /** A bucket is fine when its count is the length of its chain, the first element has no predecessor and
      every other one has the element before it for that. */
  lemma FineMeans(bkt: Bucket, s: seq<Node>)
    ensures BucketFine(bkt, s) <==>
            && bkt.count == |s| && (s != [] ==> s[0].hhPrev == null)
            && forall i :: 0 < i < |s| ==> s[i].hhPrev == s[i - 1]
  {
    if bkt.count == |s| && (s != [] ==> s[0].hhPrev == null) && forall i :: 0 < i < |s| ==> s[i].hhPrev == s[i - 1] {
      forall i | 0 <= i < |s| ensures s[i].hhPrev == At(s, i - 1) {}
    }
    if BucketFine(bkt, s) {
      forall i | 0 <= i < |s| ensures s[i].hhPrev == At(s, i - 1) {}
    }
  }

  method CheckBuckets(bs: seq<Bucket>, ghost cs: seq<seq<Node>>) returns (ok: bool, total: nat)
    requires |bs| == |cs| && forall b :: 0 <= b < |cs| ==> ChainRuns(bs[b].hhHead, cs[b])
    ensures total == |Flat(cs)| && (ok <==> forall b :: 0 <= b < |cs| ==> BucketFine(bs[b], cs[b]))
  {
    ok, total := true, 0;
    for i := 0 to |bs|
      invariant total == |Flat(cs[..i])| && (ok <==> forall b :: 0 <= b < i ==> BucketFine(bs[b], cs[b]))
    {
      var fine, n := CheckChain(bs[i].hhHead, cs[i]);
      assert cs[..i + 1][..i] == cs[..i];
      total := total + n;
      if bs[i].count != n {
        fine := false;
      }
      ok := ok && fine;
    }
    assert cs[..|bs|] == cs;
  }

  ghost predicate OrderRuns(head: Node?, s: seq<Node>)
    reads s`next
  {
    head == At(s, 0) && forall i {:trigger s[i].next} :: 0 <= i < |s| ==> s[i].next == At(s, i + 1)
  }

  ghost predicate OrderReturns(s: seq<Node>, k: nat)
    reads s`prev
  {
    forall i {:trigger s[i].prev} :: 0 <= i < k && i < |s| ==> s[i].prev == At(s, i - 1)
  }

  /** The same of the order list. */
  lemma ReturnsMeans(s: seq<Node>)
    ensures OrderReturns(s, |s|) <==>
            (s != [] ==> s[0].prev == null) && forall i :: 0 < i < |s| ==> s[i].prev == s[i - 1]
  {
    if (s != [] ==> s[0].prev == null) && forall i :: 0 < i < |s| ==> s[i].prev == s[i - 1] {
      forall i | 0 <= i < |s| ensures s[i].prev == At(s, i - 1) {}
    }
    if OrderReturns(s, |s|) {
      forall i | 0 <= i < |s| ensures s[i].prev == At(s, i - 1) {}
    }
  }

  method CheckOrder(head: Node?, ghost s: seq<Node>) returns (ok: bool, n: nat)
    requires OrderRuns(head, s)
    ensures n == |s| && (ok <==> OrderReturns(s, |s|))
  {
    var thh, prev: Node? := head, null;
    ok, n := true, 0;
    while thh != null
      invariant n <= |s| && thh == At(s, n) && prev == At(s, n - 1)
      invariant ok <==> OrderReturns(s, n)
      decreases |s| - n
    {
      if prev != thh.prev {
        assert s[n].prev != At(s, n - 1);
        ok := false;
      }
      n := n + 1;
      prev := thh;
      thh := thh.next;
    }
  }
}
