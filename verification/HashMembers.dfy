/** The bucket chains and the application order list of a hash table hold the same elements. */
module HashMembers {
  import opened IntrusiveSort
  import opened HashMath
  import opened HashChains
  import opened AppOrderList

  ghost function Elems(order: seq<Node>): set<Node> {
    set n | n in order
  }

  ghost predicate SameMembers(hash: seq<bv8> -> nat, cs: seq<seq<Node>>, order: seq<Node>) {
    && |cs| > 0
    && (forall i :: 0 <= i < |order| ==> order[i] in cs[Home(hash, |cs|, order[i])])
    && (forall b, i :: 0 <= b < |cs| && 0 <= i < |cs[b]| ==> cs[b][i] in order)
  }

  /** order with n inserted somewhere. */
  ghost predicate Extends(order': seq<Node>, order: seq<Node>, n: Node) {
    && (forall i :: 0 <= i < |order'| ==> order'[i] == n || order'[i] in order)
    && (forall i :: 0 <= i < |order| ==> order[i] in order')
    && n in order'
  }

  lemma InsertedExtends(order: seq<Node>, k: nat, n: Node)
    requires k <= |order|
    ensures Extends(Inserted(order, k, n), order, n)
  {
    var t := Inserted(order, k, n);
    assert t[k] == n;
    forall i | 0 <= i < |order| ensures order[i] in t {
      assert t[if i < k then i else i + 1] == order[i];
    }
  }

  lemma MembersAdd(hash: seq<bv8> -> nat, cs: seq<seq<Node>>, order: seq<Node>, order': seq<Node>, n: Node)
    requires SameMembers(hash, cs, order) && Extends(order', order, n)
    ensures var h := Home(hash, |cs|, n);
            SameMembers(hash, cs[h := [n] + cs[h]], order') && (Homed(hash, cs) ==> Homed(hash, cs[h := [n] + cs[h]]))
  {
    var h := Home(hash, |cs|, n);
    var cs' := cs[h := [n] + cs[h]];
    forall i | 0 <= i < |order'| ensures order'[i] in cs'[Home(hash, |cs|, order'[i])] {
      var x := order'[i];
      assert x == n || x in cs[Home(hash, |cs|, x)];
    }
  }

  lemma MembersDel(hash: seq<bv8> -> nat, cs: seq<seq<Node>>, order: seq<Node>, k: nat, h: nat, j: nat)
    requires SameMembers(hash, cs, order) && Homed(hash, cs) && Distinct(order)
    requires k < |order| && h == Home(hash, |cs|, order[k]) && j < |cs[h]| && cs[h][j] == order[k] && Distinct(cs[h])
    ensures SameMembers(hash, cs[h := Without(cs[h], j)], Without(order, k)) && Homed(hash, cs[h := Without(cs[h], j)])
  {
    var n, order', cs' := order[k], Without(order, k), cs[h := Without(cs[h], j)];
    RemovesOne(order, k);
    RemovesOne(cs[h], j);
    forall i | 0 <= i < |order'| ensures order'[i] in cs'[Home(hash, |cs|, order'[i])] {
      var x := order'[i];
      assert x in order && x != n;
      assert x in cs[Home(hash, |cs|, x)];
    }
    forall b, i | 0 <= b < |cs'| && 0 <= i < |cs'[b]| ensures cs'[b][i] in order' && Home(hash, |cs|, cs'[b][i]) == b {
      var x := cs'[b][i];
      if b == h {
        assert x in cs[h] && x != n;
      } else {
        assert Home(hash, |cs|, cs[b][i]) == b;
      }
      assert x in order;
    }
  }

  lemma RemovesOne(s: seq<Node>, k: nat)
    requires Distinct(s) && k < |s|
    ensures forall i :: 0 <= i < |Without(s, k)| ==> Without(s, k)[i] in s && Without(s, k)[i] != s[k]
    ensures forall i :: 0 <= i < |s| && s[i] != s[k] ==> s[i] in Without(s, k)
  {
    var t := Without(s, k);
    forall i | 0 <= i < |t| ensures t[i] in s && t[i] != s[k] {
      assert t[i] == s[if i < k then i else i + 1];
    }
    forall i | 0 <= i < |s| && s[i] != s[k] ensures s[i] in t {
      assert t[if i < k then i else i - 1] == s[i];
    }
  }

  lemma {:induction false} InFlat(cs: seq<seq<Node>>, b: nat, i: nat)
    requires b < |cs| && i < |cs[b]|
    ensures cs[b][i] in Flat(cs)
    decreases |cs|
  {
    if b < |cs| - 1 { InFlat(cs[..|cs| - 1], b, i); }
  }

  lemma {:induction false} FlatWithin(cs: seq<seq<Node>>, order: seq<Node>)
    requires forall b, i :: 0 <= b < |cs| && 0 <= i < |cs[b]| ==> cs[b][i] in order
    ensures forall j :: 0 <= j < |Flat(cs)| ==> Flat(cs)[j] in order
    decreases |cs|
  {
    if cs != [] {
      var front, last := cs[..|cs| - 1], cs[|cs| - 1];
      assert forall b :: 0 <= b < |front| ==> front[b] == cs[b];
      FlatWithin(front, order);
      forall j | 0 <= j < |Flat(cs)| ensures Flat(cs)[j] in order {
        var f := Flat(front);
        assert Flat(cs)[j] == if j < |f| then f[j] else last[j - |f|];
        assert j >= |f| ==> cs[|cs| - 1][j - |f|] in order;
      }
    }
  }

  /** Redistribution over any number of buckets keeps the membership. */
  lemma MembersDist(hash: seq<bv8> -> nat, cs: seq<seq<Node>>, order: seq<Node>, m: nat)
    requires SameMembers(hash, cs, order) && m > 0
    ensures SameMembers(hash, Dist(hash, m, Flat(cs)), order) && Homed(hash, Dist(hash, m, Flat(cs)))
  {
    var done := Flat(cs);
    var cs' := Dist(hash, m, done);
    DistHomed(hash, m, done);
    FlatWithin(cs, order);
    forall i | 0 <= i < |order| ensures order[i] in cs'[Home(hash, m, order[i])] {
      var c := cs[Home(hash, |cs|, order[i])];
      var j :| 0 <= j < |c| && c[j] == order[i];
      InFlat(cs, Home(hash, |cs|, order[i]), j);
      var k :| 0 <= k < |done| && done[k] == order[i];
      assert Collects(hash, m, done, Home(hash, m, order[i]), cs'[Home(hash, m, order[i])]);
    }
    forall b, i | 0 <= b < m && 0 <= i < |cs'[b]| ensures cs'[b][i] in order {
      assert Collects(hash, m, done, b, cs'[b]);
      assert cs'[b][i] in done;
      var k :| 0 <= k < |done| && done[k] == cs'[b][i];
    }
  }

  lemma {:induction false} FlatLength(bs: seq<Bucket>, cs: seq<seq<Node>>)
    requires |bs| == |cs| && forall b :: 0 <= b < |cs| ==> bs[b].count == |cs[b]|
    ensures |Flat(cs)| == Excess(Counts(bs), 0)
    decreases |cs|
  {
    if cs != [] {
      var n := |cs| - 1;
      FlatLength(bs[..n], cs[..n]);
      assert Counts(bs) == Counts(bs[..n]) + [bs[n].count];
      ExcessSnoc(Counts(bs[..n]), bs[n].count, 0);
    }
  }
}
