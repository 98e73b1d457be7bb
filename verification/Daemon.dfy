/** The bookkeeping of PoclDaemon::readAllClientSocketsThread (pocld/daemon.cc): dead connections
    are removed from two parallel vectors by swapping with the last entry. */
module Daemon {
  import opened Counting

  /** Connections with the requests being read from them. */
  ghost function Pairs(conns: seq<nat>, reqs: seq<nat>): seq<(nat, nat)>
    requires |conns| == |reqs|
  {
    seq(|conns|, i requires 0 <= i < |conns| => (conns[i], reqs[i]))
  }

  /** The connections that are to be removed. */
  ghost function Hit(conns: seq<nat>, dropped: seq<nat>): set<nat> {
    set c | c in conns && c in dropped
  }

  /** Entry i exchanged with the last one, which is then popped. */
  function SwappedOut(s: seq<nat>, i: nat): seq<nat>
    requires i < |s|
  {
    s[i := s[|s| - 1]][..|s| - 1]
  }

  lemma SwapOut<T>(ps: seq<T>, i: nat, k: nat)
    requires i <= k == |ps| - 1
    ensures multiset(ps[i := ps[k]][..k]) + multiset{ps[i]} == multiset(ps)
  {
    var qs := ps[i := ps[k]][..k];
    if i == k {
      assert ps == qs + [ps[k]];
    } else {
      assert ps == ps[..i] + [ps[i]] + ps[i + 1..k] + [ps[k]];
      assert qs == ps[..i] + [ps[k]] + ps[i + 1..k];
    }
  }

  lemma SwapOutPairs(conns: seq<nat>, reqs: seq<nat>, i: nat)
    requires i < |conns| == |reqs|
    ensures multiset(Pairs(SwappedOut(conns, i), SwappedOut(reqs, i))) + multiset{(conns[i], reqs[i])} ==
            multiset(Pairs(conns, reqs))
  {
    var ps, k := Pairs(conns, reqs), |conns| - 1;
    assert Pairs(SwappedOut(conns, i), SwappedOut(reqs, i)) == ps[i := ps[k]][..k];
    SwapOut(ps, i, k);
  }

  lemma SwapOutHits(conns: seq<nat>, dropped: seq<nat>, i: nat)
    requires i < |conns| && NoDup(conns) && conns[i] in dropped
    ensures NoDup(SwappedOut(conns, i)) && Hit(SwappedOut(conns, i), dropped) == Hit(conns, dropped) - {conns[i]}
  {
    var t, k := SwappedOut(conns, i), |conns| - 1;
    assert forall j :: 0 <= j < k ==> t[j] == if j == i then conns[k] else conns[j];
    forall c | c in conns && c != conns[i] ensures c in t {
      var j :| 0 <= j < |conns| && conns[j] == c;
      assert t[if j == k then i else j] == c;
    }
  }

  /** Entry i of the one pair of vectors is somewhere in the other, connection and request together. */
  ghost predicate Kept(conns: seq<nat>, reqs: seq<nat>, i: nat, conns': seq<nat>, reqs': seq<nat>)
    requires i < |conns| == |reqs| && |conns'| == |reqs'|
  {
    exists j :: 0 <= j < |conns'| && conns'[j] == conns[i] && reqs'[j] == reqs[i]
  }

  lemma PairKept(conns: seq<nat>, reqs: seq<nat>, i: nat, conns': seq<nat>, reqs': seq<nat>)
    requires i < |conns| == |reqs| && |conns'| == |reqs'|
    requires var x := (conns[i], reqs[i]); multiset(Pairs(conns', reqs'))[x] == multiset(Pairs(conns, reqs))[x]
    ensures Kept(conns, reqs, i, conns', reqs')
  {
    var x := (conns[i], reqs[i]);
    assert Pairs(conns, reqs)[i] == x && x in multiset(Pairs(conns, reqs));
    assert x in Pairs(conns', reqs');
    var j :| 0 <= j < |conns'| && Pairs(conns', reqs')[j] == x;
    assert conns'[j] == conns[i];
  }

  lemma AllKept(conns: seq<nat>, reqs: seq<nat>, conns': seq<nat>, reqs': seq<nat>, dropped: seq<nat>)
    requires |conns| == |reqs| && |conns'| == |reqs'|
    requires forall x: (nat, nat) :: x.0 !in dropped ==>
             multiset(Pairs(conns', reqs'))[x] == multiset(Pairs(conns, reqs))[x]
    ensures forall i :: 0 <= i < |conns| && conns[i] !in dropped ==> Kept(conns, reqs, i, conns', reqs')
  {
    forall i | 0 <= i < |conns| && conns[i] !in dropped ensures Kept(conns, reqs, i, conns', reqs') {
      PairKept(conns, reqs, i, conns', reqs');
    }
  }

  /** Exactly the dropped connections go, each with its own request; the listening sockets at the
      front stay where they are. */
  method Reap(conns: seq<nat>, reqs: seq<nat>, dropped: seq<nat>, ghost listeners: nat)
    returns (conns': seq<nat>, reqs': seq<nat>)
    requires |conns| == |reqs| && NoDup(conns)
    requires listeners <= |conns| && forall j :: 0 <= j < listeners ==> conns[j] !in dropped
    ensures |conns'| == |reqs'| && NoDup(conns')
    ensures forall j :: 0 <= j < |conns'| ==> conns'[j] !in dropped
    ensures forall x: (nat, nat) :: x.0 !in dropped ==>
            multiset(Pairs(conns', reqs'))[x] == multiset(Pairs(conns, reqs))[x]
    ensures forall i :: 0 <= i < |conns| && conns[i] !in dropped ==> Kept(conns, reqs, i, conns', reqs')
    ensures forall j :: 0 <= j < |conns'| ==> Kept(conns', reqs', j, conns, reqs)
    ensures listeners <= |conns'| && conns'[..listeners] == conns[..listeners]
    ensures reqs'[..listeners] == reqs[..listeners]
  {
    conns', reqs' := conns, reqs;
    var i, toReap := 0, |dropped|;
    ElementsCount(dropped);
    SubsetCount(Hit(conns, dropped), Elements(dropped));
    while i < |conns'| && toReap != 0
      invariant i <= |conns'| == |reqs'| && NoDup(conns') && |Hit(conns', dropped)| <= toReap
      invariant forall j :: 0 <= j < i ==> conns'[j] !in dropped
      invariant forall x: (nat, nat) :: x.0 !in dropped ==>
                multiset(Pairs(conns', reqs'))[x] == multiset(Pairs(conns, reqs))[x]
      invariant listeners <= |conns'| && conns'[..listeners] == conns[..listeners]
      invariant reqs'[..listeners] == reqs[..listeners]
      decreases |conns'| - i
    {
      if conns'[i] in dropped {
        assert i >= listeners;
        SwapOutPairs(conns', reqs', i);
        SwapOutHits(conns', dropped, i);
        conns', reqs' := SwappedOut(conns', i), SwappedOut(reqs', i);
        toReap := toReap - 1;
      } else {
        i := i + 1;
      }
    }
    assert forall j :: 0 <= j < |conns'| && conns'[j] in dropped ==> conns'[j] in Hit(conns', dropped);
    AllKept(conns, reqs, conns', reqs', dropped);
    AllKept(conns', reqs', conns, reqs, dropped);
  }
}
