/** Whole runs on a hash table of include/uthash.h, used the way its documentation has it: an
    element is added if its key is not there, or replaces the one that has it, and is deleted once it
    has been found. */
module HashRuns {
  import StableMerge
  import opened IntrusiveSort
  import opened HashChains
  import opened AppOrderList
  import opened HashMembers
  import opened HashIndex
  import opened Uthash

  /** `oom` says whether memory runs out should the table have to grow. */
  datatype Op = Add(n: Node, oom: bool)
              | AddInorder(cmp: (Node, Node) -> int, n: Node, oom: bool)
              | Replace(n: Node, oom: bool)
              | Delete(key: seq<bv8>)
              | Sort(cmp: (Node, Node) -> int)

  predicate MayFail(op: Op) {
    Adds(op) && op.oom
  }

  predicate Adds(op: Op) {
    op.Add? || op.AddInorder? || op.Replace?
  }

  ghost predicate HasKey(order: seq<Node>, key: seq<bv8>) {
    exists i :: 0 <= i < |order| && order[i].key == key
  }

  /** Where an element goes that is added in front of the first greater one. */
  ghost function PlaceOf(cmp: (Node, Node) -> int, order: seq<Node>, add: Node): (k: nat)
    ensures Place(cmp, order, add, k)
  {
    if order == [] || cmp(order[0], add) > 0 then 0 else 1 + PlaceOf(cmp, order[1..], add)
  }

  ghost function WithoutKey(order: seq<Node>, key: seq<bv8>): seq<Node> {
    if order == [] then []
    else if order[0].key == key then order[1..]
    else [order[0]] + WithoutKey(order[1..], key)
  }

  /** What an operation does to the elements in application order, `oomed` being its outcome. */
  ghost function Effect(order: seq<Node>, op: Op, oomed: bool): seq<Node> {
    match op
    case Add(n, _) => if HasKey(order, n.key) || oomed then order else order + [n]
    case AddInorder(cmp, n, _) =>
      if HasKey(order, n.key) || oomed then order else Inserted(order, PlaceOf(cmp, order, n), n)
    case Replace(n, _) => WithoutKey(order, n.key) + if oomed then [] else [n]
    case Delete(key) => WithoutKey(order, key)
    case Sort(cmp) => StableMerge.Sort(cmp, order)
  }

  ghost function Effects(order: seq<Node>, ops: seq<Op>, oomed: seq<bool>): seq<Node>
    requires |ops| == |oomed|
  {
    if ops == [] then order
    else Effect(Effects(order, ops[..|ops| - 1], oomed[..|ops| - 1]), ops[|ops| - 1], oomed[|ops| - 1])
  }

  /** The table is intact, its elements are among `nodes`, and no two share a key. */
  ghost predicate Good(t: HashTable, nodes: set<Node>)
    reads t, t.buckets, t.bloomBv, nodes
  {
    Elems(t.order) <= nodes && t.Valid() && KeysUnique(t.order)
  }

  lemma AddedUnique(order: seq<Node>, k: nat, n: Node)
    requires KeysUnique(order) && k <= |order| && !HasKey(order, n.key)
    ensures KeysUnique(Inserted(order, k, n)) && n !in order && Inserted(order, |order|, n) == order + [n]
  {
    var s := Inserted(order, k, n);
    assert forall i :: 0 <= i < |s| ==> s[i] == if i < k then order[i] else if i == k then n else order[i - 1];
  }

  lemma AddedWithin(order: seq<Node>, k: nat, n: Node, nodes: set<Node>)
    requires Elems(order) <= nodes && n in nodes && k <= |order|
    ensures Elems(Inserted(order, k, n)) <= nodes
  {
    InsertedExtends(order, k, n);
  }

  lemma PlaceUnique(cmp: (Node, Node) -> int, order: seq<Node>, add: Node, j: nat, k: nat)
    requires Place(cmp, order, add, j) && Place(cmp, order, add, k)
    ensures j == k
  {
  }

  method AddStep(t: HashTable, n: Node, oom: bool, ghost nodes: set<Node>) returns (oomed: bool)
    requires Good(t, nodes) && n in nodes
    modifies t, t.buckets, t.bloomBv, nodes
    ensures Good(t, nodes) && t.order == Effect(old(t.order), Add(n, oom), oomed) && (oomed ==> oom)
    ensures (t.buckets == old(t.buckets) || fresh(t.buckets)) && (t.bloomBv == old(t.bloomBv) || fresh(t.bloomBv))
  {
    var out, _ := t.Find(n.key);
    oomed := false;
    if out == null {
      AddedUnique(t.order, |t.order|, n);
      AddedWithin(t.order, |t.order|, n, nodes);
      ghost var b;
      oomed, b := t.Add(n, oom);
    } else {
      assert HasKey(t.order, n.key);
    }
  }

  method AddInorderStep(t: HashTable, cmp: (Node, Node) -> int, n: Node, oom: bool, ghost nodes: set<Node>)
    returns (oomed: bool)
    requires Good(t, nodes) && n in nodes
    modifies t, t.buckets, t.bloomBv, nodes
    ensures Good(t, nodes) && t.order == Effect(old(t.order), AddInorder(cmp, n, oom), oomed) && (oomed ==> oom)
    ensures (t.buckets == old(t.buckets) || fresh(t.buckets)) && (t.bloomBv == old(t.bloomBv) || fresh(t.bloomBv))
  {
    var out, _ := t.Find(n.key);
    oomed := false;
    if out == null {
      ghost var order0, place := t.order, PlaceOf(cmp, t.order, n);
      AddedUnique(order0, place, n);
      AddedWithin(order0, place, n, nodes);
      ghost var b, k;
      oomed, b, k := t.AddInorder(cmp, n, oom);
      PlaceUnique(cmp, order0, n, place, k);
    } else {
      assert HasKey(t.order, n.key);
    }
  }

  /** The element with the key is the one that goes. */
  lemma {:induction false} WithoutKeyAt(order: seq<Node>, key: seq<bv8>, k: nat)
    requires KeysUnique(order) && k < |order| && order[k].key == key
    ensures WithoutKey(order, key) == Without(order, k)
  {
    if order[0].key == key {
      assert k == 0;
      assert Without(order, 0) == order[1..];
    } else {
      WithoutKeyAt(order[1..], key, k - 1);
      assert Without(order, k) == [order[0]] + Without(order[1..], k - 1);
    }
  }

  lemma {:induction false} WithoutMissing(order: seq<Node>, key: seq<bv8>)
    requires forall n: Node :: n in order ==> n.key != key
    ensures WithoutKey(order, key) == order
  {
    if order != [] { WithoutMissing(order[1..], key); }
  }

  lemma LessIsGood(order: seq<Node>, k: nat, nodes: set<Node>)
    requires KeysUnique(order) && Elems(order) <= nodes && k < |order|
    ensures KeysUnique(Without(order, k)) && Elems(Without(order, k)) <= nodes
  {
    var s := Without(order, k);
    assert forall i :: 0 <= i < |s| ==> s[i] == order[if i < k then i else i + 1];
  }

  lemma OnlyOneHas(order: seq<Node>, n: Node)
    requires KeysUnique(order)
    ensures n in order ==> forall m: Node :: m in order && m.key == n.key ==> m == n
  {
  }

  lemma NoneReplaced(order: seq<Node>, n: Node, nodes: set<Node>)
    requires KeysUnique(order) && Elems(order) <= nodes && n in nodes && NoneHas(order, n.key)
    ensures WithoutKey(order, n.key) == order == order + []
    ensures KeysUnique(order + [n]) && Elems(order + [n]) <= nodes
  {
    WithoutMissing(order, n.key);
    AddedUnique(order, |order|, n);
    AddedWithin(order, |order|, n, nodes);
  }

  lemma OneReplaced(order: seq<Node>, k: nat, n: Node, nodes: set<Node>)
    requires KeysUnique(order) && Elems(order) <= nodes && n in nodes && k < |order| && order[k].key == n.key
    ensures WithoutKey(order, n.key) == Without(order, k) == Without(order, k) + []
    ensures KeysUnique(Without(order, k)) && Elems(Without(order, k)) <= nodes
    ensures KeysUnique(Without(order, k) + [n]) && Elems(Without(order, k) + [n]) <= nodes
  {
    WithoutKeyAt(order, n.key, k);
    LessIsGood(order, k, nodes);
    ReplacedUnique(order, k, n);
    LastWithin(Without(order, k), n, nodes);
  }

  lemma LastWithin(order: seq<Node>, n: Node, nodes: set<Node>)
    requires Elems(order) <= nodes && n in nodes
    ensures Elems(order + [n]) <= nodes
  {
    AddedWithin(order, |order|, n, nodes);
    assert Inserted(order, |order|, n) == order + [n];
  }

  method ReplaceStep(t: HashTable, n: Node, oom: bool, ghost nodes: set<Node>) returns (oomed: bool)
    requires Good(t, nodes) && n in nodes
    modifies t, t.buckets, t.bloomBv, nodes
    ensures Good(t, nodes) && t.order == Effect(old(t.order), Replace(n, oom), oomed) && (oomed ==> oom)
    ensures (t.buckets == old(t.buckets) || fresh(t.buckets)) && (t.bloomBv == old(t.bloomBv) || fresh(t.bloomBv))
  {
    ghost var order0 := t.order;
    OnlyOneHas(order0, n);
    var replaced;
    replaced, oomed := t.Replace(n, oom);
    if replaced == null {
      NoneReplaced(order0, n, nodes);
    } else {
      ghost var k :| 0 <= k < |order0| && order0[k] == replaced
                     && t.order == Without(order0, k) + (if oomed then [] else [n]);
      OneReplaced(order0, k, n, nodes);
    }
  }

  method DeleteStep(t: HashTable, key: seq<bv8>, ghost nodes: set<Node>)
    requires Good(t, nodes)
    modifies t, t.buckets, nodes
    ensures Good(t, nodes) && t.order == Effect(old(t.order), Delete(key), false)
    ensures t.buckets == old(t.buckets) && t.bloomBv == old(t.bloomBv)
  {
    var out, _ := t.Find(key);
    if out != null {
      ghost var k :| 0 <= k < |t.order| && t.order[k] == out;
      WithoutKeyAt(t.order, key, k);
      LessIsGood(t.order, k, nodes);
      ghost var j := t.Delete(out, k);
    } else {
      WithoutMissing(t.order, key);
    }
  }

  lemma SortedGood(cmp: (Node, Node) -> int, order: seq<Node>, nodes: set<Node>)
    requires KeysUnique(order) && Distinct(order) && Elems(order) <= nodes
    ensures KeysUnique(StableMerge.Sort(cmp, order)) && Elems(StableMerge.Sort(cmp, order)) <= nodes
  {
    var s := StableMerge.Sort(cmp, order);
    StableMerge.SortPermutes(cmp, order);
    SameElements(order, s);
    forall i, j | 0 <= i < j < |s| ensures s[i].key != s[j].key {
      assert s[i] in Elems(s) && s[j] in Elems(s);
      var a :| 0 <= a < |order| && order[a] == s[i];
      var b :| 0 <= b < |order| && order[b] == s[j];
      OnceInPermutation(order, s, i, j);
    }
  }

  /** A permutation of different elements repeats none. */
  lemma OnceInPermutation(order: seq<Node>, s: seq<Node>, i: nat, j: nat)
    requires Distinct(order) && multiset(order) == multiset(s) && i < j < |s|
    ensures s[i] != s[j]
  {
    OnceAtMost(order, s[i]);
    assert s == s[..i] + [s[i]] + s[i + 1..j] + [s[j]] + s[j + 1..];
  }

  lemma {:induction false} OnceAtMost(order: seq<Node>, n: Node)
    requires Distinct(order)
    ensures multiset(order)[n] <= 1
  {
    if order != [] {
      assert order == [order[0]] + order[1..];
      OnceAtMost(order[1..], n);
    }
  }

  method SortStep(t: HashTable, cmp: (Node, Node) -> int, ghost nodes: set<Node>)
    requires Good(t, nodes)
    modifies t, nodes
    ensures Good(t, nodes) && t.order == Effect(old(t.order), Sort(cmp), false)
    ensures t.buckets == old(t.buckets) && t.bloomBv == old(t.bloomBv)
  {
    SortedGood(cmp, t.order, nodes);
    t.Sort(cmp);
  }

  /** Every run of operations, whatever allocations fail, keeps the whole invariant and does to the
      elements what the operations say. */
  method Run(t: HashTable, ops: seq<Op>, ghost nodes: set<Node>) returns (oomed: seq<bool>)
    requires Good(t, nodes) && forall i :: 0 <= i < |ops| && Adds(ops[i]) ==> ops[i].n in nodes
    modifies t, t.buckets, t.bloomBv, nodes
    ensures Good(t, nodes) && |oomed| == |ops| && t.order == Effects(old(t.order), ops, oomed)
    ensures forall i :: 0 <= i < |ops| && oomed[i] ==> MayFail(ops[i])
  {
    oomed := [];
    ghost var order0 := t.order;
    for i := 0 to |ops|
      invariant Good(t, nodes) && |oomed| == i && t.order == Effects(order0, ops[..i], oomed)
      invariant forall j :: 0 <= j < i && oomed[j] ==> MayFail(ops[j])
      invariant (t.buckets == old(t.buckets) || fresh(t.buckets)) && (t.bloomBv == old(t.bloomBv) || fresh(t.bloomBv))
    {
      var failed := Perform(t, ops[i], nodes);
      assert ops[..i + 1][..i] == ops[..i] && (oomed + [failed])[..i] == oomed;
      oomed := oomed + [failed];
    }
    assert ops[..|ops|] == ops;
  }

  method Perform(t: HashTable, op: Op, ghost nodes: set<Node>) returns (oomed: bool)
    requires Good(t, nodes) && (Adds(op) ==> op.n in nodes)
    modifies t, t.buckets, t.bloomBv, nodes
    ensures Good(t, nodes) && t.order == Effect(old(t.order), op, oomed) && (oomed ==> MayFail(op))
    ensures (t.buckets == old(t.buckets) || fresh(t.buckets)) && (t.bloomBv == old(t.bloomBv) || fresh(t.bloomBv))
  {
    oomed := false;
    match op {
      case Add(n, oom) => oomed := AddStep(t, n, oom, nodes);
      case AddInorder(cmp, n, oom) => oomed := AddInorderStep(t, cmp, n, oom, nodes);
      case Replace(n, oom) => oomed := ReplaceStep(t, n, oom, nodes);
      case Delete(key) => DeleteStep(t, key, nodes);
      case Sort(cmp) => SortStep(t, cmp, nodes);
    }
  }

  // ---------------------------------------------------------------- the table as a dictionary

  /** The elements, by key. */
  ghost predicate Holds(order: seq<Node>, m: map<seq<bv8>, Node>) {
    && (forall key :: key in m ==> m[key].key == key && m[key] in order)
    && (forall i :: 0 <= i < |order| ==> order[i].key in m && m[order[i].key] == order[i])
  }

  /** What an operation does to a dictionary. */
  ghost function DictEffect(m: map<seq<bv8>, Node>, op: Op, oomed: bool): map<seq<bv8>, Node> {
    match op
    case Add(n, _) => if n.key in m || oomed then m else m[n.key := n]
    case AddInorder(_, n, _) => if n.key in m || oomed then m else m[n.key := n]
    case Replace(n, _) => if oomed then m - {n.key} else m[n.key := n]
    case Delete(key) => m - {key}
    case Sort(_) => m
  }

  ghost function DictEffects(m: map<seq<bv8>, Node>, ops: seq<Op>, oomed: seq<bool>): map<seq<bv8>, Node>
    requires |ops| == |oomed|
  {
    if ops == [] then m
    else DictEffect(DictEffects(m, ops[..|ops| - 1], oomed[..|ops| - 1]), ops[|ops| - 1], oomed[|ops| - 1])
  }

  /** Whatever the order is for, a run does to the elements what it does to a dictionary. */
  lemma {:induction false} RunIsDictionary(order: seq<Node>, m: map<seq<bv8>, Node>, ops: seq<Op>, oomed: seq<bool>)
    requires |ops| == |oomed| && Holds(order, m) && KeysUnique(order)
    ensures Holds(Effects(order, ops, oomed), DictEffects(m, ops, oomed)) && KeysUnique(Effects(order, ops, oomed))
    decreases |ops|
  {
    if ops != [] {
      var n := |ops| - 1;
      RunIsDictionary(order, m, ops[..n], oomed[..n]);
      StepIsDictionary(Effects(order, ops[..n], oomed[..n]), DictEffects(m, ops[..n], oomed[..n]), ops[n], oomed[n]);
    }
  }

  lemma StepIsDictionary(order: seq<Node>, m: map<seq<bv8>, Node>, op: Op, oomed: bool)
    requires Holds(order, m) && KeysUnique(order)
    ensures Holds(Effect(order, op, oomed), DictEffect(m, op, oomed)) && KeysUnique(Effect(order, op, oomed))
  {
    match op
    case Add(n, _) =>
      SameKeys(order, m, n.key);
      if n.key !in m && !oomed { Comes(order, m, |order|, n); }
    case AddInorder(cmp, n, _) =>
      SameKeys(order, m, n.key);
      if n.key !in m && !oomed { Comes(order, m, PlaceOf(cmp, order, n), n); }
    case Replace(n, _) =>
      Goes(order, m, n.key);
      var rest := WithoutKey(order, n.key);
      assert rest + [] == rest;
      if !oomed {
        SameKeys(rest, m - {n.key}, n.key);
        Comes(rest, m - {n.key}, |rest|, n);
        assert (m - {n.key})[n.key := n] == m[n.key := n];
      }
    case Delete(key) => Goes(order, m, key);
    case Sort(cmp) =>
      SortedGood(cmp, order, Elems(order));
      StableMerge.SortPermutes(cmp, order);
      SameElements(order, StableMerge.Sort(cmp, order));
      Permuted(order, StableMerge.Sort(cmp, order), m);
  }

  lemma SameKeys(order: seq<Node>, m: map<seq<bv8>, Node>, key: seq<bv8>)
    requires Holds(order, m)
    ensures HasKey(order, key) <==> key in m
  {
    if key in m {
      var i :| 0 <= i < |order| && order[i] == m[key];
    }
  }

  lemma Comes(order: seq<Node>, m: map<seq<bv8>, Node>, k: nat, n: Node)
    requires Holds(order, m) && KeysUnique(order) && k <= |order| && n.key !in m
    ensures Holds(Inserted(order, k, n), m[n.key := n]) && KeysUnique(Inserted(order, k, n))
    ensures Inserted(order, |order|, n) == order + [n]
  {
    SameKeys(order, m, n.key);
    AddedUnique(order, k, n);
    var s := Inserted(order, k, n);
    assert forall i :: 0 <= i < |s| ==> s[i] == if i < k then order[i] else if i == k then n else order[i - 1];
    var m' := m[n.key := n];
    forall key | key in m' ensures m'[key] in s {
      if key == n.key {
        assert s[k] == n;
      } else {
        var i :| 0 <= i < |order| && order[i] == m[key];
        assert s[if i < k then i else i + 1] == m[key];
      }
    }
  }

  lemma Goes(order: seq<Node>, m: map<seq<bv8>, Node>, key: seq<bv8>)
    requires Holds(order, m) && KeysUnique(order)
    ensures Holds(WithoutKey(order, key), m - {key}) && KeysUnique(WithoutKey(order, key))
  {
    SameKeys(order, m, key);
    if key in m {
      var k :| 0 <= k < |order| && order[k].key == key;
      WithoutKeyAt(order, key, k);
      LessIsGood(order, k, Elems(order));
      OneGoes(order, m, k);
    } else {
      WithoutMissing(order, key);
      assert m - {key} == m;
    }
  }

  lemma OneGoes(order: seq<Node>, m: map<seq<bv8>, Node>, k: nat)
    requires Holds(order, m) && KeysUnique(order) && k < |order|
    ensures Holds(Without(order, k), m - {order[k].key})
  {
    var s, m' := Without(order, k), m - {order[k].key};
    assert forall i :: 0 <= i < |s| ==> s[i] == order[if i < k then i else i + 1];
    forall i | 0 <= i < |s| ensures s[i].key in m' && m'[s[i].key] == s[i] {
      var j := if i < k then i else i + 1;
      assert s[i] == order[j] && order[j].key != order[k].key;
    }
    forall key | key in m' ensures m'[key] in s {
      var i :| 0 <= i < |order| && order[i] == m[key];
      assert s[if i < k then i else i - 1] == m[key];
    }
  }

  lemma Permuted(order: seq<Node>, s: seq<Node>, m: map<seq<bv8>, Node>)
    requires Holds(order, m) && Elems(order) == Elems(s)
    ensures Holds(s, m)
  {
    forall i | 0 <= i < |s| ensures s[i].key in m && m[s[i].key] == s[i] {
      assert s[i] in Elems(s);
      var j :| 0 <= j < |order| && order[j] == s[i];
    }
    assert forall n: Node :: n in order ==> n in Elems(order);
  }
}
