/** Bottom-up merge sort on sequences: the meaning of the list sorts of include/utlist.h and
    of HASH_SRT in include/uthash.h, and why its result is the stable sort of its input. */
module StableMerge {

  function Min(a: nat, b: nat): nat { if a <= b then a else b }

  /** Takes from the left run on ties, as `cmp(p, q) <= 0` does. */
  function Merge<T>(cmp: (T, T) -> int, p: seq<T>, q: seq<T>): seq<T> {
    if p == [] then q
    else if q == [] then p
    else if cmp(p[0], q[0]) <= 0 then [p[0]] + Merge(cmp, p[1..], q)
    else [q[0]] + Merge(cmp, p, q[1..])
  }

  /** One pass: merges adjacent runs of length k pairwise. */
  function MergePass<T>(cmp: (T, T) -> int, s: seq<T>, k: nat): seq<T>
    requires k > 0
    decreases |s|
  {
    if s == [] then []
    else
      var a, b := Min(k, |s|), Min(2 * k, |s|);
      Merge(cmp, s[..a], s[a..b]) + MergePass(cmp, s[b..], k)
  }

  lemma {:induction false} MergeLength<T>(cmp: (T, T) -> int, p: seq<T>, q: seq<T>)
    ensures |Merge(cmp, p, q)| == |p| + |q|
  {
    if p == [] || q == [] {
    } else if cmp(p[0], q[0]) <= 0 {
      MergeLength(cmp, p[1..], q);
    } else {
      MergeLength(cmp, p, q[1..]);
    }
  }

  lemma {:induction false} PassLength<T>(cmp: (T, T) -> int, s: seq<T>, k: nat)
    requires k > 0
    ensures |MergePass(cmp, s, k)| == |s|
    decreases |s|
  {
    if s != [] {
      var a, b := Min(k, |s|), Min(2 * k, |s|);
      MergeLength(cmp, s[..a], s[a..b]);
      PassLength(cmp, s[b..], k);
    }
  }

  /** Passes with doubling run length, until a pass has had a single merge to do. */
  function SortFrom<T>(cmp: (T, T) -> int, s: seq<T>, k: nat): seq<T>
    requires k > 0
    decreases |s| - k
  {
    var t := MergePass(cmp, s, k);
    PassLength(cmp, s, k);
    if |s| <= 2 * k then t else SortFrom(cmp, t, 2 * k)
  }

  function Sort<T>(cmp: (T, T) -> int, s: seq<T>): seq<T> {
    if s == [] then [] else SortFrom(cmp, s, 1)
  }

  // ---------------------------------------------------------------- permutation

  lemma {:induction false} MergePermutes<T>(cmp: (T, T) -> int, p: seq<T>, q: seq<T>)
    ensures multiset(Merge(cmp, p, q)) == multiset(p) + multiset(q)
  {
    if p == [] || q == [] {
    } else if cmp(p[0], q[0]) <= 0 {
      MergePermutes(cmp, p[1..], q);
      Uncons(p);
      Cons(p[0], Merge(cmp, p[1..], q));
    } else {
      MergePermutes(cmp, p, q[1..]);
      Uncons(q);
      Cons(q[0], Merge(cmp, p, q[1..]));
    }
  }

  lemma Cons<T>(x: T, s: seq<T>)
    ensures multiset([x] + s) == multiset{x} + multiset(s)
  {
  }

  lemma Uncons<T>(s: seq<T>)
    requires s != []
    ensures multiset(s) == multiset{s[0]} + multiset(s[1..])
  {
    assert s == [s[0]] + s[1..];
  }

  lemma ThreeParts<T>(s: seq<T>, a: nat, b: nat)
    requires a <= b <= |s|
    ensures s[..a] + s[a..b] + s[b..] == s
    ensures multiset(s[..a]) + multiset(s[a..b]) + multiset(s[b..]) == multiset(s)
  {
    assert s[..a] + s[a..b] + s[b..] == s;
  }

  lemma {:induction false} PassPermutes<T>(cmp: (T, T) -> int, s: seq<T>, k: nat)
    requires k > 0
    ensures multiset(MergePass(cmp, s, k)) == multiset(s)
    decreases |s|
  {
    if s != [] {
      var a, b := Min(k, |s|), Min(2 * k, |s|);
      MergePermutes(cmp, s[..a], s[a..b]);
      PassPermutes(cmp, s[b..], k);
      ThreeParts(s, a, b);
    }
  }

  lemma {:induction false} SortFromPermutes<T>(cmp: (T, T) -> int, s: seq<T>, k: nat)
    requires k > 0
    ensures multiset(SortFrom(cmp, s, k)) == multiset(s)
    decreases |s| - k
  {
    PassPermutes(cmp, s, k);
    PassLength(cmp, s, k);
    if |s| > 2 * k { SortFromPermutes(cmp, MergePass(cmp, s, k), 2 * k); }
  }

  /** Whatever the comparison function answers, no element is lost or duplicated. */
  lemma SortPermutes<T>(cmp: (T, T) -> int, s: seq<T>)
    ensures multiset(Sort(cmp, s)) == multiset(s)
  {
    if s != [] { SortFromPermutes(cmp, s, 1); }
  }

  // ---------------------------------------------------------------- order

  predicate Le<T>(cmp: (T, T) -> int, a: T, b: T) { cmp(a, b) <= 0 }

  /** cmp orders the elements of dom: any two compare one way or the other, transitively. */
  ghost predicate Orders<T>(cmp: (T, T) -> int, dom: set<T>) {
    && (forall a, b :: a in dom && b in dom ==> Le(cmp, a, b) || Le(cmp, b, a))
    && (forall a, b, c :: a in dom && b in dom && c in dom && Le(cmp, a, b) && Le(cmp, b, c) ==> Le(cmp, a, c))
  }

  ghost predicate Within<T>(s: seq<T>, dom: set<T>) {
    forall x :: x in s ==> x in dom
  }

  ghost predicate Below<T>(cmp: (T, T) -> int, a: T, s: seq<T>) {
    forall x :: x in s ==> Le(cmp, a, x)
  }

  /** Each element compares at most equal to every later one. */
  ghost predicate Sorted<T>(cmp: (T, T) -> int, s: seq<T>) {
    s == [] || (Below(cmp, s[0], s[1..]) && Sorted(cmp, s[1..]))
  }

  lemma {:induction false} SortedPairs<T>(cmp: (T, T) -> int, s: seq<T>, i: nat, j: nat)
    requires Sorted(cmp, s) && i < j < |s|
    ensures Le(cmp, s[i], s[j])
  {
    if i == 0 {
      assert s[1..][j - 1] in s[1..];
    } else {
      SortedPairs(cmp, s[1..], i - 1, j - 1);
    }
  }

  lemma MergeMembers<T>(cmp: (T, T) -> int, p: seq<T>, q: seq<T>)
    ensures forall x :: x in Merge(cmp, p, q) <==> x in p || x in q
  {
    MergePermutes(cmp, p, q);
    forall x ensures x in Merge(cmp, p, q) <==> x in p || x in q {
      assert x in Merge(cmp, p, q) <==> x in multiset(Merge(cmp, p, q));
      assert x in p <==> x in multiset(p);
      assert x in q <==> x in multiset(q);
    }
  }

  lemma {:induction false} MergeSorts<T>(cmp: (T, T) -> int, dom: set<T>, p: seq<T>, q: seq<T>)
    requires Orders(cmp, dom) && Within(p, dom) && Within(q, dom)
    requires Sorted(cmp, p) && Sorted(cmp, q)
    ensures Sorted(cmp, Merge(cmp, p, q))
  {
    if p == [] || q == [] {
    } else if cmp(p[0], q[0]) <= 0 {
      MergeSorts(cmp, dom, p[1..], q);
      MergeMembers(cmp, p[1..], q);
      HeadBelow(cmp, dom, p[0], q);
      assert Below(cmp, p[0], Merge(cmp, p[1..], q));
      assert Merge(cmp, p, q)[1..] == Merge(cmp, p[1..], q);
    } else {
      MergeSorts(cmp, dom, p, q[1..]);
      MergeMembers(cmp, p, q[1..]);
      HeadBelow(cmp, dom, q[0], p);
      assert Below(cmp, q[0], Merge(cmp, p, q[1..]));
      assert Merge(cmp, p, q)[1..] == Merge(cmp, p, q[1..]);
    }
  }

  lemma HeadBelow<T>(cmp: (T, T) -> int, dom: set<T>, a: T, s: seq<T>)
    requires Orders(cmp, dom) && a in dom && Within(s, dom) && s != []
    requires Sorted(cmp, s) && !(Le(cmp, s[0], a) && !Le(cmp, a, s[0]))
    ensures Below(cmp, a, s)
  {
    assert Le(cmp, a, s[0]);
    forall x | x in s ensures Le(cmp, a, x) {
      if x != s[0] { assert x in s[1..]; }
    }
  }

  /** Runs of length k (the last one may be shorter) are each sorted. */
  ghost predicate RunsSorted<T>(cmp: (T, T) -> int, s: seq<T>, k: nat)
    requires k > 0
    decreases |s|
  {
    s == [] || (Sorted(cmp, s[..Min(k, |s|)]) && RunsSorted(cmp, s[Min(k, |s|)..], k))
  }

  lemma {:induction false} SinglesSorted<T>(cmp: (T, T) -> int, s: seq<T>)
    ensures RunsSorted(cmp, s, 1)
    decreases |s|
  {
    if s != [] { SinglesSorted(cmp, s[1..]); }
  }

  lemma TwoRuns<T>(cmp: (T, T) -> int, s: seq<T>, k: nat)
    requires k > 0 && s != [] && RunsSorted(cmp, s, k)
    ensures var a, b := Min(k, |s|), Min(2 * k, |s|);
            Sorted(cmp, s[..a]) && Sorted(cmp, s[a..b]) && RunsSorted(cmp, s[b..], k)
  {
    var a, b := Min(k, |s|), Min(2 * k, |s|);
    var t := s[a..];
    assert t[..Min(k, |t|)] == s[a..b] && t[Min(k, |t|)..] == s[b..];
  }

  lemma {:induction false} PassSorts<T>(cmp: (T, T) -> int, dom: set<T>, s: seq<T>, k: nat)
    requires k > 0 && Orders(cmp, dom) && Within(s, dom) && RunsSorted(cmp, s, k)
    ensures RunsSorted(cmp, MergePass(cmp, s, k), 2 * k)
    decreases |s|
  {
    if s != [] {
      var a, b := Min(k, |s|), Min(2 * k, |s|);
      TwoRuns(cmp, s, k);
      MergeSorts(cmp, dom, s[..a], s[a..b]);
      PassSorts(cmp, dom, s[b..], k);
      MergeLength(cmp, s[..a], s[a..b]);
      PassLength(cmp, s[b..], k);
      RunInFront(cmp, Merge(cmp, s[..a], s[a..b]), MergePass(cmp, s[b..], k), 2 * k);
    }
  }

  lemma RunInFront<T>(cmp: (T, T) -> int, m: seq<T>, rest: seq<T>, k: nat)
    requires 0 < |m| <= k && (|m| < k ==> rest == [])
    requires Sorted(cmp, m) && RunsSorted(cmp, rest, k)
    ensures RunsSorted(cmp, m + rest, k)
  {
    var s := m + rest;
    assert s[..Min(k, |s|)] == m && s[Min(k, |s|)..] == rest;
  }

  lemma {:induction false} SortFromSorts<T>(cmp: (T, T) -> int, dom: set<T>, s: seq<T>, k: nat)
    requires k > 0 && Orders(cmp, dom) && Within(s, dom) && RunsSorted(cmp, s, k)
    ensures Sorted(cmp, SortFrom(cmp, s, k))
    decreases |s| - k
  {
    var t := MergePass(cmp, s, k);
    PassSorts(cmp, dom, s, k);
    PassPermutes(cmp, s, k);
    PassLength(cmp, s, k);
    if |s| > 2 * k {
      assert Within(t, dom) by {
        forall x | x in t ensures x in dom { assert x in multiset(t); assert x in multiset(s); }
      }
      SortFromSorts(cmp, dom, t, 2 * k);
    } else {
      assert t[..Min(2 * k, |t|)] == t;
    }
  }

  // ---------------------------------------------------------------- stability

  predicate Ties<T>(cmp: (T, T) -> int, a: T, b: T) { Le(cmp, a, b) && Le(cmp, b, a) }

  /** The elements of s that tie with g, in the order of s. */
  ghost function TiesWith<T>(cmp: (T, T) -> int, g: T, s: seq<T>): seq<T> {
    if s == [] then []
    else (if Ties(cmp, s[0], g) then [s[0]] else []) + TiesWith(cmp, g, s[1..])
  }

  lemma {:induction false} TiesWithConcat<T>(cmp: (T, T) -> int, g: T, s: seq<T>, t: seq<T>)
    ensures TiesWith(cmp, g, s + t) == TiesWith(cmp, g, s) + TiesWith(cmp, g, t)
  {
    if s == [] {
      assert s + t == t;
    } else {
      var h := if Ties(cmp, s[0], g) then [s[0]] else [];
      assert (s + t)[1..] == s[1..] + t && (s + t)[0] == s[0];
      TiesWithConcat(cmp, g, s[1..], t);
      assert h + (TiesWith(cmp, g, s[1..]) + TiesWith(cmp, g, t)) == h + TiesWith(cmp, g, s[1..]) + TiesWith(cmp, g, t);
    }
  }

  lemma TiesWithParts<T>(cmp: (T, T) -> int, g: T, s: seq<T>, a: nat, b: nat)
    requires a <= b <= |s|
    ensures TiesWith(cmp, g, s) == TiesWith(cmp, g, s[..a]) + TiesWith(cmp, g, s[a..b]) + TiesWith(cmp, g, s[b..])
  {
    TiesWithConcat(cmp, g, s[..a], s[a..b]);
    TiesWithConcat(cmp, g, s[..a] + s[a..b], s[b..]);
    ThreeParts(s, a, b);
  }

  lemma {:induction false} NoTies<T>(cmp: (T, T) -> int, g: T, s: seq<T>)
    requires forall x :: x in s ==> !Ties(cmp, x, g)
    ensures TiesWith(cmp, g, s) == []
  {
    if s != [] { NoTies(cmp, g, s[1..]); }
  }

  lemma {:induction false} MergeStable<T>(cmp: (T, T) -> int, dom: set<T>, g: T, p: seq<T>, q: seq<T>)
    requires Orders(cmp, dom) && Within(p, dom) && Within(q, dom) && g in dom && Sorted(cmp, p)
    ensures TiesWith(cmp, g, Merge(cmp, p, q)) == TiesWith(cmp, g, p) + TiesWith(cmp, g, q)
  {
    if p == [] || q == [] {
    } else if cmp(p[0], q[0]) <= 0 {
      MergeStable(cmp, dom, g, p[1..], q);
      assert Merge(cmp, p, q)[1..] == Merge(cmp, p[1..], q);
    } else {
      MergeStable(cmp, dom, g, p, q[1..]);
      assert Merge(cmp, p, q)[1..] == Merge(cmp, p, q[1..]);
      if Ties(cmp, q[0], g) { OvertakenDoNotTie(cmp, dom, g, p, q[0]); }
    }
  }

  /** An element that overtakes a sorted run ties with nothing in it. */
  lemma OvertakenDoNotTie<T>(cmp: (T, T) -> int, dom: set<T>, g: T, p: seq<T>, y: T)
    requires Orders(cmp, dom) && Within(p, dom) && g in dom && y in dom && p != []
    requires Sorted(cmp, p) && !Le(cmp, p[0], y) && Ties(cmp, y, g)
    ensures TiesWith(cmp, g, p) == []
  {
    forall x | x in p ensures !Ties(cmp, x, g) {
      if x != p[0] { assert x in p[1..]; }
    }
    NoTies(cmp, g, p);
  }

  lemma {:induction false} PassStable<T>(cmp: (T, T) -> int, dom: set<T>, g: T, s: seq<T>, k: nat)
    requires k > 0 && Orders(cmp, dom) && Within(s, dom) && g in dom && RunsSorted(cmp, s, k)
    ensures TiesWith(cmp, g, MergePass(cmp, s, k)) == TiesWith(cmp, g, s)
    decreases |s|
  {
    if s != [] {
      var a, b := Min(k, |s|), Min(2 * k, |s|);
      TwoRuns(cmp, s, k);
      MergeStable(cmp, dom, g, s[..a], s[a..b]);
      PassStable(cmp, dom, g, s[b..], k);
      TiesWithConcat(cmp, g, Merge(cmp, s[..a], s[a..b]), MergePass(cmp, s[b..], k));
      TiesWithParts(cmp, g, s, a, b);
    }
  }

  lemma {:induction false} SortFromStable<T>(cmp: (T, T) -> int, dom: set<T>, g: T, s: seq<T>, k: nat)
    requires k > 0 && Orders(cmp, dom) && Within(s, dom) && g in dom && RunsSorted(cmp, s, k)
    ensures TiesWith(cmp, g, SortFrom(cmp, s, k)) == TiesWith(cmp, g, s)
    decreases |s| - k
  {
    var t := MergePass(cmp, s, k);
    PassStable(cmp, dom, g, s, k);
    PassSorts(cmp, dom, s, k);
    PassPermutes(cmp, s, k);
    PassLength(cmp, s, k);
    if |s| > 2 * k {
      assert Within(t, dom) by {
        forall x | x in t ensures x in dom { assert x in multiset(t); assert x in multiset(s); }
      }
      SortFromStable(cmp, dom, g, t, 2 * k);
    }
  }

  /** If cmp orders the elements, the result is sorted and equal elements keep their order. */
  lemma SortIsStableSort<T>(cmp: (T, T) -> int, dom: set<T>, s: seq<T>)
    requires Orders(cmp, dom) && Within(s, dom)
    ensures var t := Sort(cmp, s); Sorted(cmp, t) && forall i, j :: 0 <= i < j < |t| ==> Le(cmp, t[i], t[j])
    ensures forall g :: g in dom ==> TiesWith(cmp, g, Sort(cmp, s)) == TiesWith(cmp, g, s)
  {
    if s != [] {
      SinglesSorted(cmp, s);
      SortFromSorts(cmp, dom, s, 1);
      forall g | g in dom ensures TiesWith(cmp, g, Sort(cmp, s)) == TiesWith(cmp, g, s) {
        SortFromStable(cmp, dom, g, s, 1);
      }
    }
    var t := Sort(cmp, s);
    forall i, j | 0 <= i < j < |t| ensures Le(cmp, t[i], t[j]) {
      SortedPairs(cmp, t, i, j);
    }
  }

  /** Sortedness, permutation and stability pin the result down: there is only one such sequence. */
  lemma {:induction false} StableSortIsUnique<T>(cmp: (T, T) -> int, dom: set<T>, s: seq<T>, t: seq<T>)
    requires Orders(cmp, dom) && Within(s, dom) && Within(t, dom)
    requires Sorted(cmp, s) && Sorted(cmp, t)
    requires multiset(s) == multiset(t)
    requires forall g :: g in dom ==> TiesWith(cmp, g, s) == TiesWith(cmp, g, t)
    ensures s == t
    decreases |s|
  {
    if s == [] {
      assert |multiset(t)| == 0;
    } else {
      assert |multiset(s)| == |multiset(t)|;
      SameHead(cmp, dom, s, t);
      TailCounts(s);
      TailCounts(t);
      forall g | g in dom ensures TiesWith(cmp, g, s[1..]) == TiesWith(cmp, g, t[1..]) {
        TailTies(cmp, g, s, t);
      }
      StableSortIsUnique(cmp, dom, s[1..], t[1..]);
    }
  }

  lemma TailCounts<T>(s: seq<T>)
    requires s != []
    ensures multiset(s[1..]) == multiset(s) - multiset{s[0]}
  {
    assert s == [s[0]] + s[1..];
  }

  lemma TailTies<T>(cmp: (T, T) -> int, g: T, s: seq<T>, t: seq<T>)
    requires s != [] && t != [] && s[0] == t[0] && TiesWith(cmp, g, s) == TiesWith(cmp, g, t)
    ensures TiesWith(cmp, g, s[1..]) == TiesWith(cmp, g, t[1..])
  {
    var h := if Ties(cmp, s[0], g) then [s[0]] else [];
    assert TiesWith(cmp, g, s)[|h|..] == TiesWith(cmp, g, s[1..]);
    assert TiesWith(cmp, g, t)[|h|..] == TiesWith(cmp, g, t[1..]);
  }

  lemma SameHead<T>(cmp: (T, T) -> int, dom: set<T>, s: seq<T>, t: seq<T>)
    requires Orders(cmp, dom) && Within(s, dom) && Within(t, dom)
    requires Sorted(cmp, s) && Sorted(cmp, t) && s != [] && t != []
    requires multiset(s) == multiset(t)
    requires forall g :: g in dom ==> TiesWith(cmp, g, s) == TiesWith(cmp, g, t)
    ensures s[0] == t[0]
  {
    assert s[0] in multiset(t) && t[0] in multiset(s);
    HeadIsLeast(cmp, dom, s, t[0]);
    HeadIsLeast(cmp, dom, t, s[0]);
    assert TiesWith(cmp, s[0], s) == [s[0]] + TiesWith(cmp, s[0], s[1..]);
    assert TiesWith(cmp, s[0], t) == [t[0]] + TiesWith(cmp, s[0], t[1..]);
    assert s[0] in dom && TiesWith(cmp, s[0], s)[0] == s[0] && TiesWith(cmp, s[0], t)[0] == t[0];
  }

  lemma HeadIsLeast<T>(cmp: (T, T) -> int, dom: set<T>, s: seq<T>, x: T)
    requires Orders(cmp, dom) && Within(s, dom) && Sorted(cmp, s) && s != [] && x in s
    ensures Le(cmp, s[0], x) && Le(cmp, s[0], s[0])
  {
    if x != s[0] { assert x in s[1..]; }
  }

  /** An element that the first of a sorted sequence exceeds goes in front and ties with none of it. */
  lemma FrontSorted<T>(cmp: (T, T) -> int, dom: set<T>, s: seq<T>, x: T)
    requires Orders(cmp, dom) && Within(s, dom) && x in dom && Sorted(cmp, s) && (s != [] ==> !Le(cmp, s[0], x))
    ensures Below(cmp, x, s) && TiesWith(cmp, x, s) == []
  {
    forall y | y in s ensures Le(cmp, x, y) && !Ties(cmp, y, x) {
      if y != s[0] { assert y in s[1..]; }
    }
    NoTies(cmp, x, s);
  }

  lemma {:induction false} SuffixSorted<T>(cmp: (T, T) -> int, s: seq<T>, k: nat)
    requires Sorted(cmp, s) && k <= |s|
    ensures Sorted(cmp, s[k..])
  {
    if k > 0 {
      SuffixSorted(cmp, s[1..], k - 1);
      assert s[1..][k - 1..] == s[k..];
    }
  }

  lemma {:induction false} InsertKeepsSorted<T>(cmp: (T, T) -> int, dom: set<T>, s: seq<T>, x: T, k: nat)
    requires Orders(cmp, dom) && Within(s, dom) && x in dom && Sorted(cmp, s)
    requires k <= |s| && (forall i :: 0 <= i < k ==> Le(cmp, s[i], x)) && (k < |s| ==> !Le(cmp, s[k], x))
    ensures Sorted(cmp, s[..k] + [x] + s[k..])
    decreases s
  {
    var t := s[..k] + [x] + s[k..];
    if k == 0 {
      assert t == [x] + s && t[1..] == s;
      FrontSorted(cmp, dom, s, x);
    } else {
      var rest := s[1..];
      var u := rest[..k - 1] + [x] + rest[k - 1..];
      assert t == [s[0]] + u && t[1..] == u;
      InsertKeepsSorted(cmp, dom, rest, x, k - 1);
      assert Below(cmp, s[0], u) by {
        assert forall y :: y in u ==> y in rest || y == x;
      }
    }
  }

  /** Putting an element in front of the first greater one keeps a sequence sorted, and puts it
      behind those that tie with it. */
  lemma InsertSorted<T>(cmp: (T, T) -> int, dom: set<T>, s: seq<T>, x: T, k: nat)
    requires Orders(cmp, dom) && Within(s, dom) && x in dom && Sorted(cmp, s)
    requires k <= |s| && (forall i :: 0 <= i < k ==> Le(cmp, s[i], x)) && (k < |s| ==> !Le(cmp, s[k], x))
    ensures Sorted(cmp, s[..k] + [x] + s[k..])
    ensures TiesWith(cmp, x, s[..k] + [x] + s[k..]) == TiesWith(cmp, x, s) + [x]
  {
    InsertKeepsSorted(cmp, dom, s, x, k);
    InsertedLast(cmp, dom, s, s[..k], s[k..], x, k);
  }

  lemma InsertedLast<T>(cmp: (T, T) -> int, dom: set<T>, s: seq<T>, a: seq<T>, b: seq<T>, x: T, k: nat)
    requires Orders(cmp, dom) && Within(s, dom) && x in dom && Sorted(cmp, s)
    requires k <= |s| && a == s[..k] && b == s[k..] && (b != [] ==> !Le(cmp, b[0], x))
    ensures TiesWith(cmp, x, a + [x] + b) == TiesWith(cmp, x, s) + [x]
  {
    SuffixSorted(cmp, s, k);
    assert a + b == s;
    assert Within(b, dom) by { assert forall y :: y in b ==> y in s; }
    FrontSorted(cmp, dom, b, x);
    TiesOfInserted(cmp, x, a, b);
  }

  lemma TiesOfInserted<T>(cmp: (T, T) -> int, x: T, a: seq<T>, b: seq<T>)
    requires TiesWith(cmp, x, b) == [] && Le(cmp, x, x)
    ensures TiesWith(cmp, x, a + [x] + b) == TiesWith(cmp, x, a + b) + [x]
  {
    TiesWithConcat(cmp, x, a, b);
    TiesWithConcat(cmp, x, a + [x], b);
    TiesWithConcat(cmp, x, a, [x]);
    assert TiesWith(cmp, x, [x]) == [x];
  }
}
