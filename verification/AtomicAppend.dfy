/** LL_APPEND_ATOMIC of include/utlist_addon.h, run by any number of threads at the same time. Each
    step is one access to shared memory; steps of different threads interleave freely. */
module AtomicAppend {
  import opened Options
  import opened Counting

  /** Where a thread is: about to clear its node's link, to look at the head, to store the head, to
      compare-and-swap the link of `tmp`, to read that link after the swap failed, or done. */
  datatype Place = Clear | Look | Store | Swap(tmp: nat) | Follow(tmp: nat) | Done

  datatype Thread = Thread(node: nat, place: Place)

  /** Shared memory and the threads. `list` records what has been linked: the nodes from the head on. */
  datatype State = State(head: Option<nat>, next: map<nat, Option<nat>>, threads: seq<Thread>, list: seq<nat>)

  predicate Enabled(s: State, t: nat) {
    && t < |s.threads| && s.threads[t].place != Done
    && match s.threads[t].place
       case Swap(tmp) => tmp in s.next
       case Follow(tmp) => tmp in s.next && s.next[tmp].Some?
       case _ => true
  }

  function At(s: State, t: nat, place: Place): seq<Thread>
    requires t < |s.threads|
  {
    s.threads[t := Thread(s.threads[t].node, place)]
  }

  function Apply(s: State, t: nat): State
    requires Enabled(s, t)
  {
    var node := s.threads[t].node;
    match s.threads[t].place
    case Clear => s.(next := s.next[node := None], threads := At(s, t, Look))
    case Look => s.(threads := At(s, t, if s.head.Some? then Swap(s.head.value) else Store))
    case Store => s.(head := Some(node), threads := At(s, t, Done), list := [node])
    case Swap(tmp) =>
      if s.next[tmp].None?
      then s.(next := s.next[tmp := Some(node)], threads := At(s, t, Done), list := s.list + [node])
      else s.(threads := At(s, t, Follow(tmp)))
    case Follow(tmp) => s.(threads := At(s, t, Swap(s.next[tmp].value)))
    case Done => s
  }

  ghost predicate IsRun(s: State, run: seq<nat>)
    decreases |run|
  {
    run == [] || (Enabled(s, run[0]) && IsRun(Apply(s, run[0]), run[1..]))
  }

  ghost function Final(s: State, run: seq<nat>): State
    requires IsRun(s, run)
    decreases |run|
  {
    if run == [] then s else Final(Apply(s, run[0]), run[1..])
  }

  // ---------------------------------------------------------------- the invariant

  /** The links lead from the head through the list to NULL. */
  ghost predicate Linked(s: State) {
    && NoDup(s.list) && (s.head.Some? <==> s.list != []) && (s.list != [] ==> s.head == Some(s.list[0]))
    && (forall i :: 0 <= i < |s.list| ==> s.list[i] in s.next)
    && (forall i {:trigger s.list[i]} :: 0 <= i < |s.list| ==> s.next[s.list[i]] == After(s.list, i))
  }

  function After(list: seq<nat>, i: nat): Option<nat> {
    if i + 1 < |list| then Some(list[i + 1]) else None
  }

  /** x is the node of one of the threads from `from` on. */
  ghost predicate Owned(threads: seq<Thread>, from: nat, x: nat) {
    exists t :: from <= t < |threads| && threads[t].node == x
  }

  lemma StillOwned(s: State, t: nat, place: Place, from: nat)
    requires t < |s.threads|
    ensures forall x :: Owned(s.threads, from, x) ==> Owned(At(s, t, place), from, x)
  {
    forall x | Owned(s.threads, from, x) ensures Owned(At(s, t, place), from, x) {
      var u :| from <= u < |s.threads| && s.threads[u].node == x;
      assert At(s, t, place)[u].node == x;
    }
  }

  /** A thread that has looked at a non-empty list is somewhere in it; one that is done has its
      node in it; and nodes only get there that way. */
  ghost predicate Placed(s: State, base: seq<nat>, t: nat)
    requires t < |s.threads|
  {
    var th := s.threads[t];
    && (th.place.Swap? ==> th.place.tmp in s.list)
    && (th.place.Follow? ==> th.place.tmp in s.list && th.place.tmp in s.next && s.next[th.place.tmp].Some?)
    && (th.place.Store? ==> s.list == [])
    && (th.node in s.list <==> th.place.Done?)
    && (th.place.Look? || th.place.Swap? || th.place.Follow? ==> th.node in s.next && s.next[th.node].None?)
  }

  /** The list grows from `base`; the threads from `from` on have different nodes of their own. */
  ghost predicate Inv(s: State, base: seq<nat>, from: nat) {
    && Linked(s) && base <= s.list && from <= |s.threads|
    && (forall t :: from <= t < |s.threads| ==> Placed(s, base, t) && s.threads[t].node !in base)
    && (forall t, u :: from <= t < u < |s.threads| ==> s.threads[t].node != s.threads[u].node)
    && (forall t :: 0 <= t < from ==> s.threads[t].place.Done?)
    && (forall i :: |base| <= i < |s.list| ==> Owned(s.threads, from, s.list[i]))
  }

  lemma ClearInv(s: State, base: seq<nat>, from: nat, t: nat)
    requires Inv(s, base, from) && base != [] && Enabled(s, t) && s.threads[t].place.Clear?
    ensures Inv(Apply(s, t), base, from)
  {
    var s' := Apply(s, t);
    forall u | from <= u < |s.threads| ensures Placed(s', base, u) {
      assert Placed(s, base, u);
    }
    StillOwned(s, t, Look, from);
  }

  /** Steps that write nothing shared. */
  lemma QuietInv(s: State, base: seq<nat>, from: nat, t: nat)
    requires Inv(s, base, from) && base != [] && Enabled(s, t)
    requires s.threads[t].place.Look? || s.threads[t].place.Follow?
             || (s.threads[t].place.Swap? && s.next[s.threads[t].place.tmp].Some?)
    ensures Inv(Apply(s, t), base, from)
  {
    var s' := Apply(s, t);
    assert Placed(s, base, t);
    if s.threads[t].place.Follow? {
      var i :| 0 <= i < |s.list| && s.list[i] == s.threads[t].place.tmp;
      assert s'.threads[t].place.tmp == s.list[i + 1];
    }
    forall u | from <= u < |s.threads| ensures Placed(s', base, u) {
      assert Placed(s, base, u);
    }
    StillOwned(s, t, s'.threads[t].place, from);
  }

  lemma SwapLinked(s: State, t: nat, tmp: nat, node: nat)
    requires Linked(s) && tmp in s.list && s.next[tmp].None? && node !in s.list && node in s.next && s.next[node].None?
    ensures tmp == s.list[|s.list| - 1]
    ensures Linked(s.(next := s.next[tmp := Some(node)], list := s.list + [node]))
  {
    var k := |s.list| - 1;
    var i :| 0 <= i < |s.list| && s.list[i] == tmp;
    assert After(s.list, i).None?;
    assert i == k;
    var list, next := s.list + [node], s.next[tmp := Some(node)];
    forall j | 0 <= j < |list| ensures list[j] in next && next[list[j]] == After(list, j) {
      if j < k {
        assert list[j] == s.list[j] != tmp && After(list, j) == After(s.list, j);
      }
    }
    assert NoDup(list);
  }

  lemma SwapPlaced(s: State, base: seq<nat>, t: nat, u: nat)
    requires t < |s.threads| && u < |s.threads| && Placed(s, base, t) && Placed(s, base, u)
    requires Enabled(s, t) && s.threads[t].place.Swap? && s.next[s.threads[t].place.tmp].None?
    requires u != t ==> s.threads[u].node != s.threads[t].node
    ensures Placed(Apply(s, t), base, u)
  {
  }

  /** A successful swap: `tmp` is the last node, and the thread's node follows it. */
  lemma SwapInv(s: State, base: seq<nat>, from: nat, t: nat)
    requires Inv(s, base, from) && base != [] && Enabled(s, t) && s.threads[t].place.Swap?
    requires s.next[s.threads[t].place.tmp].None?
    ensures Inv(Apply(s, t), base, from) && s.threads[t].place.tmp == s.list[|s.list| - 1]
  {
    var s', tmp, node := Apply(s, t), s.threads[t].place.tmp, s.threads[t].node;
    assert Placed(s, base, t);
    SwapLinked(s, t, tmp, node);
    assert Linked(s') by {
      var l := s.(next := s.next[tmp := Some(node)], list := s.list + [node]);
      assert Linked(l) && l.list == s'.list && l.next == s'.next && l.head == s'.head;
    }
    forall u | from <= u < |s.threads| ensures Placed(s', base, u) {
      assert Placed(s, base, u);
      SwapPlaced(s, base, t, u);
    }
    StillOwned(s, t, Done, from);
    assert s'.threads[t].node == node;
    assert Owned(s'.threads, from, node);
  }

  lemma StepInv(s: State, base: seq<nat>, from: nat, t: nat)
    requires Inv(s, base, from) && base != [] && Enabled(s, t)
    ensures Inv(Apply(s, t), base, from)
    ensures s.list <= Apply(s, t).list
    ensures forall x :: x in s.list && s.next[x].Some? ==> x in Apply(s, t).next && Apply(s, t).next[x] == s.next[x]
  {
    assert Placed(s, base, t);
    match s.threads[t].place
    case Clear => ClearInv(s, base, from, t);
    case Look => QuietInv(s, base, from, t);
    case Swap(tmp) => if s.next[tmp].None? { SwapInv(s, base, from, t); } else { QuietInv(s, base, from, t); }
    case Follow(_) => QuietInv(s, base, from, t);
  }

  /** In every run on a non-empty list: links are written once, the list stays intact and only grows. */
  lemma {:induction false} RunInv(s: State, base: seq<nat>, from: nat, run: seq<nat>)
    requires Inv(s, base, from) && base != [] && IsRun(s, run)
    ensures Inv(Final(s, run), base, from) && s.list <= Final(s, run).list
    ensures forall x :: x in s.list && s.next[x].Some? ==> x in Final(s, run).next && Final(s, run).next[x] == s.next[x]
    decreases |run|
  {
    if run != [] {
      StepInv(s, base, from, run[0]);
      RunInv(Apply(s, run[0]), base, from, run[1..]);
    }
  }

  // ---------------------------------------------------------------- every appender terminates

  function IndexOf(list: seq<nat>, x: nat): nat {
    if list == [] then 0 else if list[0] == x then 0 else 1 + IndexOf(list[1..], x)
  }

  lemma {:induction false} IndexIs(list: seq<nat>, j: nat)
    requires NoDup(list) && j < |list|
    ensures IndexOf(list, list[j]) == j
  {
    if j > 0 { IndexIs(list[1..], j - 1); }
  }

  function Undone(threads: seq<Thread>): nat {
    if threads == [] then 0 else (if threads[0].place.Done? then 0 else 1) + Undone(threads[1..])
  }

  /** How many steps a thread may still need when the list will have n nodes in the end. */
  function Ahead(list: seq<nat>, n: nat, place: Place): int {
    match place
    case Clear => 2 * n + 3
    case Look => 2 * n + 2
    case Swap(tmp) => 2 * (n - IndexOf(list, tmp)) + 1
    case Follow(tmp) => 2 * (n - IndexOf(list, tmp))
    case _ => 0
  }

  function AllAhead(threads: seq<Thread>, list: seq<nat>, n: nat): int {
    if threads == [] then 0 else Ahead(list, n, threads[0].place) + AllAhead(threads[1..], list, n)
  }

  /** The length of the list once all have appended. */
  function Goal(s: State): nat {
    |s.list| + Undone(s.threads)
  }

  function Measure(s: State): int {
    AllAhead(s.threads, s.list, Goal(s))
  }

  lemma {:induction false} UndoneAt(threads: seq<Thread>, t: nat, th: Thread)
    requires t < |threads|
    ensures Undone(threads[t := th]) == Undone(threads) - (if threads[t].place.Done? then 0 else 1)
            + (if th.place.Done? then 0 else 1)
  {
    if t > 0 {
      UndoneAt(threads[1..], t - 1, th);
      assert threads[t := th][1..] == threads[1..][t - 1 := th];
    } else {
      assert threads[t := th][1..] == threads[1..];
    }
  }

  /** One thread gets further while the others stay where they are. */
  lemma {:induction false} AheadAt(threads: seq<Thread>, t: nat, th: Thread, list: seq<nat>, list': seq<nat>, n: nat)
    requires t < |threads| && Ahead(list', n, th.place) < Ahead(list, n, threads[t].place)
    requires forall u :: 0 <= u < |threads| && u != t ==>
             Ahead(list', n, threads[u].place) == Ahead(list, n, threads[u].place)
    ensures AllAhead(threads[t := th], list', n) < AllAhead(threads, list, n)
  {
    if t > 0 {
      AheadAt(threads[1..], t - 1, th, list, list', n);
      assert threads[t := th][1..] == threads[1..][t - 1 := th];
    } else {
      assert threads[t := th][1..] == threads[1..];
      AheadSame(threads[1..], list, list', n);
    }
  }

  lemma {:induction false} AheadSame(threads: seq<Thread>, list: seq<nat>, list': seq<nat>, n: nat)
    requires forall u :: 0 <= u < |threads| ==> Ahead(list', n, threads[u].place) == Ahead(list, n, threads[u].place)
    ensures AllAhead(threads, list', n) == AllAhead(threads, list, n)
  {
    if threads != [] { AheadSame(threads[1..], list, list', n); }
  }

  /** Appending to the list does not move anyone in it. */
  lemma {:induction false} IndexGrows(list: seq<nat>, x: nat, node: nat)
    requires x in list
    ensures IndexOf(list + [node], x) == IndexOf(list, x) < |list|
  {
    assert (list + [node])[0] == list[0];
    if list[0] != x {
      assert (list + [node])[1..] == list[1..] + [node];
      IndexGrows(list[1..], x, node);
    }
  }

  lemma StepGetsOn(s: State, base: seq<nat>, from: nat, t: nat)
    requires Inv(s, base, from) && base != [] && Enabled(s, t)
    ensures Goal(Apply(s, t)) == Goal(s) && Measure(Apply(s, t)) < Measure(s)
  {
    var s', th, n := Apply(s, t), s.threads[t], Goal(s);
    assert Placed(s, base, t);
    UndoneAt(s.threads, t, s'.threads[t]);
    if th.place.Look? {
      IndexIs(s.list, 0);
    } else if th.place.Swap? {
      IndexGrows(s.list, th.place.tmp, th.node);
    } else if th.place.Follow? {
      var i :| 0 <= i < |s.list| && s.list[i] == th.place.tmp;
      IndexIs(s.list, i);
      IndexIs(s.list, i + 1);
    }
    forall u | 0 <= u < |s.threads| && u != t
      ensures Ahead(s'.list, n, s.threads[u].place) == Ahead(s.list, n, s.threads[u].place)
    {
      if u >= from {
        assert Placed(s, base, u);
        var place := s.threads[u].place;
        if place.Swap? || place.Follow? { IndexGrows(s.list, place.tmp, th.node); }
      }
    }
    AheadAt(s.threads, t, s'.threads[t], s.list, s'.list, n);
  }

  lemma {:induction false} AheadNonNegative(s: State, base: seq<nat>, from: nat, threads: seq<Thread>)
    requires Linked(s)
    requires forall u :: 0 <= u < |threads| ==>
               var place := threads[u].place; (place.Swap? || place.Follow?) ==> place.tmp in s.list
    ensures AllAhead(threads, s.list, Goal(s)) >= 0
  {
    if threads != [] {
      AheadNonNegative(s, base, from, threads[1..]);
      var place := threads[0].place;
      if place.Swap? || place.Follow? { IndexGrows(s.list, place.tmp, 0); }
    }
  }

  lemma MeasureNonNegative(s: State, base: seq<nat>, from: nat)
    requires Inv(s, base, from)
    ensures Measure(s) >= 0
  {
    forall u | 0 <= u < |s.threads|
      ensures var place := s.threads[u].place; (place.Swap? || place.Follow?) ==> place.tmp in s.list
    {
      if u >= from { assert Placed(s, base, u); }
    }
    AheadNonNegative(s, base, from, s.threads);
  }

  /** No run on a non-empty list is longer than the measure of the state it starts in. */
  lemma {:induction false} RunsEnd(s: State, base: seq<nat>, from: nat, run: seq<nat>)
    requires Inv(s, base, from) && base != [] && IsRun(s, run)
    ensures |run| <= Measure(s)
    decreases |run|
  {
    MeasureNonNegative(s, base, from);
    if run != [] {
      StepInv(s, base, from, run[0]);
      StepGetsOn(s, base, from, run[0]);
      RunsEnd(Apply(s, run[0]), base, from, run[1..]);
    }
  }

  ghost predicate AllDone(s: State) {
    forall t :: 0 <= t < |s.threads| ==> s.threads[t].place.Done?
  }

  /** A run can always go on until every thread is done. */
  lemma {:induction false} CanFinish(s: State, base: seq<nat>, from: nat) returns (run: seq<nat>)
    requires Inv(s, base, from) && base != []
    ensures IsRun(s, run) && AllDone(Final(s, run))
    decreases Measure(s)
  {
    run := [];
    if t :| 0 <= t < |s.threads| && !s.threads[t].place.Done? {
      assert Placed(s, base, t);
      StepInv(s, base, from, t);
      StepGetsOn(s, base, from, t);
      MeasureNonNegative(s, base, from);
      MeasureNonNegative(Apply(s, t), base, from);
      var rest := CanFinish(Apply(s, t), base, from);
      run := [t] + rest;
      assert run[1..] == rest;
    }
  }

  // ---------------------------------------------------------------- what all runs end in

  /** The threads are about to append different new nodes to a list. */
  ghost predicate Begins(s: State) {
    && Linked(s) && (forall t :: 0 <= t < |s.threads| ==> s.threads[t].place.Clear? && s.threads[t].node !in s.list)
    && (forall t, u :: 0 <= t < u < |s.threads| ==> s.threads[t].node != s.threads[u].node)
  }

  /** The list is the initial one followed by every new node, once. */
  ghost predicate Kept(s: State, base: seq<nat>) {
    && Linked(s) && base <= s.list && (forall t :: 0 <= t < |s.threads| ==> s.threads[t].node in s.list)
    && (forall i :: |base| <= i < |s.list| ==> Owned(s.threads, 0, s.list[i]))
  }

  ghost predicate EveryRunKeeps(s: State) {
    forall run :: IsRun(s, run) && AllDone(Final(s, run)) ==> Kept(Final(s, run), s.list)
  }

  lemma NonEmptyKeeps(s: State, run: seq<nat>)
    requires Begins(s) && s.list != [] && IsRun(s, run) && AllDone(Final(s, run))
    ensures Kept(Final(s, run), s.list)
  {
    assert forall t :: 0 <= t < |s.threads| ==> Placed(s, s.list, t);
    RunInv(s, s.list, 0, run);
    var f := Final(s, run);
    assert forall t :: 0 <= t < |f.threads| ==> Placed(f, s.list, t);
  }

  /** One thread on an empty list. */
  ghost predicate Alone(s: State) {
    && |s.threads| == 1
    && var th := s.threads[0];
       match th.place
       case Clear => s.list == [] && s.head.None?
       case Look => s.list == [] && s.head.None? && th.node in s.next && s.next[th.node].None?
       case Store => s.list == [] && s.head.None? && th.node in s.next && s.next[th.node].None?
       case Done => s.list == [th.node] && s.head == Some(th.node) && th.node in s.next && s.next[th.node].None?
       case _ => false
  }

  lemma {:induction false} AloneKeeps(s: State, run: seq<nat>)
    requires Alone(s) && IsRun(s, run)
    ensures Alone(Final(s, run))
    decreases |run|
  {
    if run != [] {
      AloneKeeps(Apply(s, run[0]), run[1..]);
    }
  }

  /** Two threads that both find the list empty both store the head. */
  lemma BothStore(s: State) returns (s': State)
    requires Begins(s) && s.list == [] && |s.threads| >= 2
    ensures forall rest :: IsRun(s', rest) ==>
            IsRun(s, [0, 1, 0, 1, 0, 1] + rest) && Final(s, [0, 1, 0, 1, 0, 1] + rest) == Final(s', rest)
    ensures |s'.threads| == |s.threads|
    ensures forall t :: 0 <= t < |s.threads| ==> s'.threads[t].node == s.threads[t].node
    ensures Inv(s', [s.threads[1].node], 2)
  {
    var a, b := s.threads[0].node, s.threads[1].node;
    var s1 := Apply(s, 0);
    var s2 := Apply(s1, 1);
    var s3 := Apply(s2, 0);
    var s4 := Apply(s3, 1);
    var s5 := Apply(s4, 0);
    s' := Apply(s5, 1);
    assert s'.list == [b] && s'.head == Some(b) && s'.next[b].None?;
    assert s'.threads[0] == Thread(a, Done) && s'.threads[1] == Thread(b, Done);
    assert forall t :: 2 <= t < |s.threads| ==> s'.threads[t] == s.threads[t];
    assert forall t :: 2 <= t < |s.threads| ==> Placed(s', [b], t);
    forall rest | IsRun(s', rest)
      ensures IsRun(s, [0, 1, 0, 1, 0, 1] + rest) && Final(s, [0, 1, 0, 1, 0, 1] + rest) == Final(s', rest)
    {
      PrependPair(s4, s5, s', rest);
      PrependPair(s2, s3, s4, [0, 1] + rest);
      PrependPair(s, s1, s2, [0, 1] + ([0, 1] + rest));
      assert [0, 1, 0, 1, 0, 1] + rest == [0, 1] + ([0, 1] + ([0, 1] + rest));
    }
  }

  /** A step of thread 0 and one of thread 1. */
  lemma PrependPair(s: State, between: State, s': State, rest: seq<nat>)
    requires Enabled(s, 0) && between == Apply(s, 0) && Enabled(between, 1) && s' == Apply(between, 1)
    requires IsRun(s', rest)
    ensures IsRun(s, [0, 1] + rest) && Final(s, [0, 1] + rest) == Final(s', rest)
  {
    Prepend(between, 1, rest);
    Prepend(s, 0, [1] + rest);
    assert [0, 1] + rest == [0] + ([1] + rest);
  }

  /** Then the node of the one that stored first is lost. */
  lemma EmptyLoses(s: State) returns (run: seq<nat>)
    requires Begins(s) && s.list == [] && |s.threads| >= 2
    ensures IsRun(s, run) && AllDone(Final(s, run)) && Linked(Final(s, run)) && s.threads[0].node !in Final(s, run).list
  {
    var a, b := s.threads[0].node, s.threads[1].node;
    var s' := BothStore(s);
    var rest := CanFinish(s', [b], 2);
    RunInv(s', [b], 2, rest);
    SameNodes(s', rest);
    var f := Final(s', rest);
    forall i | 0 <= i < |f.list| ensures f.list[i] != a {
      assert i > 0 ==> Owned(f.threads, 2, f.list[i]);
    }
    run := [0, 1, 0, 1, 0, 1] + rest;
  }

  lemma Prepend(s: State, t: nat, rest: seq<nat>)
    requires Enabled(s, t) && IsRun(Apply(s, t), rest)
    ensures IsRun(s, [t] + rest) && Final(s, [t] + rest) == Final(Apply(s, t), rest)
  {
    assert ([t] + rest)[1..] == rest;
  }

  lemma {:induction false} SameNodes(s: State, run: seq<nat>)
    requires IsRun(s, run)
    ensures |Final(s, run).threads| == |s.threads|
    ensures forall t :: 0 <= t < |s.threads| ==> Final(s, run).threads[t].node == s.threads[t].node
    decreases |run|
  {
    if run != [] { SameNodes(Apply(s, run[0]), run[1..]); }
  }

  /** Appending keeps every node in every run if and only if the list is not empty, or at most one
      thread appends. */
  lemma KeepsIff(s: State)
    requires Begins(s)
    ensures EveryRunKeeps(s) <==> s.list != [] || |s.threads| <= 1
  {
    if s.list != [] {
      forall run | IsRun(s, run) && AllDone(Final(s, run)) ensures Kept(Final(s, run), s.list) {
        NonEmptyKeeps(s, run);
      }
    } else if |s.threads| <= 1 {
      forall run | IsRun(s, run) && AllDone(Final(s, run)) ensures Kept(Final(s, run), s.list) {
        if |s.threads| == 1 {
          AloneKeeps(s, run);
          var f := Final(s, run);
          assert f.threads[0].node == f.list[0];
          assert Owned(f.threads, 0, f.list[0]);
        } else {
          assert run == [];
        }
      }
    } else {
      var run := EmptyLoses(s);
      SameNodes(s, run);
      assert !Kept(Final(s, run), s.list);
    }
  }
}
