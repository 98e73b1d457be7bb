/** The command line scanner of pocld (pocld/cmdline.c): a getopt that permutes argv in place.

    The first part is a reference reading of an argument list that never moves anything:
    `Scan` walks the list once from the left and says which events the caller must see,
    which elements are options (with their detached arguments) and which are operands.
    The class `Scanner` is the real thing, with its four indices, its cursor into a cluster of
    short options and its in-place block exchange; `ScanAll` ties the two together. */
module Getopt {
  import opened Options
  import opened Veils

  // ---------------------------------------------------------------- option tables

  const NO_ARGUMENT := 0
  const REQUIRED_ARGUMENT := 1

  /** One row of the long option table; `flag` is the address of an int, 0 for NULL. */
  datatype LongOption = LongOption(name: string, hasArg: int, flag: nat, val: int)

  datatype Config = Config(optstring: string, longopts: seq<LongOption>)

  /** What one call of getopt reports: its return value and optarg, and the writes it makes
      to optopt, longind and to the flag variable of a long option. */
  datatype Event = Event(code: int, optarg: Option<string>, optopt: Option<int>,
                         longind: Option<nat>, flagWrite: Option<(nat, int)>)

  function Plain(code: int, optarg: Option<string>): Event {
    Event(code, optarg, None, None, None)
  }

  function Failed(code: int, optopt: int): Event {
    Event(code, None, Some(optopt), None, None)
  }

  /** The code for a missing argument depends on the first character of optstring. */
  function MissingCode(optstring: string): int {
    if optstring != "" && optstring[0] == ':' then ':' as int else '?' as int
  }

  predicate NonOption(elem: string) {
    elem == "" || elem[0] != '-' || |elem| == 1
  }

  predicate IsLong(elem: string)
    requires !NonOption(elem)
  {
    elem[1] == '-'
  }

  // ---------------------------------------------------------------- reference reading

  datatype ArgKind = Unknown | Bare | Required | Optional

  function CharAt(s: string, i: nat): char {
    if i < |s| then s[i] else '\0'
  }

  function IndexOf(s: string, c: char): (i: nat)
    ensures i <= |s|
    ensures i < |s| ==> s[i] == c
    ensures c !in s[..i]
  {
    if s == "" || s[0] == c then 0 else 1 + IndexOf(s[1..], c)
  }

  function KindOf(optstring: string, c: char): ArgKind {
    var i := IndexOf(optstring, c);
    if i == |optstring| || c == ':' then Unknown
    else if CharAt(optstring, i + 1) != ':' then Bare
    else if CharAt(optstring, i + 2) == ':' then Optional
    else Required
  }

  /** The events of the rest of a cluster of short options, and whether it swallows the
      following element as a detached argument. */
  function Cluster(optstring: string, rest: string, next: Option<string>): (seq<Event>, bool) {
    if rest == "" then ([], false)
    else
      var c, tail := rest[0], rest[1..];
      match KindOf(optstring, c)
      case Unknown =>
        var (evs, takes) := Cluster(optstring, tail, next);
        ([Failed('?' as int, c as int)] + evs, takes)
      case Bare =>
        var (evs, takes) := Cluster(optstring, tail, next);
        ([Plain(c as int, None)] + evs, takes)
      case Optional =>
        ([Plain(c as int, if tail == "" then None else Some(tail))], false)
      case Required =>
        if tail != "" then ([Plain(c as int, Some(tail))], false)
        else if next == None then ([Failed(MissingCode(optstring), c as int)], false)
        else ([Plain(c as int, next)], true)
  }

  predicate Abbreviates(name: string, o: LongOption) {
    name <= o.name
  }

  predicate SameAction(a: LongOption, b: LongOption) {
    a.hasArg == b.hasArg && a.flag == b.flag && a.val == b.val
  }

  datatype Lookup = Absent | Ambiguous | Found(index: nat)

  function ExactIndex(name: string, opts: seq<LongOption>): (i: nat)
    ensures i <= |opts|
    ensures i < |opts| ==> opts[i].name == name
    ensures forall j :: 0 <= j < i ==> opts[j].name != name
  {
    if opts == [] || opts[0].name == name then 0 else 1 + ExactIndex(name, opts[1..])
  }

  function PrefixIndex(name: string, opts: seq<LongOption>): (i: nat)
    ensures i <= |opts|
    ensures i < |opts| ==> Abbreviates(name, opts[i])
    ensures forall j :: 0 <= j < i ==> !Abbreviates(name, opts[j])
  {
    if opts == [] || Abbreviates(name, opts[0]) then 0 else 1 + PrefixIndex(name, opts[1..])
  }

  /** An exact name always wins; otherwise an abbreviation stands for the first option it
      abbreviates, unless two options it abbreviates would do different things. */
  function LookUp(name: string, opts: seq<LongOption>): Lookup {
    var e, p := ExactIndex(name, opts), PrefixIndex(name, opts);
    if e < |opts| then Found(e)
    else if p == |opts| then Absent
    else if exists j :: p < j < |opts| && Abbreviates(name, opts[j]) && !SameAction(opts[p], opts[j])
    then Ambiguous
    else Found(p)
  }

  /** The event of a long option (`text` is what follows the two dashes), and whether it
      swallows the following element. */
  function LongEvent(cfg: Config, text: string, next: Option<string>): (Event, bool) {
    var n := IndexOf(text, '=');
    match LookUp(text[..n], cfg.longopts)
    case Absent => (Failed('?' as int, 0), false)
    case Ambiguous => (Failed('?' as int, 0), false)
    case Found(i) =>
      assert i < |cfg.longopts|;
      FoundEvent(cfg, i, text, n, next)
  }

  /** What option i makes of the text, whose name ends at n. */
  function FoundEvent(cfg: Config, i: nat, text: string, n: nat, next: Option<string>): (Event, bool)
    requires i < |cfg.longopts| && n <= |text|
  {
    var o := cfg.longopts[i];
    var code := if o.flag != 0 then 0 else o.val;
    var write := if o.flag != 0 then Some((o.flag, o.val)) else None;
    if n < |text| then
      if o.hasArg != NO_ARGUMENT then (Event(code, Some(text[n + 1..]), None, Some(i), write), false)
      else (Failed('?' as int, o.val), false)
    else if o.hasArg == REQUIRED_ARGUMENT then
      if next == None then (Failed(MissingCode(cfg.optstring), o.val), false)
      else (Event(code, next, None, Some(i), write), true)
    else (Event(code, None, None, Some(i), write), false)
  }

  datatype Reading = Reading(events: seq<Event>, options: seq<string>, operands: seq<string>)

  function Second(args: seq<string>): Option<string> {
    if |args| > 1 then Some(args[1]) else None
  }

  /** The events of the option element `args[0]`, and whether it swallows `args[1]`. */
  function Element(cfg: Config, args: seq<string>): (r: (seq<Event>, bool))
    requires args != [] && !NonOption(args[0])
  {
    if IsLong(args[0]) then
      var (ev, takes) := LongEvent(cfg, args[0][2..], Second(args));
      ([ev], takes)
    else Cluster(cfg.optstring, args[0][1..], Second(args))
  }

  /** A single dash never introduces an abbreviated long option: `-fu` is the option f with the
      argument u, though there is a long option fubar and `--fu` stands for it. */
  lemma SingleDashIsShort()
    ensures var cfg := Config("f:", [LongOption("fubar", NO_ARGUMENT, 0, 7)]);
            && Element(cfg, ["-fu"]) == ([Plain('f' as int, Some("u"))], false)
            && Element(cfg, ["--fu"]) == ([Event(7, None, None, Some(0), None)], false)
  {
    var fubar := LongOption("fubar", NO_ARGUMENT, 0, 7);
    assert "-fu"[1..] == "fu" && "fu"[1..] == "u" && "--fu"[2..] == "fu";
    assert IndexOf("f:", 'f') == 0 && IndexOf("u", '=') == 1 && IndexOf("fu", '=') == 2;
    assert "fu"[..2] == "fu" && "fu" <= "fubar";
    assert ExactIndex("fu", [fubar]) == 1 && PrefixIndex("fu", [fubar]) == 0;
  }

  /** The table of long options has a say in the reading of an element exactly when the element
      begins with two dashes. */
  lemma LongTableCounts(cfg: Config, args: seq<string>)
    requires args != [] && !NonOption(args[0])
    ensures (forall l :: Element(cfg.(longopts := l), args) == Element(cfg, args)) <==> !IsLong(args[0])
  {
    if IsLong(args[0]) {
      var text := args[0][2..];
      var o := LongOption(text[..IndexOf(text, '=')], 2, 0, 7);
      assert ExactIndex(o.name, [o]) == 0;
      assert Element(cfg.(longopts := [o]), args) != Element(cfg.(longopts := []), args);
    }
  }

  function Width(takes: bool, args: seq<string>): nat {
    if takes && |args| > 1 then 2 else 1
  }

  /** Reads an argument list from the left. */
  function Scan(cfg: Config, args: seq<string>): Reading
    decreases |args|
  {
    if args == [] then Reading([], [], [])
    else if args[0] == "--" then Reading([], ["--"], args[1..])
    else if NonOption(args[0]) then
      var r := Scan(cfg, args[1..]);
      r.(operands := [args[0]] + r.operands)
    else
      var (evs, takes) := Element(cfg, args);
      var k := Width(takes, args);
      Before(evs, args[..k], Scan(cfg, args[k..]))
  }

  function Before(evs: seq<Event>, elems: seq<string>, r: Reading): Reading {
    Reading(evs + r.events, elems + r.options, r.operands)
  }

  /** Reads on after the element `args[0]`, which still has to report `evs`. */
  function AfterElement(cfg: Config, evs: seq<Event>, takes: bool, args: seq<string>): Reading
    requires args != []
  {
    var k := Width(takes, args);
    Before(evs, args[..k], Scan(cfg, args[k..]))
  }

  /** Reads on from the middle of the short option cluster `args[0]`. */
  function ScanCluster(cfg: Config, rest: string, args: seq<string>): Reading
    requires args != []
  {
    var (evs, takes) := Cluster(cfg.optstring, rest, Second(args));
    AfterElement(cfg, evs, takes, args)
  }

  /** Every element ends up on exactly one side, so nothing is lost, added or duplicated. */
  lemma {:induction false} ScanPartitions(cfg: Config, args: seq<string>)
    ensures var r := Scan(cfg, args);
            multiset(r.options) + multiset(r.operands) == multiset(args)
    decreases |args|
  {
    if args == [] {
    } else if args[0] == "--" || NonOption(args[0]) {
      assert args == [args[0]] + args[1..];
      ScanPartitions(cfg, args[1..]);
    } else {
      var k := Width(Element(cfg, args).1, args);
      assert args == args[..k] + args[k..];
      ScanPartitions(cfg, args[k..]);
    }
  }

  /** The elements that `mask` marks with b, in order. */
  function Pick(args: seq<string>, mask: seq<bool>, b: bool): seq<string>
    requires |mask| == |args|
  {
    if args == [] then [] else (if mask[0] == b then [args[0]] else []) + Pick(args[1..], mask[1..], b)
  }

  ghost predicate Dashed(args: seq<string>, i: int) {
    exists j :: 0 <= j < i && j < |args| && args[j] == "--"
  }

  /** What the marks mean: an operand does not look like an option, unless a `--` came before; and
      what does not look like an option is an option's argument, which follows it, or an operand. */
  ghost predicate Marks(args: seq<string>, mask: seq<bool>) {
    && |mask| == |args|
    && (forall i :: 0 <= i < |args| && !mask[i] ==> NonOption(args[i]) || Dashed(args, i))
    && (forall i {:trigger NonOption(args[i])} :: 0 <= i < |args| && mask[i] && NonOption(args[i]) ==>
        i > 0 && mask[i - 1])
  }

  lemma {:induction false} PickConcat(a: seq<string>, b: seq<string>, m: seq<bool>, n: seq<bool>, x: bool)
    requires |a| == |m| && |b| == |n|
    ensures Pick(a + b, m + n, x) == Pick(a, m, x) + Pick(b, n, x)
  {
    if a == [] {
      assert a + b == b && m + n == n;
    } else {
      PickConcat(a[1..], b, m[1..], n, x);
      assert (a + b)[1..] == a[1..] + b && (m + n)[1..] == m[1..] + n;
      assert (a + b)[0] == a[0] && (m + n)[0] == m[0];
      assert [a[0]] + (Pick(a[1..], m[1..], x) + Pick(b, n, x)) == [a[0]] + Pick(a[1..], m[1..], x) + Pick(b, n, x);
    }
  }

  lemma {:induction false} PickAll(args: seq<string>, x: bool)
    ensures Pick(args, seq(|args|, _ => x), x) == args && Pick(args, seq(|args|, _ => x), !x) == []
  {
    if args != [] {
      assert seq(|args|, _ => x)[1..] == seq(|args| - 1, _ => x);
      PickAll(args[1..], x);
    }
  }

  lemma MarksJoin(a: seq<string>, b: seq<string>, mask: seq<bool>, x: bool)
    requires |a| > 0 && Marks(b, mask) && (x ==> !NonOption(a[0]))
    requires !x ==> forall i :: 0 <= i < |a| ==> NonOption(a[i])
    ensures Marks(a + b, seq(|a|, _ => x) + mask)
  {
    var args, m := a + b, seq(|a|, _ => x) + mask;
    forall i | 0 <= i < |args| && !m[i] ensures NonOption(args[i]) || Dashed(args, i) {
      if i >= |a| && Dashed(b, i - |a|) {
        var j :| 0 <= j < i - |a| && j < |b| && b[j] == "--";
        assert args[j + |a|] == "--";
      }
    }
    forall i | 0 <= i < |args| && m[i] && NonOption(args[i]) ensures i > 0 && m[i - 1] {
      if i >= |a| { assert NonOption(b[i - |a|]); }
    }
  }

  /** "--" is an option, and all that follows it operands. */
  lemma DashesKeepOrder(args: seq<string>) returns (mask: seq<bool>)
    requires args != [] && args[0] == "--"
    ensures Marks(args, mask) && Pick(args, mask, true) == ["--"] && Pick(args, mask, false) == args[1..]
  {
    mask := [true] + seq(|args| - 1, _ => false);
    assert args == ["--"] + args[1..];
    PickConcat(["--"], args[1..], [true], seq(|args| - 1, _ => false), true);
    PickConcat(["--"], args[1..], [true], seq(|args| - 1, _ => false), false);
    PickAll(args[1..], false);
    PickAll(["--"], true);
    assert seq(1, _ => true) == [true];
    assert forall i :: 0 < i < |args| ==> Dashed(args, i);
  }

  /** A first element of k arguments, of one kind, in front of what is marked already. */
  lemma ElementKeepsOrder(args: seq<string>, k: nat, x: bool, rest: seq<bool>) returns (mask: seq<bool>)
    requires 0 < k <= |args| && Marks(args[k..], rest) && (x ==> !NonOption(args[0]))
    requires !x ==> forall i :: 0 <= i < k ==> NonOption(args[i])
    ensures Marks(args, mask)
    ensures Pick(args, mask, x) == args[..k] + Pick(args[k..], rest, x)
    ensures Pick(args, mask, !x) == Pick(args[k..], rest, !x)
  {
    var m := seq(k, _ => x);
    mask := m + rest;
    assert args == args[..k] + args[k..];
    MarksJoin(args[..k], args[k..], rest, x);
    PickConcat(args[..k], args[k..], m, rest, x);
    PickConcat(args[..k], args[k..], m, rest, !x);
    PickAll(args[..k], x);
  }

  /** Options and operands both keep the order of the argument list. */
  lemma {:induction false} ScanKeepsOrder(cfg: Config, args: seq<string>) returns (mask: seq<bool>)
    ensures Marks(args, mask)
    ensures Scan(cfg, args).options == Pick(args, mask, true) && Scan(cfg, args).operands == Pick(args, mask, false)
    decreases |args|
  {
    if args == [] {
      mask := [];
    } else if args[0] == "--" {
      mask := DashesKeepOrder(args);
    } else {
      var x := !NonOption(args[0]);
      var k := if x then Width(Element(cfg, args).1, args) else 1;
      var rest := ScanKeepsOrder(cfg, args[k..]);
      mask := ElementKeepsOrder(args, k, x, rest);
    }
  }

  // ---------------------------------------------------------------- in-place rotation

  /** Where the element that belongs at index k comes from when the adjacent blocks [b, m)
      and [m, t) change places. */
  function Origin(b: nat, m: nat, t: nat, k: nat): (i: nat)
    requires b <= m <= t
    ensures b <= i < t <==> b <= k < t
  {
    if b <= k < b + (t - m) then k + (m - b) else if b + (t - m) <= k < t then k - (t - m) else k
  }

  /** s' is s with the adjacent blocks [b, m) and [m, t) exchanged. */
  ghost predicate Rotated<T>(s: seq<T>, s': seq<T>, b: nat, m: nat, t: nat) {
    && b <= m <= t <= |s| == |s'|
    && forall k {:trigger s'[k]} :: 0 <= k < |s| ==> s'[k] == s[Origin(b, m, t, k)]
  }

  /** Index by index or block by block, it is the same rotation. */
  lemma RotatedBlocks<T>(s: seq<T>, s': seq<T>, b: nat, m: nat, t: nat)
    requires b <= m <= t <= |s|
    ensures Rotated(s, s', b, m, t) <==> s' == s[..b] + s[m..t] + s[b..m] + s[t..]
  {
    var r := s[..b] + s[m..t] + s[b..m] + s[t..];
    assert |r| == |s| && forall k :: 0 <= k < |s| ==> r[k] == s[Origin(b, m, t, k)];
  }

  function Mirror(x: nat, y: nat, len: nat, k: nat): nat
    requires x + len <= y
  {
    if x <= k < x + len then k - x + y else if y <= k < y + len then k - y + x else k
  }

  ghost predicate BlocksSwapped<T>(s: seq<T>, s': seq<T>, x: nat, y: nat, len: nat)
  {
    && x + len <= y && y + len <= |s| == |s'|
    && forall k {:trigger s'[k]} :: 0 <= k < |s| ==> s'[k] == s[Mirror(x, y, len, k)]
  }

  ghost predicate Swapped<T>(s: seq<T>, s': seq<T>, x: nat, y: nat, len: nat) {
    forall v {:trigger Veil(v)} :: v >= 0 ==> BlocksSwapped(s, s', x, y, len)
  }

  lemma SwapStep<T>(s0: seq<T>, s: seq<T>, s': seq<T>, x: nat, y: nat, i: nat)
    requires x + i < y && y + i < |s| && BlocksSwapped(s0, s, x, y, i)
    requires s' == s[x + i := s[y + i]][y + i := s[x + i]]
    ensures BlocksSwapped(s0, s', x, y, i + 1)
  {
    forall k | 0 <= k < |s0|
      ensures s'[k] == s0[Mirror(x, y, i + 1, k)]
    {
      assert s[x + i] == s0[x + i] && s[y + i] == s0[y + i];
      assert k != x + i && k != y + i ==> s'[k] == s[k];
    }
  }

  /** Swaps the disjoint blocks of length `len` that start at `x` and `y`. */
  method SwapBlocks<T>(a: array<T>, x: nat, y: nat, len: nat)
    requires x + len <= y && y + len <= a.Length
    modifies a
    ensures Swapped(old(a[..]), a[..], x, y, len)
  {
    for i := 0 to len
      invariant BlocksSwapped(old(a[..]), a[..], x, y, i)
    {
      ghost var s := a[..];
      var tem := a[x + i];
      a[x + i] := a[y + i];
      a[y + i] := tem;
      SwapStep(old(a[..]), s, a[..], x, y, i);
    }
  }

  /** One round leaves a smaller exchange of the same kind to be done. */
  lemma RoundOrigin(b: nat, m: nat, t: nat, k: nat)
    requires b <= m <= t
    ensures m - b < t - m ==>
      Mirror(b, t - (m - b), m - b, Origin(b, m, t - (m - b), k)) == Origin(b, m, t, k)
    ensures t - m <= m - b ==>
      Mirror(b, m, t - m, Origin(b + (t - m), m, t, k)) == Origin(b, m, t, k)
  {
  }

  /** What is left to do: `goal` is s with the blocks exchanged. */
  ghost predicate Remains<T>(s: seq<T>, goal: seq<T>, b: nat, m: nat, t: nat) {
    b <= m <= t <= |s| && forall v {:trigger Veil(v)} :: v >= 0 ==> Rotated(s, goal, b, m, t)
  }

  lemma RotatedRound<T>(s: seq<T>, s': seq<T>, goal: seq<T>, b: nat, m: nat, t: nat, b': nat, t': nat)
    requires Remains(s, goal, b, m, t)
    requires m - b < t - m ==> b' == b && t' == t - (m - b) && Swapped(s, s', b, t', m - b)
    requires t - m <= m - b ==> b' == b + (t - m) && t' == t && Swapped(s, s', b, m, t - m)
    ensures Remains(s', goal, b', m, t')
  {
    assert Veil(0);
    forall k | 0 <= k < |s|
      ensures goal[k] == s'[Origin(b', m, t', k)]
    {
      RoundOrigin(b, m, t, k);
    }
  }

  lemma RotatedNothing<T>(s: seq<T>, goal: seq<T>, b: nat, m: nat, t: nat)
    requires Remains(s, goal, b, m, t) && (b == m || m == t)
    ensures s == goal
  {
    assert Veil(0);
    assert forall k :: 0 <= k < |s| ==> Origin(b, m, t, k) == k;
  }

  /** Exchange by repeatedly swapping the shorter block with the far end of the longer one. */
  method SwapUntilDone<T>(a: array<T>, b0: nat, m: nat, t0: nat, ghost goal: seq<T>)
    requires Remains(a[..], goal, b0, m, t0)
    modifies a
    ensures a[..] == goal
  {
    var bottom, middle, top := b0, m, t0;
    while top > middle && middle > bottom
      invariant Remains(a[..], goal, bottom, middle, top)
      decreases top - bottom
    {
      ghost var s, b, t := a[..], bottom, top;
      if top - middle > middle - bottom {
        var len := middle - bottom;
        SwapBlocks(a, bottom, top - len, len);
        top := top - len;
      } else {
        var len := top - middle;
        SwapBlocks(a, bottom, middle, len);
        bottom := bottom + len;
      }
      RotatedRound(s, a[..], goal, b, middle, t, bottom, top);
    }
    RotatedNothing(a[..], goal, bottom, middle, top);
  }

  method ExchangeBlocks<T>(a: array<T>, b: nat, m: nat, t: nat)
    requires b <= m <= t <= a.Length
    modifies a
    ensures Rotated(old(a[..]), a[..], b, m, t)
  {
    ghost var s := a[..];
    ghost var goal := s[..b] + s[m..t] + s[b..m] + s[t..];
    RotatedBlocks(s, goal, b, m, t);
    SwapUntilDone(a, b, m, t, goal);
  }

  // ---------------------------------------------------------------- readings of a half-done scan

  function Concat(options: seq<string>, operands: seq<string>, r: Reading): Reading {
    Reading(r.events, options + r.options, operands + r.operands)
  }

  function Reported(r: Reading): Reading
    requires r.events != []
  {
    r.(events := r.events[1..])
  }

  /** `r` is the reading when all options stand in front: s[1..f] options, s[f..o] operands.
      (The quantifier keeps the verifier from unfolding `Scan` wherever this is only passed on.) */
  ghost predicate Split(cfg: Config, s: seq<string>, f: nat, o: nat, r: Reading) {
    && 1 <= f <= o <= |s|
    && forall args {:trigger Scan(cfg, args)} :: args == s[o..] ==> r == Concat(s[1..f], s[f..o], Scan(cfg, args))
  }

  /** `r` is the reading when s[f..l] holds the skipped operands and s[l..o] the options read
      since; `rest` is what is left of a cluster of short options at s[o]. */
  ghost predicate View(cfg: Config, s: seq<string>, f: nat, l: nat, o: nat, rest: string, r: Reading) {
    && 1 <= f <= l <= o <= |s| && (rest != "" ==> o < |s|)
    && forall args {:trigger Resume(cfg, rest, args)} :: args == s[o..] ==>
         r == Concat(s[1..f] + s[l..o], s[f..l], Resume(cfg, rest, args))
  }

  function Resume(cfg: Config, rest: string, args: seq<string>): Reading {
    if rest == "" || args == [] then Scan(cfg, args) else ScanCluster(cfg, rest, args)
  }

  /** The reading of a view has every argument on one of its sides. */
  lemma ViewPartitions(cfg: Config, s: seq<string>, f: nat, l: nat, o: nat, rest: string, r: Reading)
    requires View(cfg, s, f, l, o, rest, r)
    ensures multiset(r.options) + multiset(r.operands) == multiset(s[1..])
  {
    var R := Resume(cfg, rest, s[o..]);
    assert r == Concat(s[1..f] + s[l..o], s[f..l], R);
    ResumePartitions(cfg, rest, s[o..]);
    CutCounts(s, f, l, o);
  }

  lemma CutCounts(s: seq<string>, f: nat, l: nat, o: nat)
    requires 1 <= f <= l <= o <= |s|
    ensures multiset(s[1..]) == multiset(s[1..f] + s[l..o]) + multiset(s[f..l]) + multiset(s[o..])
  {
    assert s[1..] == s[1..f] + s[f..l] + s[l..o] + s[o..];
  }

  lemma ResumePartitions(cfg: Config, rest: string, args: seq<string>)
    ensures var r := Resume(cfg, rest, args); multiset(r.options) + multiset(r.operands) == multiset(args)
  {
    if rest == "" || args == [] {
      ScanPartitions(cfg, args);
    } else {
      var k := Width(Cluster(cfg.optstring, rest, Second(args)).1, args);
      ScanPartitions(cfg, args[k..]);
      assert args == args[..k] + args[k..];
    }
  }

  /** s' is s with the options [l, o) moved in front of the operands [f, l). */
  ghost predicate OptionsInFront(s: seq<string>, s': seq<string>, f: nat, l: nat, o: nat) {
    forall v {:trigger Veil(v)} :: v >= 0 ==> if f == l < o then s' == s else Rotated(s, s', f, l, o)
  }

  lemma MovedForward(cfg: Config, s: seq<string>, s': seq<string>, f: nat, l: nat, o: nat, r: Reading)
    requires View(cfg, s, f, l, o, "", r) && OptionsInFront(s, s', f, l, o)
    ensures |s'| == |s| && s'[0] == s[0]
    ensures Split(cfg, s', if f == l < o then o else f + (o - l), o, r)
  {
    assert Veil(0);
    var f' := if f == l < o then o else f + (o - l);
    assert s'[1..f'] == s[1..f] + s[l..o];
    assert s'[f'..o] == s[f..l];
    assert s'[o..] == s[o..];
    assert Resume(cfg, "", s[o..]) == Scan(cfg, s[o..]);
  }

  lemma StartScan(cfg: Config, s: seq<string>) returns (r: Reading)
    requires s != []
    ensures r == Scan(cfg, s[1..]) && Split(cfg, s, 1, 1, r)
    ensures NeverMinusOne(cfg.longopts) ==> Heard(r.events) == |r.events|
  {
    r := Scan(cfg, s[1..]);
    assert s[1..1] == [];
    if NeverMinusOne(cfg.longopts) {
      ScanCodes(cfg, s[1..]);
    }
  }

  lemma Reassembled(prog: string, s: seq<string>, options: seq<string>, operands: seq<string>)
    requires s != [] && s[0] == prog && s[1..] == options + operands
    ensures s == [prog] + options + operands
  {
    assert s == [s[0]] + s[1..];
    assert [prog] + (options + operands) == [prog] + options + operands;
  }

  lemma StartedAt(cfg: Config, s: seq<string>, o: nat, r: Reading)
    requires Split(cfg, s, o, o, r)
    ensures View(cfg, s, o, o, o, "", r)
  {
    assert s[1..o] + s[o..o] == s[1..o];
    assert Resume(cfg, "", s[o..]) == Scan(cfg, s[o..]);
  }

  lemma OperandSkipped(cfg: Config, s: seq<string>, f: nat, o: nat, r: Reading)
    requires Split(cfg, s, f, o, r) && o < |s| && NonOption(s[o])
    ensures Split(cfg, s, f, o + 1, r)
  {
    var args := s[o..];
    assert args[0] == s[o] && args[1..] == s[o + 1..] && args[0] != "--";
    var R := Scan(cfg, s[o + 1..]);
    assert Scan(cfg, args) == R.(operands := [s[o]] + R.operands);
    assert s[f..o + 1] == s[f..o] + [s[o]];
    assert s[f..o] + ([s[o]] + R.operands) == s[f..o + 1] + R.operands;
  }

  lemma AllSkipped(cfg: Config, s: seq<string>, f: nat, r: Reading)
    requires Split(cfg, s, f, |s|, r)
    ensures r == Reading([], s[1..f], s[f..])
  {
    assert s[|s|..] == [] && s[f..|s|] == s[f..];
    assert Scan(cfg, s[|s|..]) == Reading([], [], []);
  }

  /** s' is s with the element at o moved in front of the operands [f, o). */
  ghost predicate DashesInFront(s: seq<string>, s': seq<string>, f: nat, o: nat) {
    forall v {:trigger Veil(v)} :: v >= 0 ==> if f != o then Rotated(s, s', f, o, o + 1) else s' == s
  }

  lemma DashesMoved(cfg: Config, s: seq<string>, s': seq<string>, f: nat, o: nat, r: Reading)
    requires Split(cfg, s, f, o, r) && o < |s| && s[o] == "--" && DashesInFront(s, s', f, o)
    ensures |s'| == |s| && s'[0] == s[0]
    ensures r == Reading([], s'[1..f + 1], s'[f + 1..])
  {
    assert Veil(0);
    assert s[o..][0] == "--" && s[o..][1..] == s[o + 1..];
    assert Scan(cfg, s[o..]) == Reading([], ["--"], s[o + 1..]);
    assert s'[1..f + 1] == s[1..f] + ["--"];
    assert s'[f + 1..] == s[f..o] + s[o + 1..];
  }

  /** An element at `o` whose last event is `ev` joins the options [l, o) read since, together
      with its detached argument. */
  lemma ElementDone(cfg: Config, s: seq<string>, f: nat, l: nat, o: nat, ev: Event, takes: bool, r: Reading)
    requires 1 <= f <= l <= o < |s| && (takes ==> o + 1 < |s|)
    requires r == Concat(s[1..f] + s[l..o], s[f..l], AfterElement(cfg, [ev], takes, s[o..]))
    ensures r.events != [] && r.events[0] == ev
    ensures View(cfg, s, f, l, o + if takes then 2 else 1, "", Reported(r))
  {
    var k := if takes then 2 else 1;
    var R := Scan(cfg, s[o + k..]);
    CutAt(s, f, l, o, k);
    assert AfterElement(cfg, [ev], takes, s[o..]) == Before([ev], s[o..o + k], R);
    ReportedBefore(s[1..f] + s[l..o], s[f..l], ev, s[o..o + k], R);
  }

  lemma CutAt(s: seq<string>, f: nat, l: nat, o: nat, k: nat)
    requires 1 <= f <= l <= o && o + k <= |s|
    ensures s[o..][k..] == s[o + k..] && s[o..][..k] == s[o..o + k]
    ensures s[1..f] + s[l..o] + s[o..o + k] == s[1..f] + s[l..o + k]
  {
  }

  lemma ReportedBefore(options: seq<string>, operands: seq<string>, ev: Event, elems: seq<string>, R: Reading)
    ensures var r := Concat(options, operands, Before([ev], elems, R));
            r.events != [] && r.events[0] == ev && Reported(r) == Concat(options + elems, operands, R)
  {
    assert ([ev] + R.events)[1..] == R.events;
    assert options + (elems + R.options) == options + elems + R.options;
  }

  lemma LongDone(cfg: Config, s: seq<string>, f: nat, o: nat, r: Reading)
    requires Split(cfg, s, f, o, r) && o < |s| && !NonOption(s[o]) && IsLong(s[o]) && s[o] != "--"
    ensures var (ev, takes) := LongEvent(cfg, s[o][2..], Second(s[o..]));
            && (takes ==> o + 1 < |s|) && r.events != [] && r.events[0] == ev
            && View(cfg, s, f, o, o + if takes then 2 else 1, "", Reported(r))
  {
    var (ev, takes) := LongEvent(cfg, s[o][2..], Second(s[o..]));
    assert s[1..f] + s[o..o] == s[1..f] && s[o..][0] == s[o];
    assert Scan(cfg, s[o..]) == AfterElement(cfg, [ev], takes, s[o..]);
    ElementDone(cfg, s, f, o, o, ev, takes, r);
  }

  lemma AtCluster(cfg: Config, s: seq<string>, f: nat, o: nat, r: Reading)
    requires Split(cfg, s, f, o, r) && o < |s| && !NonOption(s[o]) && !IsLong(s[o])
    ensures View(cfg, s, f, o, o, s[o][1..], r)
  {
    assert s[1..f] + s[o..o] == s[1..f] && s[o..][0] == s[o];
    assert Scan(cfg, s[o..]) == ScanCluster(cfg, s[o][1..], s[o..]);
  }

  /** Whether the cluster goes on after its first character. */
  predicate GoesOn(cfg: Config, rest: string)
    requires rest != ""
  {
    KindOf(cfg.optstring, rest[0]) in {Unknown, Bare} && rest[1..] != ""
  }

  lemma ShortGoesOn(cfg: Config, s: seq<string>, f: nat, l: nat, o: nat, rest: string, r: Reading)
    requires View(cfg, s, f, l, o, rest, r) && rest != "" && GoesOn(cfg, rest)
    ensures var evs := Cluster(cfg.optstring, rest, Second(s[o..])).0;
            && evs != [] && r.events != [] && r.events[0] == evs[0]
            && View(cfg, s, f, l, o, rest[1..], Reported(r))
  {
    ClusterContinues(cfg, rest, s[o..]);
    assert r == Concat(s[1..f] + s[l..o], s[f..l], Resume(cfg, rest, s[o..]));
    assert Reported(r) == Concat(s[1..f] + s[l..o], s[f..l], Resume(cfg, rest[1..], s[o..]));
  }

  /** ShortGoesOn and ShortEnds together. */
  lemma ShortRead(cfg: Config, s: seq<string>, f: nat, l: nat, o: nat, rest: string, r: Reading)
    requires View(cfg, s, f, l, o, rest, r) && rest != ""
    ensures var (evs, takes) := Cluster(cfg.optstring, rest, Second(s[o..]));
            && evs != [] && r.events != [] && r.events[0] == evs[0]
            && if GoesOn(cfg, rest) then View(cfg, s, f, l, o, rest[1..], Reported(r))
               else (takes ==> o + 1 < |s|) && View(cfg, s, f, l, o + if takes then 2 else 1, "", Reported(r))
  {
    if GoesOn(cfg, rest) {
      ShortGoesOn(cfg, s, f, l, o, rest, r);
    } else {
      ShortEnds(cfg, s, f, l, o, rest, r);
    }
  }

  lemma ShortEnds(cfg: Config, s: seq<string>, f: nat, l: nat, o: nat, rest: string, r: Reading)
    requires View(cfg, s, f, l, o, rest, r) && rest != "" && !GoesOn(cfg, rest)
    ensures var (evs, takes) := Cluster(cfg.optstring, rest, Second(s[o..]));
            && (takes ==> o + 1 < |s|) && evs != [] && r.events != [] && r.events[0] == evs[0]
            && View(cfg, s, f, l, o + if takes then 2 else 1, "", Reported(r))
  {
    var (evs, takes) := Cluster(cfg.optstring, rest, Second(s[o..]));
    assert r == Concat(s[1..f] + s[l..o], s[f..l], Resume(cfg, rest, s[o..]));
    ClusterEnds(cfg, rest, s[o..]);
    ElementDone(cfg, s, f, l, o, evs[0], takes, r);
  }

  /** Reading on in the same cluster. */
  lemma ClusterContinues(cfg: Config, rest: string, args: seq<string>)
    requires args != [] && rest != "" && KindOf(cfg.optstring, rest[0]) in {Unknown, Bare}
    ensures var r, r' := ScanCluster(cfg, rest, args), ScanCluster(cfg, rest[1..], args);
            var evs := Cluster(cfg.optstring, rest, Second(args)).0;
            evs != [] && r == r'.(events := [evs[0]] + r'.events)
  {
    var (evs', takes) := Cluster(cfg.optstring, rest[1..], Second(args));
    var ev := Cluster(cfg.optstring, rest, Second(args)).0[0];
    assert Cluster(cfg.optstring, rest, Second(args)) == ([ev] + evs', takes);
    var k := Width(takes, args);
    BeforeOne(ev, evs', args[..k], Scan(cfg, args[k..]));
  }

  lemma BeforeOne(ev: Event, evs: seq<Event>, elems: seq<string>, r: Reading)
    ensures Before([ev] + evs, elems, r) == Before(evs, elems, r).(events := [ev] + Before(evs, elems, r).events)
  {
    assert [ev] + evs + r.events == [ev] + (evs + r.events);
  }

  /** The cluster is used up, or its last option has taken an argument. */
  lemma ClusterEnds(cfg: Config, rest: string, args: seq<string>)
    requires args != [] && rest != "" && !GoesOn(cfg, rest)
    ensures var (evs, takes) := Cluster(cfg.optstring, rest, Second(args));
            && |evs| == 1 && (takes ==> |args| > 1)
            && ScanCluster(cfg, rest, args) == AfterElement(cfg, [evs[0]], takes, args)
  {
    var (evs, takes) := Cluster(cfg.optstring, rest, Second(args));
    assert Cluster(cfg.optstring, "", Second(args)) == ([], false);
    assert |evs| == 1 && evs == [evs[0]];
  }

  function Observed(evs: seq<Event>): seq<(int, Option<string>)> {
    seq(|evs|, i requires 0 <= i < |evs| => (evs[i].code, evs[i].optarg))
  }

  lemma ObservedPrefix(evs: seq<Event>, n: nat)
    requires n < |evs|
    ensures Observed(evs[..n + 1]) == Observed(evs[..n]) + [(evs[n].code, evs[n].optarg)]
  {
  }

  /** How many events the option loop hears: up to the first whose code is -1, which it takes for
      the end of the scan. */
  function Heard(evs: seq<Event>): (n: nat)
    ensures n <= |evs| && (n < |evs| ==> evs[n].code == -1)
    ensures forall i :: 0 <= i < n ==> evs[i].code != -1
  {
    if evs == [] || evs[0].code == -1 then 0 else 1 + Heard(evs[1..])
  }

  /** The first k characters of option i's name are a way to make it report -1. */
  predicate ReportsMinusOne(opts: seq<LongOption>, i: nat, k: nat)
    requires i < |opts| && k <= |opts[i].name|
  {
    var o, name := opts[i], opts[i].name[..k];
    && o.flag == 0 && o.val == -1 && '=' !in name && LookUp(name, opts) == Found(i)
    && (k > 0 || o.hasArg != NO_ARGUMENT)
  }

  predicate NeverMinusOne(opts: seq<LongOption>) {
    forall i: nat, k: nat :: i < |opts| && k <= |opts[i].name| ==> !ReportsMinusOne(opts, i, k)
  }

  /** An option with the value -1 ends the option loop before the scan is over: here, at once. */
  lemma MinusOneEndsLoop()
    ensures var cfg := Config("", [LongOption("end", NO_ARGUMENT, 0, -1)]);
            var evs := Scan(cfg, ["--end", "--end"]).events;
            |evs| == 2 && Heard(evs) == 0
  {
    var cfg := Config("", [LongOption("end", NO_ARGUMENT, 0, -1)]);
    var e := Event(-1, None, None, Some(0), None);
    var args := ["--end", "--end"];
    assert ExactIndex("end", cfg.longopts) == 0;
    LongText(cfg, "end", "end", Some("--end"));
    LongText(cfg, "end", "end", None);
    assert "--end"[2..] == "end" && args[1..] == ["--end"] && ["--end"][1..] == [];
    assert Element(cfg, args) == ([e], false) && Element(cfg, ["--end"]) == ([e], false);
    assert Scan(cfg, ["--end"]).events == [e] + Scan(cfg, []).events;
    assert Scan(cfg, args).events == [e] + Scan(cfg, ["--end"]).events;
  }

  /** Exactly which tables keep the option loop going to the end of every scan: those of which no
      abbreviation reports -1. It is enough that no option has that value. */
  lemma HeardIff(cfg: Config)
    ensures (forall args :: Heard(Scan(cfg, args).events) == |Scan(cfg, args).events|) <==> NeverMinusOne(cfg.longopts)
    ensures (forall o :: o in cfg.longopts ==> o.flag != 0 || o.val != -1) ==> NeverMinusOne(cfg.longopts)
  {
    var opts := cfg.longopts;
    if NeverMinusOne(opts) {
      forall args ensures Heard(Scan(cfg, args).events) == |Scan(cfg, args).events| {
        ScanCodes(cfg, args);
      }
    } else {
      var i: nat, k: nat :| i < |opts| && k <= |opts[i].name| && ReportsMinusOne(opts, i, k);
      var args := Unheard(cfg, i, k);
    }
  }

  /** An argument list that makes option i report -1 first. */
  lemma Unheard(cfg: Config, i: nat, k: nat) returns (args: seq<string>)
    requires i < |cfg.longopts| && k <= |cfg.longopts[i].name| && ReportsMinusOne(cfg.longopts, i, k)
    ensures Heard(Scan(cfg, args).events) < |Scan(cfg, args).events|
  {
    var o, name := cfg.longopts[i], cfg.longopts[i].name[..k];
    var text := if o.hasArg == NO_ARGUMENT then name else name + "=";
    LongText(cfg, name, text, None);
    args := ["--" + text];
    assert args[0][2..] == text && args[0] != "--";
    var ev := LongEvent(cfg, text, None).0;
    assert Element(cfg, args) == ([ev], false);
    assert Scan(cfg, args).events == [ev] + Scan(cfg, args[1..]).events;
  }

  lemma LongText(cfg: Config, name: string, text: string, next: Option<string>)
    requires '=' !in name && LookUp(name, cfg.longopts).Found? && (text == name || text == name + "=")
    ensures LongEvent(cfg, text, next) == FoundEvent(cfg, LookUp(name, cfg.longopts).index, text, |name|, next)
  {
    IndexOfBehind(name, text[|name|..], '=');
    assert text == name + text[|name|..] && text[..|name|] == name;
  }

  lemma {:induction false} IndexOfBehind(s: string, t: string, c: char)
    requires c !in s
    ensures IndexOf(s + t, c) == |s| + IndexOf(t, c)
  {
    if s == "" {
      assert s + t == t;
    } else {
      assert (s + t)[1..] == s[1..] + t && (s + t)[0] == s[0];
      IndexOfBehind(s[1..], t, c);
    }
  }

  lemma {:induction false} ScanCodes(cfg: Config, args: seq<string>)
    requires NeverMinusOne(cfg.longopts)
    ensures forall e :: e in Scan(cfg, args).events ==> e.code != -1
    decreases |args|
  {
    if args == [] || args[0] == "--" {
    } else if NonOption(args[0]) {
      ScanCodes(cfg, args[1..]);
    } else {
      ElementCodes(cfg, args);
      ScanCodes(cfg, args[Width(Element(cfg, args).1, args)..]);
    }
  }

  lemma ElementCodes(cfg: Config, args: seq<string>)
    requires NeverMinusOne(cfg.longopts) && args != [] && !NonOption(args[0]) && args[0] != "--"
    ensures forall e :: e in Element(cfg, args).0 ==> e.code != -1
  {
    if IsLong(args[0]) {
      LongCode(cfg, args[0][2..], Second(args));
    } else {
      ClusterCodes(cfg.optstring, args[0][1..], Second(args));
    }
  }

  lemma LongCode(cfg: Config, text: string, next: Option<string>)
    requires NeverMinusOne(cfg.longopts) && text != ""
    ensures LongEvent(cfg, text, next).0.code != -1
  {
    var name := text[..IndexOf(text, '=')];
    match LookUp(name, cfg.longopts)
    case Absent =>
    case Ambiguous =>
    case Found(i) =>
      assert cfg.longopts[i].name[..|name|] == name;
      assert !ReportsMinusOne(cfg.longopts, i, |name|);
  }

  lemma {:induction false} ClusterCodes(optstring: string, rest: string, next: Option<string>)
    ensures forall e :: e in Cluster(optstring, rest, next).0 ==> e.code != -1
  {
    if rest != "" { ClusterCodes(optstring, rest[1..], next); }
  }

  // ---------------------------------------------------------------- the scanner

  /** struct custom_getopt_data together with the argv it permutes. A char pointer into an
      argument is modelled by the text it points at. */
  class Scanner {
    const cfg: Config
    const argv: array<string>
    var optind: nat
    var optopt: int
    var optarg: Option<string>
    var longind: int
    var flags: map<nat, int>
    var initialized: bool
    var nextchar: Option<string>
    var firstNonopt: nat
    var lastNonopt: nat

    constructor (cfg: Config, argv: array<string>)
      ensures this.cfg == cfg && this.argv == argv && optind == 0 && !initialized
    {
      this.cfg := cfg;
      this.argv := argv;
      optind, optopt, optarg, longind, flags := 0, '?' as int, None, 0, map[];
      initialized, nextchar, firstNonopt, lastNonopt := false, None, 0, 0;
    }

    /** What is left of the cluster of short options being read. */
    function Unread(): string
      reads this
    {
      if nextchar == None then "" else nextchar.value
    }

    /** Skipped operands sit in [firstNonopt, lastNonopt); the options read since they were
        skipped follow them up to optind, and everything from optind on is untouched. A caller
        may have moved optind back, in which case both bounds stop at optind. */
    predicate Valid()
      reads this, argv
    {
      && 1 <= firstNonopt <= lastNonopt && 1 <= optind <= argv.Length
      && (Unread() != "" ==>
            lastNonopt <= optind < argv.Length && !NonOption(argv[optind]) && !IsLong(argv[optind]))
    }

    function Clipped(i: nat): nat
      reads this
    {
      if i > optind then optind else i
    }

    /** `r` is what the whole command line will have been read as, minus the events already reported. */
    ghost predicate Reads(r: Reading)
      reads this, argv
    {
      && Valid()
      && View(cfg, argv[..], Clipped(firstNonopt), Clipped(lastNonopt), optind, Unread(), r)
    }

    /** argv holds the options first and optind points at the first operand. */
    ghost predicate Separated(r: Reading)
      reads this, argv
    {
      && argv.Length >= 1 && argv[..][1..] == r.options + r.operands
      && optind == 1 + |r.options|
    }

    /** pocld/cmdline.c exchange: rotates the skipped operands behind the options read since. */
    method Exchange()
      requires firstNonopt <= lastNonopt <= optind <= argv.Length
      modifies this`firstNonopt, this`lastNonopt, argv
      ensures firstNonopt == old(firstNonopt) + (optind - old(lastNonopt)) && lastNonopt == optind
      ensures Rotated(old(argv[..]), argv[..], old(firstNonopt), old(lastNonopt), optind)
    {
      ExchangeBlocks(argv, firstNonopt, lastNonopt, optind);
      firstNonopt := firstNonopt + (optind - lastNonopt);
      lastNonopt := optind;
    }

    /** The head of shuffle_argv: all options read so far move in front of the skipped operands. */
    method MoveOptionsForward(ghost r: Reading)
      requires Reads(r) && Unread() == ""
      modifies this`firstNonopt, this`lastNonopt, argv
      ensures argv[..][0] == old(argv[..][0])
      ensures Split(cfg, argv[..], firstNonopt, optind, r)
    {
      if lastNonopt > optind { lastNonopt := optind; }
      if firstNonopt > optind { firstNonopt := optind; }
      ghost var s, f, l := argv[..], firstNonopt, lastNonopt;
      MoveSkipped();
      MovedForward(cfg, s, argv[..], f, l, optind, r);
    }

    method MoveSkipped()
      requires firstNonopt <= lastNonopt <= optind <= argv.Length
      modifies this`firstNonopt, this`lastNonopt, argv
      ensures OptionsInFront(old(argv[..]), argv[..], old(firstNonopt), old(lastNonopt), optind)
      ensures firstNonopt ==
              if old(firstNonopt == lastNonopt < optind) then optind else old(firstNonopt) + (optind - old(lastNonopt))
    {
      if firstNonopt != lastNonopt && lastNonopt != optind {
        Exchange();
      } else if lastNonopt != optind {
        firstNonopt := optind;
      }
      assert old(firstNonopt == lastNonopt < optind)
          || Rotated(old(argv[..]), argv[..], old(firstNonopt), old(lastNonopt), optind);
    }

    /** Skips operands, extending the skipped range up to optind. */
    method SkipOperands(ghost r: Reading)
      requires 1 <= firstNonopt <= optind <= argv.Length
      requires Split(cfg, argv[..], firstNonopt, optind, r)
      modifies this`optind, this`lastNonopt
      ensures firstNonopt <= optind == lastNonopt <= argv.Length
      ensures Split(cfg, argv[..], firstNonopt, optind, r)
      ensures optind < argv.Length ==> !NonOption(argv[optind])
    {
      while optind < argv.Length && NonOption(argv[optind])
        invariant firstNonopt <= optind <= argv.Length
        invariant Split(cfg, argv[..], firstNonopt, optind, r)
      {
        OperandSkipped(cfg, argv[..], firstNonopt, optind, r);
        optind := optind + 1;
      }
      lastNonopt := optind;
    }

    /** The element `--` joins the options; everything behind it is an operand. */
    method EndOfOptions(ghost r: Reading)
      requires 1 <= firstNonopt <= lastNonopt == optind < argv.Length && argv[optind] == "--"
      requires Split(cfg, argv[..], firstNonopt, optind, r)
      modifies this`optind, this`firstNonopt, this`lastNonopt, argv
      ensures 1 <= firstNonopt <= lastNonopt == optind == argv.Length
      ensures argv[..][0] == old(argv[..][0])
      ensures r == Reading([], argv[..][1..firstNonopt], argv[..][firstNonopt..])
    {
      ghost var s, f, o := argv[..], firstNonopt, optind;
      optind := optind + 1;
      MoveDashes();
      ghost var s' := argv[..];
      DashesMoved(cfg, s, s', f, o, r);
      lastNonopt := argv.Length;
      optind := argv.Length;
      assert argv[..] == s';
    }

    method MoveDashes()
      requires firstNonopt <= lastNonopt < optind == lastNonopt + 1 <= argv.Length
      modifies this`firstNonopt, this`lastNonopt, argv
      ensures firstNonopt == old(firstNonopt) + 1
      ensures DashesInFront(old(argv[..]), argv[..], old(firstNonopt), old(lastNonopt))
    {
      if firstNonopt != lastNonopt && lastNonopt != optind {
        Exchange();
      } else if firstNonopt == lastNonopt {
        firstNonopt := optind;
      }
    }

    /** shuffle_argv up to the point where the next option element, or the end, is in sight. */
    method Advance(ghost r: Reading)
      requires Reads(r) && Unread() == ""
      modifies this`optind, this`firstNonopt, this`lastNonopt, argv
      ensures argv[..][0] == old(argv[..][0])
      ensures 1 <= firstNonopt <= lastNonopt == optind <= argv.Length
      ensures optind < argv.Length ==> !NonOption(argv[optind]) && argv[optind] != "--"
      ensures optind < argv.Length ==> Split(cfg, argv[..], firstNonopt, optind, r)
      ensures optind == argv.Length ==> r == Reading([], argv[..][1..firstNonopt], argv[..][firstNonopt..])
    {
      MoveOptionsForward(r);
      SkipOperands(r);
      if optind != argv.Length && argv[optind] == "--" {
        EndOfOptions(r);
      } else if optind == argv.Length {
        AllSkipped(cfg, argv[..], firstNonopt, r);
      }
    }

    /** The scan stands in front of an option element whose punctuation has been skipped. */
    ghost predicate AtOption(r: Reading)
      reads this, argv
    {
      && 1 <= firstNonopt <= lastNonopt == optind < argv.Length
      && !NonOption(argv[optind]) && argv[optind] != "--"
      && nextchar == Some(argv[optind][if IsLong(argv[optind]) then 2 else 1..])
      && Split(cfg, argv[..], firstNonopt, optind, r)
    }

    /** shuffle_argv: 0 to go on with the option element at optind, -1 when the scan is over. */
    method ShuffleArgv(ghost r: Reading) returns (ret: int)
      requires Reads(r) && Unread() == ""
      modifies this`optind, this`nextchar, this`firstNonopt, this`lastNonopt, argv
      ensures argv[..][0] == old(argv[..][0])
      ensures ret == 0 || ret == -1
      ensures ret == -1 ==> r.events == [] && Separated(r)
      ensures ret == 0 ==> AtOption(r)
    {
      Advance(r);
      if optind == argv.Length {
        if firstNonopt != lastNonopt {
          optind := firstNonopt;
        }
        assert argv[..][1..] == argv[..][1..firstNonopt] + argv[..][firstNonopt..];
        return -1;
      }
      if NonOption(argv[optind]) {
        assert false;  // every operand in front has been skipped
      }
      nextchar := Some(argv[optind][1 + (if argv[optind][1] == '-' then 1 else 0)..]);
      return 0;
    }

    /** What a call that reports `ev` leaves in the variables the caller looks at. */
    ghost predicate Reports(ev: Event, ret: int, optopt0: int, longind0: int, flags0: map<nat, int>)
      reads this
    {
      && ret == ev.code && optarg == ev.optarg
      && optopt == (if ev.optopt.Some? then ev.optopt.value else optopt0)
      && longind == (if ev.longind.Some? then ev.longind.value else longind0)
      && flags == (if ev.flagWrite.Some? then flags0[ev.flagWrite.value.0 := ev.flagWrite.value.1] else flags0)
    }

    /** The search loop of check_long_opt. */
    method FindLong(name: string) returns (l: Lookup)
      ensures l == LookUp(name, cfg.longopts)
    {
      var pfound, exact, ambig := None, false, false;
      ghost var opts := cfg.longopts;
      var i := 0;
      while i < |cfg.longopts|
        invariant 0 <= i <= |opts| && !exact
        invariant forall j :: 0 <= j < i ==> opts[j].name != name
        invariant pfound == None ==> !ambig && forall j :: 0 <= j < i ==> !Abbreviates(name, opts[j])
        invariant pfound.Some? ==> 0 <= pfound.value < i && pfound.value == PrefixIndex(name, opts)
        invariant pfound.Some? ==>
                    (ambig <==> exists j :: pfound.value < j < i && Abbreviates(name, opts[j])
                                            && !SameAction(opts[pfound.value], opts[j]))
      {
        var p := cfg.longopts[i];
        if Abbreviates(name, p) {
          if |name| == |p.name| {
            pfound, exact := Some(i), true;
            break;
          } else if pfound == None {
            pfound := Some(i);
          } else if !SameAction(cfg.longopts[pfound.value], p) {
            ambig := true;
          }
        }
        i := i + 1;
      }
      l := if ambig && !exact then Ambiguous else if pfound.Some? then Found(pfound.value) else Absent;
    }

    /** check_long_opt. */
    method CheckLong() returns (ret: int)
      requires optind < argv.Length && nextchar.Some? && optarg == None
      modifies this`optind, this`optopt, this`optarg, this`longind, this`flags, this`nextchar
      ensures var (ev, takes) := LongEvent(cfg, old(nextchar).value, Second(argv[..][old(optind)..]));
              && Reports(ev, ret, old(optopt), old(longind), old(flags))
              && optind == old(optind) + if takes then 2 else 1
      ensures Unread() == ""
    {
      var text := nextchar.value;
      var nameend := IndexOf(text, '=');
      var l := FindLong(text[..nameend]);
      match l
      case Absent =>
        nextchar := Some("");
        optind := optind + 1;
        optopt := 0;
        return '?' as int;
      case Ambiguous =>
        nextchar := Some("");
        optind := optind + 1;
        optopt := 0;
        return '?' as int;
      case Found(i) =>
        ret := TakeLong(i, text, nameend);
    }

    /** The part of check_long_opt that follows the search, when an option has been found. */
    method TakeLong(i: nat, text: string, nameend: nat) returns (ret: int)
      requires optind < argv.Length && optarg == None && i < |cfg.longopts| && nameend <= |text|
      modifies this`optind, this`optopt, this`optarg, this`longind, this`flags, this`nextchar
      ensures var (ev, takes) := FoundEvent(cfg, i, text, nameend, Second(argv[..][old(optind)..]));
              && Reports(ev, ret, old(optopt), old(longind), old(flags))
              && optind == old(optind) + if takes then 2 else 1
      ensures Unread() == ""
    {
      var found := cfg.longopts[i];
      optind := optind + 1;
      if nameend < |text| {
        if found.hasArg != NO_ARGUMENT {
          optarg := Some(text[nameend + 1..]);
        } else {
          nextchar := Some("");
          optopt := found.val;
          return '?' as int;
        }
      } else if found.hasArg == REQUIRED_ARGUMENT {
        if optind < argv.Length {
          optarg := Some(argv[optind]);
          optind := optind + 1;
        } else {
          nextchar := Some("");
          optopt := found.val;
          return MissingCode(cfg.optstring);
        }
      }
      nextchar := Some("");
      longind := i;
      if found.flag != 0 {
        flags := flags[found.flag := found.val];
        return 0;
      }
      return found.val;
    }

    /** check_short_opt: one character of a cluster. */
    method CheckShort() returns (ret: int)
      requires optind < argv.Length && Unread() != "" && optarg == None
      modifies this`optind, this`optopt, this`optarg, this`nextchar
      ensures var (evs, takes) := Cluster(cfg.optstring, old(nextchar).value, Second(argv[..][old(optind)..]));
              && Reports(evs[0], ret, old(optopt), longind, flags)
              && if GoesOn(cfg, old(nextchar).value) then Unread() == old(nextchar).value[1..] && optind == old(optind)
                 else Unread() == "" && optind == old(optind) + if takes then 2 else 1
    {
      var c := nextchar.value[0];
      nextchar := Some(nextchar.value[1..]);
      var temp := IndexOf(cfg.optstring, c);
      if nextchar.value == "" {
        optind := optind + 1;
      }
      if temp == |cfg.optstring| || c == ':' {
        optopt := c as int;
        return '?' as int;
      }
      ret := c as int;
      if CharAt(cfg.optstring, temp + 1) == ':' {
        if CharAt(cfg.optstring, temp + 2) == ':' {
          if nextchar.value != "" {
            optarg := nextchar;
            optind := optind + 1;
          } else {
            optarg := None;
          }
          nextchar := None;
        } else {
          if nextchar.value != "" {
            optarg := nextchar;
            optind := optind + 1;
          } else if optind == argv.Length {
            optopt := c as int;
            ret := MissingCode(cfg.optstring);
          } else {
            optarg := Some(argv[optind]);
            optind := optind + 1;
          }
          nextchar := None;
        }
      }
    }

    method LongOptionCall(ghost r: Reading) returns (ret: int)
      requires AtOption(r) && IsLong(argv[optind]) && optarg == None
      modifies this`optind, this`optopt, this`optarg, this`longind, this`flags, this`nextchar
      ensures r.events != [] && Reads(Reported(r))
      ensures Reports(r.events[0], ret, old(optopt), old(longind), old(flags))
    {
      LongDone(cfg, argv[..], firstNonopt, optind, r);
      ret := CheckLong();
    }

    method ShortOptionCall(ghost r: Reading) returns (ret: int)
      requires Reads(r) && Unread() != "" && optarg == None
      modifies this`optind, this`optopt, this`optarg, this`nextchar
      ensures r.events != [] && Reads(Reported(r))
      ensures Reports(r.events[0], ret, old(optopt), longind, flags)
    {
      ShortRead(cfg, argv[..], firstNonopt, lastNonopt, optind, nextchar.value, r);
      ret := CheckShort();
      assert View(cfg, argv[..], firstNonopt, lastNonopt, optind, Unread(), Reported(r));
    }

    /** getopt_internal_r once the scanner is set up. */
    method NextEvent(ghost r: Reading) returns (ret: int)
      requires Reads(r) && optarg == None
      modifies this`optind, this`optopt, this`optarg, this`longind, this`flags,
               this`nextchar, this`firstNonopt, this`lastNonopt, argv
      ensures argv[..][0] == old(argv[..][0])
      ensures r.events == [] ==> ret == -1 && Separated(r)
      ensures r.events != [] ==> Reads(Reported(r))
      ensures r.events != [] ==> Reports(r.events[0], ret, old(optopt), old(longind), old(flags))
    {
      if nextchar == None || nextchar.value == "" {
        ret := ShuffleArgv(r);
        if ret != 0 {
          return;
        }
        if argv[optind][1] == '-' {
          ret := LongOptionCall(r);
          return;
        }
        AtCluster(cfg, argv[..], firstNonopt, optind, r);
      }
      ret := ShortOptionCall(r);
    }

    /** Before the first call nothing is set up; getopt then starts at argv[1], or at optind. */
    predicate Fresh()
      reads this
    {
      (optind == 0 || !initialized) && optind <= argv.Length
    }

    /** `r` is the reading the scanner stands for, set up or not. */
    ghost predicate Promises(r: Reading)
      reads this, argv
    {
      if Fresh() then
        var start := if optind == 0 then 1 else optind;
        Split(cfg, argv[..], start, start, r)
      else Reads(r)
    }

    /** custom_getopt_initialize and the lines that decide to call it. */
    method Initialize(ghost r: Reading)
      requires argv.Length >= 1 && Promises(r)
      modifies this`optind, this`firstNonopt, this`lastNonopt, this`nextchar, this`initialized
      ensures initialized && Reads(r)
    {
      if optind == 0 || !initialized {
        if optind == 0 {
          optind := 1;
        }
        firstNonopt, lastNonopt := optind, optind;
        nextchar := None;
        initialized := true;
        StartedAt(cfg, argv[..], optind, r);
      }
    }

    /** Nothing is lost from argv: besides the program name it holds the reading's options and operands. */
    lemma HoldsArguments(r: Reading)
      requires Reads(r) || Separated(r)
      ensures multiset(argv[..]) == multiset{argv[..][0]} + multiset(r.options) + multiset(r.operands)
    {
      if Reads(r) {
        ViewPartitions(cfg, argv[..], Clipped(firstNonopt), Clipped(lastNonopt), optind, Unread(), r);
      }
      assert argv[..] == [argv[..][0]] + argv[..][1..];
    }

    /** getopt_internal_r: the next event of the reading, or -1 with argv separated. Either way argv is a
        permutation of what it was. */
    method Getopt(ghost r: Reading) returns (ret: int)
      requires argv.Length >= 1 ==> Promises(r)
      modifies this, argv
      ensures argv.Length == 0 ==> ret == -1
      ensures multiset(argv[..]) == multiset(old(argv[..]))
      ensures argv.Length >= 1 ==> argv[..][0] == old(argv[..][0])
      ensures argv.Length >= 1 && r.events == [] ==> ret == -1 && Separated(r)
      ensures argv.Length >= 1 && r.events != [] ==> initialized && Reads(Reported(r))
      ensures argv.Length >= 1 && r.events != [] ==>
                Reports(r.events[0], ret, old(optopt), old(longind), old(flags))
    {
      if argv.Length < 1 {
        return -1;
      }
      optarg := None;
      Initialize(r);
      HoldsArguments(r);
      ret := NextEvent(r);
      HoldsArguments(if r.events == [] then r else Reported(r));
    }

    /** The whole scan, as the option loop of cmdline_parser_internal drives it. The loop takes an
        event with code -1 for the end: then the scanner has read so far and no further. No option
        of pocld has that value. */
    method ScanAll() returns (seen: seq<(int, Option<string>)>)
      requires optind == 0
      modifies this, argv
      ensures multiset(argv[..]) == multiset(old(argv[..]))
      ensures argv.Length == 0 ==> seen == []
      ensures argv.Length > 0 ==>
                var r := Scan(cfg, old(argv[..])[1..]);
                var n := Heard(r.events);
                && |seen| == n && (forall i :: 0 <= i < n ==> seen[i] == (r.events[i].code, r.events[i].optarg))
                && (NeverMinusOne(cfg.longopts) ==> n == |r.events|)
                && (n == |r.events| ==>
                      argv[..] == [old(argv[..])[0]] + r.options + r.operands && optind == 1 + |r.options|)
                && (n < |r.events| ==> argv[..][0] == old(argv[..])[0] && Reads(r.(events := r.events[n + 1..])))
    {
      if argv.Length == 0 {
        return [];
      }
      ghost var s := argv[..];
      ghost var r := StartScan(cfg, s);
      seen := CallUntilDone(r);
      if Heard(r.events) == |r.events| {
        Reassembled(s[0], argv[..], r.options, r.operands);
      }
    }

    method CallUntilDone(ghost r: Reading) returns (seen: seq<(int, Option<string>)>)
      requires argv.Length >= 1 && Promises(r)
      modifies this, argv
      ensures argv[..][0] == old(argv[..][0]) && multiset(argv[..]) == multiset(old(argv[..]))
      ensures var n := Heard(r.events);
              && seen == Observed(r.events[..n])
              && if n == |r.events| then Separated(r) else Reads(r.(events := r.events[n + 1..]))
    {
      seen := [];
      ghost var n := 0;
      ghost var all := Heard(r.events);
      var c := 0;
      while c != -1
        invariant n <= all && seen == Observed(r.events[..n])
        invariant argv[..][0] == old(argv[..][0]) && multiset(argv[..]) == multiset(old(argv[..]))
        invariant c != -1 ==> Promises(r.(events := r.events[n..]))
        invariant c == -1 ==>
                    n == all && if n == |r.events| then Separated(r) else Reads(r.(events := r.events[n + 1..]))
        decreases c != -1, all - n
      {
        ghost var rest := r.(events := r.events[n..]);
        c := Getopt(rest);
        assert n < |r.events| ==> Reported(rest) == r.(events := r.events[n + 1..]);
        if c != -1 {
          ObservedPrefix(r.events, n);
          seen := seen + [(c, optarg)];
          n := n + 1;
        }
      }
    }
  }
}
