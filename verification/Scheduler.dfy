/** The dependency scheduler of pocld/cmd_queue.cc: CommandQueue::push, notify and ReadyToRun, with
    remapWaitlist and notifyEvent of pocld/shared_cl_context.cc. Events are known by number; the
    event map gives different ids different events. */
module Scheduler {
  import opened Veils
  import opened Counting

  /** A Request with its ClientWaitlist (ids) and its LocalWaitlist (events). */
  datatype Request = Request(tag: nat, waitlist: seq<nat>, local: seq<nat>)

  /** ReadyToRun. */
  predicate Ready(r: Request) {
    |r.local| == |r.waitlist|
  }

  /** The events of the ids that are registered, in order. */
  function Mapped(ids: seq<nat>, events: map<nat, nat>): seq<nat> {
    if ids == [] then []
    else Mapped(ids[..|ids| - 1], events) + if ids[|ids| - 1] in events then [events[ids[|ids| - 1]]] else []
  }

  method RemapWaitlist(ids: seq<nat>, events: map<nat, nat>) returns (v: seq<nat>)
    ensures v == Mapped(ids, events)
  {
    v := [];
    for i := 0 to |ids|
      invariant v == Mapped(ids[..i], events)
    {
      assert ids[..i + 1][..i] == ids[..i];
      if ids[i] in events {
        v := v + [events[ids[i]]];
      }
    }
    assert ids[..|ids|] == ids;
  }

  /** r after a notification: the event is added once, if it is waited for and missing. */
  function Noted(r: Request, id: nat, event: nat): Request {
    if id in r.waitlist && event !in r.local then r.(local := r.local + [event]) else r
  }

  /** The loops over ClientWaitlist and LocalWaitlist in notify. */
  method Note(r: Request, id: nat, event: nat) returns (r': Request)
    ensures r' == Noted(r, id, event)
  {
    r' := r;
    for i := 0 to |r.waitlist|
      invariant r' == if id in r.waitlist[..i] && event !in r.local then r.(local := r.local + [event]) else r
    {
      assert r.waitlist[..i + 1] == r.waitlist[..i] + [r.waitlist[i]];
      if r.waitlist[i] == id {
        var added := false;
        var j := 0;
        while j < |r'.local| && !added
          invariant j <= |r'.local| && (added <==> event in r'.local[..j])
        {
          assert r'.local[..j + 1] == r'.local[..j] + [r'.local[j]];
          added := r'.local[j] == event;
          j := j + 1;
        }
        assert added <==> event in r'.local by { assert j == |r'.local| ==> r'.local[..j] == r'.local; }
        if !added {
          r' := r'.(local := r'.local + [event]);
        }
      }
    }
    assert r.waitlist[..|r.waitlist|] == r.waitlist;
  }

  function NotedAll(rs: seq<Request>, id: nat, event: nat): seq<Request> {
    seq(|rs|, i requires 0 <= i < |rs| => Noted(rs[i], id, event))
  }

  function Runnable(rs: seq<Request>): seq<Request> {
    if rs == [] then [] else Runnable(rs[..|rs| - 1]) + if Ready(rs[|rs| - 1]) then [rs[|rs| - 1]] else []
  }

  function Waiting(rs: seq<Request>): seq<Request> {
    if rs == [] then [] else Waiting(rs[..|rs| - 1]) + if Ready(rs[|rs| - 1]) then [] else [rs[|rs| - 1]]
  }

  /** After n of the requests `was`: those before i wait, the others are still to be looked at. */
  ghost predicate Sifting(pending: seq<Request>, i: nat, runnable: seq<Request>, was: seq<Request>, id: nat,
                          event: nat, n: nat) {
    && n <= |was| && i <= |pending| && |pending| - i == |was| - n
    && forall v {:trigger Veil(v)} :: v >= 0 ==>
         && pending[..i] == Waiting(NotedAll(was, id, event)[..n]) && pending[i..] == was[n..]
         && runnable == Runnable(NotedAll(was, id, event)[..n])
  }

  lemma SiftBegin(was: seq<Request>, id: nat, event: nat)
    ensures Sifting(was, 0, [], was, id, event, 0)
  {
    var noted := NotedAll(was, id, event)[..0];
    assert noted == [] && Waiting(noted) == [] && Runnable(noted) == [] && was[..0] == [] && was[0..] == was;
  }

  lemma SiftNext(pending: seq<Request>, i: nat, runnable: seq<Request>, was: seq<Request>, id: nat, event: nat, n: nat,
                 r: Request)
    requires Sifting(pending, i, runnable, was, id, event, n) && i < |pending| && r == Noted(pending[i], id, event)
    ensures if Ready(r) then Sifting(pending[..i] + pending[i + 1..], i, runnable + [r], was, id, event, n + 1)
            else Sifting(pending[i := r], i + 1, runnable, was, id, event, n + 1)
  {
    assert Veil(0);
    var noted := NotedAll(was, id, event);
    assert pending[i] == pending[i..][0] == was[n];
    assert noted[..n + 1][..n] == noted[..n] && noted[..n + 1][n] == r;
    assert pending[i + 1..] == was[n + 1..] by { assert pending[i..][1..] == was[n..][1..]; }
    if Ready(r) {
      var p := pending[..i] + pending[i + 1..];
      assert p[..i] == pending[..i] && p[i..] == pending[i + 1..];
    } else {
      var p := pending[i := r];
      assert p[..i + 1] == pending[..i] + [r] && p[i + 1..] == pending[i + 1..];
    }
  }

  lemma Sifted(pending: seq<Request>, i: nat, runnable: seq<Request>, was: seq<Request>, id: nat, event: nat, n: nat)
    requires Sifting(pending, i, runnable, was, id, event, n) && i == |pending|
    ensures pending == Waiting(NotedAll(was, id, event)) && runnable == Runnable(NotedAll(was, id, event))
  {
    assert Veil(0);
    assert pending[..i] == pending && NotedAll(was, id, event)[..n] == NotedAll(was, id, event);
  }

  class CommandQueue {
    var pending: seq<Request>
    /** The requests given to RunCommand, in order. */
    var ran: seq<Request>

    constructor ()
      ensures pending == [] && ran == []
    {
      pending, ran := [], [];
    }

    method Push(tag: nat, waitlist: seq<nat>, events: map<nat, nat>)
      modifies this
      ensures var r := Request(tag, waitlist, Mapped(waitlist, events));
              if Ready(r) then ran == old(ran) + [r] && pending == old(pending)
              else pending == old(pending) + [r] && ran == old(ran)
    {
      var local := RemapWaitlist(waitlist, events);
      var r := Request(tag, waitlist, local);
      if Ready(r) {
        ran := ran + [r];
      } else {
        pending := pending + [r];
      }
    }

    /** Erasing while iterating separates the pending requests by readiness and keeps both orders. */
    method Notify(id: nat, event: nat)
      modifies this
      ensures pending == Waiting(NotedAll(old(pending), id, event))
      ensures ran == old(ran) + Runnable(NotedAll(old(pending), id, event))
    {
      ghost var was := pending;
      var runnable: seq<Request> := [];
      var i := 0;
      ghost var n := 0;
      SiftBegin(was, id, event);
      while i < |pending|
        invariant Sifting(pending, i, runnable, was, id, event, n) && ran == old(ran)
        decreases |was| - n
      {
        var r := Note(pending[i], id, event);
        SiftNext(pending, i, runnable, was, id, event, n, r);
        if Ready(r) {
          runnable := runnable + [r];
          pending := pending[..i] + pending[i + 1..];
        } else {
          pending := pending[i := r];
          i := i + 1;
        }
        n := n + 1;
      }
      Sifted(pending, i, runnable, was, id, event, n);
      ran := ran + runnable;
    }
  }

  // ---------------------------------------------------------------- runs of the whole protocol

  /** A request with what its history decides: the ids registered when it was pushed, and the ids
      noted since. */
  datatype Tracked = Tracked(req: Request, known: set<nat>, noted: seq<nat>)

  /** `owed`: registered ids of which the queue has not been notified yet. */
  datatype State = State(events: map<nat, nat>, owed: set<nat>, pending: seq<Tracked>, ran: seq<Tracked>,
                         pushed: seq<nat>)

  const INITIAL := State(map[], {}, [], [], [])

  /** The critical sections: an event is registered; the queue is notified of a registered event
      (more than once, perhaps); a request is pushed. */
  datatype Step = Register(id: nat, event: nat) | Notify(id: nat) | Push(tag: nat, waitlist: seq<nat>)

  predicate Enabled(s: State, step: Step) {
    match step
    case Register(id, event) => id !in s.events && event !in s.events.Values
    case Notify(id) => id in s.events
    case Push(tag, _) => tag !in s.pushed
  }

  function NotedT(t: Tracked, id: nat, event: nat): Tracked {
    if id in t.req.waitlist && event !in t.req.local then Tracked(Noted(t.req, id, event), t.known, t.noted + [id])
    else t
  }

  function NotedAllT(ts: seq<Tracked>, id: nat, event: nat): seq<Tracked> {
    seq(|ts|, i requires 0 <= i < |ts| => NotedT(ts[i], id, event))
  }

  function Select(ts: seq<Tracked>, ready: bool): seq<Tracked> {
    if ts == [] then []
    else Select(ts[..|ts| - 1], ready) + if Ready(ts[|ts| - 1].req) == ready then [ts[|ts| - 1]] else []
  }

  function Apply(s: State, step: Step): State
    requires Enabled(s, step)
  {
    match step
    case Register(id, event) => s.(events := s.events[id := event], owed := s.owed + {id})
    case Notify(id) =>
      var noted := NotedAllT(s.pending, id, s.events[id]);
      s.(owed := s.owed - {id}, pending := Select(noted, false), ran := s.ran + Select(noted, true))
    case Push(tag, waitlist) =>
      var t := Tracked(Request(tag, waitlist, Mapped(waitlist, s.events)), s.events.Keys, []);
      if Ready(t.req) then s.(ran := s.ran + [t], pushed := s.pushed + [tag])
      else s.(pending := s.pending + [t], pushed := s.pushed + [tag])
  }

  ghost predicate IsRun(s: State, steps: seq<Step>)
    decreases |steps|
  {
    steps == [] || (Enabled(s, steps[0]) && IsRun(Apply(s, steps[0]), steps[1..]))
  }

  ghost function Final(s: State, steps: seq<Step>): State
    requires IsRun(s, steps)
    decreases |steps|
  {
    if steps == [] then s else Final(Apply(s, steps[0]), steps[1..])
  }

  // The steps of the machine are those of the queue.

  function Requests(ts: seq<Tracked>): seq<Request> {
    seq(|ts|, i requires 0 <= i < |ts| => ts[i].req)
  }

  lemma {:induction false} SelectRequests(ts: seq<Tracked>)
    ensures Requests(Select(ts, false)) == Waiting(Requests(ts)) && Requests(Select(ts, true)) == Runnable(Requests(ts))
  {
    if ts != [] {
      var k := |ts| - 1;
      SelectRequests(ts[..k]);
      assert Requests(ts)[..k] == Requests(ts[..k]);
    }
  }

  lemma NotifyRefines(ts: seq<Tracked>, id: nat, event: nat)
    ensures Requests(Select(NotedAllT(ts, id, event), false)) == Waiting(NotedAll(Requests(ts), id, event))
    ensures Requests(Select(NotedAllT(ts, id, event), true)) == Runnable(NotedAll(Requests(ts), id, event))
  {
    assert Requests(NotedAllT(ts, id, event)) == NotedAll(Requests(ts), id, event);
    SelectRequests(NotedAllT(ts, id, event));
  }

  // ---------------------------------------------------------------- the invariant

  /** The part of the waitlist that was not registered when the request was pushed. */
  function Fresh(ids: seq<nat>, known: set<nat>): seq<nat> {
    if ids == [] then []
    else Fresh(ids[..|ids| - 1], known) + if ids[|ids| - 1] in known then [] else [ids[|ids| - 1]]
  }

  /** The events of the ids in `known`. */
  function MappedKnown(ids: seq<nat>, known: set<nat>, events: map<nat, nat>): seq<nat>
    requires known <= events.Keys
  {
    if ids == [] then []
    else MappedKnown(ids[..|ids| - 1], known, events) + if ids[|ids| - 1] in known then [events[ids[|ids| - 1]]] else []
  }

  /** A request's local waitlist is what was registered at the push, with repetitions, and then
      the events it has been notified of since, each once. */
  ghost predicate Tracks(t: Tracked, events: map<nat, nat>) {
    && t.known <= events.Keys && NoDup(t.noted)
    && (forall i :: 0 <= i < |t.noted| ==> t.noted[i] in Fresh(t.req.waitlist, t.known) && t.noted[i] in events)
    && t.req.local == MappedKnown(t.req.waitlist, t.known, events)
       + seq(|t.noted|, i requires 0 <= i < |t.noted| => events[t.noted[i]])
  }

  /** No notification has been missed. */
  ghost predicate UpToDate(t: Tracked, events: map<nat, nat>, owed: set<nat>) {
    forall id :: id in Fresh(t.req.waitlist, t.known) && id in events && id !in owed ==> id in t.noted
  }

  ghost predicate Injective(events: map<nat, nat>) {
    forall a, b :: a in events && b in events && events[a] == events[b] ==> a == b
  }

  ghost predicate Inv(s: State) {
    && Injective(s.events) && s.owed <= s.events.Keys
    && (forall i :: 0 <= i < |s.pending| ==>
        !Ready(s.pending[i].req) && Tracks(s.pending[i], s.events) && UpToDate(s.pending[i], s.events, s.owed))
    && (forall i :: 0 <= i < |s.ran| ==> Ready(s.ran[i].req) && Tracks(s.ran[i], s.events))
  }

  lemma {:induction false} FreshIs(ids: seq<nat>, known: set<nat>, id: nat)
    ensures id in Fresh(ids, known) <==> id in ids && id !in known
  {
    if ids != [] {
      FreshIs(ids[..|ids| - 1], known, id);
      assert ids == ids[..|ids| - 1] + [ids[|ids| - 1]];
    }
  }

  /** The event of a known id is there; and every event there is of a known id. */
  lemma {:induction false} KnownMapped(ids: seq<nat>, known: set<nat>, events: map<nat, nat>, id: nat)
    requires known <= events.Keys && Injective(events) && id in events
    ensures events[id] in MappedKnown(ids, known, events) <==> id in ids && id in known
  {
    if ids != [] {
      KnownMapped(ids[..|ids| - 1], known, events, id);
      assert ids == ids[..|ids| - 1] + [ids[|ids| - 1]];
    }
  }

  lemma {:induction false} MappedSame(ids: seq<nat>, known: set<nat>, events: map<nat, nat>, events': map<nat, nat>)
    requires known <= events.Keys && known <= events'.Keys && forall id :: id in known ==> events[id] == events'[id]
    ensures MappedKnown(ids, known, events) == MappedKnown(ids, known, events')
  {
    if ids != [] { MappedSame(ids[..|ids| - 1], known, events, events'); }
  }

  lemma {:induction false} MappedAll(ids: seq<nat>, events: map<nat, nat>)
    ensures Mapped(ids, events) == MappedKnown(ids, events.Keys, events)
  {
    if ids != [] { MappedAll(ids[..|ids| - 1], events); }
  }

  lemma {:induction false} MappedLength(ids: seq<nat>, known: set<nat>, events: map<nat, nat>)
    requires known <= events.Keys
    ensures |MappedKnown(ids, known, events)| + |Fresh(ids, known)| == |ids|
  {
    if ids != [] { MappedLength(ids[..|ids| - 1], known, events); }
  }

  /** Which events a tracked request has. */
  lemma Has(t: Tracked, events: map<nat, nat>, id: nat)
    requires Tracks(t, events) && Injective(events) && id in events
    ensures events[id] in t.req.local <==> (id in t.req.waitlist && id in t.known) || id in t.noted
  {
    KnownMapped(t.req.waitlist, t.known, events, id);
    var later := seq(|t.noted|, i requires 0 <= i < |t.noted| => events[t.noted[i]]);
    if id in t.noted {
      var i :| 0 <= i < |t.noted| && t.noted[i] == id;
      assert later[i] == events[id];
    }
    if events[id] in later {
      var i :| 0 <= i < |later| && later[i] == events[id];
      assert t.noted[i] == id;
    }
  }

  lemma NotedTracks(t: Tracked, events: map<nat, nat>, owed: set<nat>, id: nat)
    requires Tracks(t, events) && UpToDate(t, events, owed) && Injective(events) && id in events
    ensures Tracks(NotedT(t, id, events[id]), events) && UpToDate(NotedT(t, id, events[id]), events, owed - {id})
  {
    Has(t, events, id);
    FreshIs(t.req.waitlist, t.known, id);
    var t' := NotedT(t, id, events[id]);
    if t' != t {
      var n := |t.noted|;
      var later := seq(n, i requires 0 <= i < n => events[t.noted[i]]);
      assert seq(n + 1, i requires 0 <= i < n + 1 => events[t'.noted[i]]) == later + [events[id]];
    }
  }

  lemma RegisterTracks(t: Tracked, events: map<nat, nat>, owed: set<nat>, id: nat, event: nat)
    requires Tracks(t, events) && id !in events
    ensures Tracks(t, events[id := event])
    ensures UpToDate(t, events, owed) ==> UpToDate(t, events[id := event], owed + {id})
  {
    MappedSame(t.req.waitlist, t.known, events, events[id := event]);
    var n := |t.noted|;
    assert seq(n, i requires 0 <= i < n => events[id := event][t.noted[i]]) ==
           seq(n, i requires 0 <= i < n => events[t.noted[i]]);
  }

  lemma PushTracks(tag: nat, waitlist: seq<nat>, events: map<nat, nat>, owed: set<nat>)
    ensures var t := Tracked(Request(tag, waitlist, Mapped(waitlist, events)), events.Keys, []);
            Tracks(t, events) && UpToDate(t, events, owed)
  {
    MappedAll(waitlist, events);
    forall id | id in Fresh(waitlist, events.Keys) ensures id !in events {
      FreshIs(waitlist, events.Keys, id);
    }
  }

  lemma {:induction false} SelectFrom(ts: seq<Tracked>, ready: bool)
    ensures forall i :: 0 <= i < |Select(ts, ready)| ==>
            Select(ts, ready)[i] in ts && Ready(Select(ts, ready)[i].req) == ready
  {
    if ts != [] {
      SelectFrom(ts[..|ts| - 1], ready);
      assert forall t :: t in ts[..|ts| - 1] ==> t in ts;
    }
  }

  lemma NotifyInv(s: State, id: nat)
    requires Inv(s) && Enabled(s, Notify(id))
    ensures Inv(Apply(s, Notify(id)))
  {
    var s' := Apply(s, Notify(id));
    var noted := NotedAllT(s.pending, id, s.events[id]);
    SelectFrom(noted, false);
    SelectFrom(noted, true);
    forall t | t in noted ensures Tracks(t, s.events) && UpToDate(t, s.events, s'.owed) {
      var i :| 0 <= i < |noted| && noted[i] == t;
      NotedTracks(s.pending[i], s.events, s.owed, id);
    }
    assert forall i :: 0 <= i < |s'.pending| ==> s'.pending[i] in noted;
  }

  lemma RegisterInv(s: State, id: nat, event: nat)
    requires Inv(s) && Enabled(s, Register(id, event))
    ensures Inv(Apply(s, Register(id, event)))
  {
    forall i | 0 <= i < |s.pending|
      ensures Tracks(s.pending[i], s.events[id := event])
      ensures UpToDate(s.pending[i], s.events[id := event], s.owed + {id})
    {
      RegisterTracks(s.pending[i], s.events, s.owed, id, event);
    }
    forall i | 0 <= i < |s.ran| ensures Tracks(s.ran[i], s.events[id := event]) {
      RegisterTracks(s.ran[i], s.events, s.owed, id, event);
    }
  }

  lemma StepInv(s: State, step: Step)
    requires Inv(s) && Enabled(s, step)
    ensures Inv(Apply(s, step))
  {
    match step
    case Register(id, event) => RegisterInv(s, id, event);
    case Notify(id) => NotifyInv(s, id);
    case Push(tag, waitlist) => PushTracks(tag, waitlist, s.events, s.owed);
  }

  lemma {:induction false} RunInv(s: State, steps: seq<Step>)
    requires Inv(s) && IsRun(s, steps)
    ensures Inv(Final(s, steps))
    decreases |steps|
  {
    if steps != [] {
      StepInv(s, steps[0]);
      RunInv(Apply(s, steps[0]), steps[1..]);
    }
  }

  /** A tracked request is ready exactly when everything that was missing at the push is different
      and has been noted. */
  lemma ReadyWhen(t: Tracked, events: map<nat, nat>)
    requires Tracks(t, events)
    ensures var missing := Fresh(t.req.waitlist, t.known);
            Ready(t.req) <==> NoDup(missing) && forall i :: 0 <= i < |missing| ==> missing[i] in t.noted
  {
    var missing := Fresh(t.req.waitlist, t.known);
    MappedLength(t.req.waitlist, t.known, events);
    ElementsCount(t.noted);
    ElementsCount(missing);
    SubsetCount(Elements(t.noted), Elements(missing));
    if Ready(t.req) {
      assert Elements(t.noted) == Elements(missing);
      assert forall i :: 0 <= i < |missing| ==> missing[i] in Elements(missing);
    }
    if NoDup(missing) && forall i :: 0 <= i < |missing| ==> missing[i] in t.noted {
      assert Elements(missing) <= Elements(t.noted);
      SubsetCount(Elements(missing), Elements(t.noted));
      assert |t.noted| == |missing|;
    }
  }

  // ---------------------------------------------------------------- theorems about every run

  /** All of a request's ids are registered and the queue has been notified of them. */
  ghost predicate Settled(t: Tracked, s: State) {
    forall i :: 0 <= i < |t.req.waitlist| ==> t.req.waitlist[i] in s.events && t.req.waitlist[i] !in s.owed
  }

  /** Safety: a request runs only after all its ids have been registered. */
  lemma RunsWhenRegistered(steps: seq<Step>, i: nat)
    requires IsRun(INITIAL, steps) && i < |Final(INITIAL, steps).ran|
    ensures var s := Final(INITIAL, steps); forall id :: id in s.ran[i].req.waitlist ==> id in s.events
  {
    var s := Final(INITIAL, steps);
    RunInv(INITIAL, steps);
    var t := s.ran[i];
    ReadyWhen(t, s.events);
    forall id | id in t.req.waitlist ensures id in s.events {
      FreshIs(t.req.waitlist, t.known, id);
      assert id in t.known || id in t.noted;
    }
  }

  /** The events of a request's ids, one for each. */
  function EventsFor(ids: seq<nat>, events: map<nat, nat>): seq<nat>
    requires forall i :: 0 <= i < |ids| ==> ids[i] in events
  {
    seq(|ids|, i requires 0 <= i < |ids| => events[ids[i]])
  }

  /** Once all ids are registered, remapping gives their events in order. */
  lemma {:induction false} RemappedAll(ids: seq<nat>, events: map<nat, nat>)
    requires forall i :: 0 <= i < |ids| ==> ids[i] in events
    ensures Mapped(ids, events) == EventsFor(ids, events)
  {
    if ids != [] {
      RemappedAll(ids[..|ids| - 1], events);
    }
  }

  /** What a request that has run waited for: the events of its ids, no more, no fewer and no others. */
  lemma RanWaitsFor(steps: seq<Step>, i: nat)
    requires IsRun(INITIAL, steps) && i < |Final(INITIAL, steps).ran|
    ensures var s := Final(INITIAL, steps);
            && (forall j :: 0 <= j < |s.ran[i].req.waitlist| ==> s.ran[i].req.waitlist[j] in s.events)
            && multiset(s.ran[i].req.local) == multiset(EventsFor(s.ran[i].req.waitlist, s.events))
  {
    var s := Final(INITIAL, steps);
    RunInv(INITIAL, steps);
    var t := s.ran[i];
    var missing := Fresh(t.req.waitlist, t.known);
    RunsWhenRegistered(steps, i);
    ReadyWhen(t, s.events);
    FreshWithin(t.req.waitlist, t.known, s.events);
    SplitEvents(t.req.waitlist, t.known, s.events);
    SameEvents(t.noted, missing, s.events);
    assert EventsFor(t.noted, s.events) == seq(|t.noted|, j requires 0 <= j < |t.noted| => s.events[t.noted[j]]);
  }

  lemma {:induction false} FreshWithin(ids: seq<nat>, known: set<nat>, events: map<nat, nat>)
    requires forall i :: 0 <= i < |ids| ==> ids[i] in events
    ensures forall i :: 0 <= i < |Fresh(ids, known)| ==> Fresh(ids, known)[i] in events
  {
    if ids != [] { FreshWithin(ids[..|ids| - 1], known, events); }
  }

  /** The known and the missing ids together. */
  lemma {:induction false} SplitEvents(ids: seq<nat>, known: set<nat>, events: map<nat, nat>)
    requires known <= events.Keys && forall i :: 0 <= i < |ids| ==> ids[i] in events
    requires forall i :: 0 <= i < |Fresh(ids, known)| ==> Fresh(ids, known)[i] in events
    ensures multiset(EventsFor(ids, events)) ==
            multiset(MappedKnown(ids, known, events)) + multiset(EventsFor(Fresh(ids, known), events))
  {
    if ids != [] {
      var front, id := ids[..|ids| - 1], ids[|ids| - 1];
      FreshWithin(front, known, events);
      SplitEvents(front, known, events);
      assert ids == front + [id];
      EventsSnoc(front, id, events);
      var m, f := MappedKnown(front, known, events), Fresh(front, known);
      CountSnoc(m, EventsFor(f, events), EventsFor(front, events), events[id]);
      if id in known {
        assert MappedKnown(ids, known, events) == m + [events[id]] && Fresh(ids, known) == f;
      } else {
        assert MappedKnown(ids, known, events) == m && Fresh(ids, known) == f + [id];
        EventsSnoc(f, id, events);
      }
    }
  }

  lemma EventsSnoc(ids: seq<nat>, id: nat, events: map<nat, nat>)
    requires id in events && forall i :: 0 <= i < |ids| ==> ids[i] in events
    ensures EventsFor(ids + [id], events) == EventsFor(ids, events) + [events[id]]
  {
  }

  /** Two lists of different ids with the same ids have the same events. */
  lemma SameEvents(a: seq<nat>, b: seq<nat>, events: map<nat, nat>)
    requires NoDup(a) && NoDup(b) && Injective(events)
    requires (forall i :: 0 <= i < |a| ==> a[i] in b) && (forall i :: 0 <= i < |b| ==> b[i] in a)
    requires (forall i :: 0 <= i < |a| ==> a[i] in events) && (forall i :: 0 <= i < |b| ==> b[i] in events)
    ensures multiset(EventsFor(a, events)) == multiset(EventsFor(b, events))
  {
    NoDupCounts(EventsFor(a, events));
    NoDupCounts(EventsFor(b, events));
    EventsWithin(a, b, events);
    EventsWithin(b, a, events);
  }

  lemma EventsWithin(a: seq<nat>, b: seq<nat>, events: map<nat, nat>)
    requires forall i :: 0 <= i < |a| ==> a[i] in b && a[i] in events
    requires forall i :: 0 <= i < |b| ==> b[i] in events
    ensures Elements(EventsFor(a, events)) <= Elements(EventsFor(b, events))
  {
    var fa, fb := EventsFor(a, events), EventsFor(b, events);
    forall e | e in Elements(fa) ensures e in Elements(fb) {
      var i :| 0 <= i < |fa| && fa[i] == e;
      var j :| 0 <= j < |b| && b[j] == a[i];
      assert fb[j] == e;
    }
  }

  /** Where the requests on one side of a separation by readiness come from. */
  ghost function Places(ts: seq<Tracked>, ready: bool): seq<nat> {
    if ts == [] then []
    else Places(ts[..|ts| - 1], ready) + if Ready(ts[|ts| - 1].req) == ready then [|ts| - 1] else []
  }

  /** Separating by readiness keeps the order of both sides, */
  lemma {:induction false} SelectKeepsOrder(ts: seq<Tracked>, ready: bool)
    ensures var at := Places(ts, ready);
            && |at| == |Select(ts, ready)|
            && (forall k :: 0 <= k < |at| ==> at[k] < |ts| && ts[at[k]] == Select(ts, ready)[k])
            && (forall j, k :: 0 <= j < k < |at| ==> at[j] < at[k])
  {
    if ts != [] {
      SelectKeepsOrder(ts[..|ts| - 1], ready);
    }
  }

  /** and each request is on the side where it belongs. */
  lemma {:induction false} SelectKeepsAll(ts: seq<Tracked>, ready: bool, i: nat)
    requires i < |ts|
    ensures i in Places(ts, ready) <==> Ready(ts[i].req) == ready
  {
    var n := |ts| - 1;
    SelectKeepsOrder(ts[..n], ready);
    if i < n {
      SelectKeepsAll(ts[..n], ready, i);
    }
  }

  /** No lost wakeup: once everything a request waits for is registered and notified, it has run,
      if and only if the ids that were missing when it was pushed are pairwise different. */
  lemma SettledRuns(steps: seq<Step>, t: Tracked)
    requires IsRun(INITIAL, steps)
    requires var s := Final(INITIAL, steps); (t in s.pending || t in s.ran) && Settled(t, s)
    ensures var s := Final(INITIAL, steps);
            && (t in s.ran <==> NoDup(Fresh(t.req.waitlist, t.known)))
            && (t in s.pending <==> !NoDup(Fresh(t.req.waitlist, t.known)))
  {
    var s := Final(INITIAL, steps);
    RunInv(INITIAL, steps);
    ReadyWhen(t, s.events);
    if t in s.pending {
      var i :| 0 <= i < |s.pending| && s.pending[i] == t;
      var missing := Fresh(t.req.waitlist, t.known);
      forall j | 0 <= j < |missing| ensures missing[j] in t.noted {
        FreshIs(t.req.waitlist, t.known, missing[j]);
      }
    }
  }

  /** Without repeated ids nothing is ever stuck. */
  lemma DistinctNeverStuck(steps: seq<Step>, t: Tracked)
    requires IsRun(INITIAL, steps)
    requires var s := Final(INITIAL, steps); (t in s.pending || t in s.ran) && Settled(t, s) && NoDup(t.req.waitlist)
    ensures t in Final(INITIAL, steps).ran
  {
    FreshNoDup(t.req.waitlist, t.known);
    SettledRuns(steps, t);
  }

  lemma {:induction false} FreshNoDup(ids: seq<nat>, known: set<nat>)
    requires NoDup(ids)
    ensures NoDup(Fresh(ids, known))
  {
    if ids != [] {
      var front, last := ids[..|ids| - 1], ids[|ids| - 1];
      FreshNoDup(front, known);
      FreshIs(front, known, last);
      assert last !in front;
    }
  }

  /** No dependency is counted twice: different ids give different events. */
  lemma NeverCountedTwice(steps: seq<Step>, t: Tracked)
    requires IsRun(INITIAL, steps)
    requires var s := Final(INITIAL, steps); (t in s.pending || t in s.ran) && NoDup(t.req.waitlist)
    ensures NoDup(t.req.local)
  {
    var s := Final(INITIAL, steps);
    RunInv(INITIAL, steps);
    MappedNoDup(t.req.waitlist, t.known, s.events);
    var first := MappedKnown(t.req.waitlist, t.known, s.events);
    forall i | 0 <= i < |t.noted| ensures s.events[t.noted[i]] !in first {
      KnownMapped(t.req.waitlist, t.known, s.events, t.noted[i]);
      FreshIs(t.req.waitlist, t.known, t.noted[i]);
    }
  }

  lemma {:induction false} MappedNoDup(ids: seq<nat>, known: set<nat>, events: map<nat, nat>)
    requires NoDup(ids) && known <= events.Keys && Injective(events)
    ensures NoDup(MappedKnown(ids, known, events))
  {
    if ids != [] {
      var front, last := ids[..|ids| - 1], ids[|ids| - 1];
      MappedNoDup(front, known, events);
      if last in known {
        KnownMapped(front, known, events, last);
        assert last !in front;
      }
    }
  }

  /** A request that waits for the same unregistered event twice never runs. */
  lemma RepeatedIdSticks()
    ensures var steps := [Push(0, [7, 7]), Register(7, 70), Notify(7)];
            && IsRun(INITIAL, steps)
            && var s := Final(INITIAL, steps);
               && |s.pending| == 1 && s.ran == [] && Settled(s.pending[0], s)
               && forall more :: IsRun(s, more) ==> StillPending(Final(s, more), s.pending[0])
  {
    StickingRun();
    var steps := [Push(0, [7, 7]), Register(7, 70), Notify(7)];
    var s := Final(INITIAL, steps);
    RunInv(INITIAL, steps);
    RepeatedFresh(7);
    forall more | IsRun(s, more) ensures StillPending(Final(s, more), s.pending[0]) {
      StuckForGood(s, s.pending[0], more);
    }
  }

  /** Some pending request is this one, whatever it has been notified of since. */
  ghost predicate StillPending(s: State, t: Tracked) {
    exists i :: 0 <= i < |s.pending| && Same(s.pending[i], t)
  }

  ghost predicate Same(t: Tracked, u: Tracked) {
    t.req.tag == u.req.tag && t.req.waitlist == u.req.waitlist && t.known == u.known
  }

  lemma RepeatedFresh(id: nat)
    ensures !NoDup(Fresh([id, id], {}))
  {
    assert [id, id][..1] == [id] && [id][..0] == [];
    assert Fresh([id], {}) == [id] && Fresh([id, id], {}) == [id, id];
  }

  /** In every run, what has run had no repetition among the ids that were missing at its push. */
  lemma RanHadDistinct(steps: seq<Step>, t: Tracked)
    requires IsRun(INITIAL, steps) && t in Final(INITIAL, steps).ran
    ensures NoDup(Fresh(t.req.waitlist, t.known))
  {
    RunInv(INITIAL, steps);
    ReadyWhen(t, Final(INITIAL, steps).events);
  }

  /** A request that misses the same id twice stays pending, however the run goes on. */
  lemma {:induction false} StuckForGood(s: State, t: Tracked, more: seq<Step>)
    requires Inv(s) && IsRun(s, more) && t in s.pending && !NoDup(Fresh(t.req.waitlist, t.known))
    ensures StillPending(Final(s, more), t)
    decreases |more|
  {
    if more == [] {
      var i :| 0 <= i < |s.pending| && s.pending[i] == t;
      assert Same(s.pending[i], t);
    } else {
      var u := StepSticks(s, t, more[0]);
      StepInv(s, more[0]);
      StuckForGood(Apply(s, more[0]), u, more[1..]);
    }
  }

  lemma StepSticks(s: State, t: Tracked, step: Step) returns (u: Tracked)
    requires Inv(s) && Enabled(s, step) && t in s.pending && !NoDup(Fresh(t.req.waitlist, t.known))
    ensures u in Apply(s, step).pending && Same(u, t)
  {
    var s' := Apply(s, step);
    u := t;
    StepInv(s, step);
    if step.Notify? {
      var event := s.events[step.id];
      var noted := NotedAllT(s.pending, step.id, event);
      var i :| 0 <= i < |s.pending| && s.pending[i] == t;
      u := noted[i];
      assert u == NotedT(t, step.id, event);
      SelectHas(noted, i);
      if u in s'.ran {
        ReadyWhen(u, s'.events);
      }
    }
  }

  lemma {:induction false} SelectHas(ts: seq<Tracked>, i: nat)
    requires i < |ts|
    ensures ts[i] in Select(ts, Ready(ts[i].req))
  {
    if i < |ts| - 1 { SelectHas(ts[..|ts| - 1], i); }
  }

  lemma StickingRun()
    ensures var steps := [Push(0, [7, 7]), Register(7, 70), Notify(7)];
            && IsRun(INITIAL, steps)
            && var s := Final(INITIAL, steps);
               && |s.pending| == 1 && s.ran == [] && Settled(s.pending[0], s)
               && s.pending[0].req.waitlist == [7, 7] && s.pending[0].known == {}
  {
    var t := Tracked(Request(0, [7, 7], []), {}, []);
    var t' := Tracked(Request(0, [7, 7], [70]), {}, [7]);
    PushedUnmapped(0, [7, 7]);
    NotedOnce(t, t', State(map[7 := 70], {7}, [t], [], [0]));
    assert INITIAL.events[7 := 70] == map[7 := 70] && INITIAL.owed + {7} == {7};
    ThreeSteps(INITIAL, Push(0, [7, 7]), Register(7, 70), Notify(7));
  }

  /** A request that waits for something, pushed while nothing is registered. */
  lemma PushedUnmapped(tag: nat, waitlist: seq<nat>)
    requires waitlist != []
    ensures Apply(INITIAL, Push(tag, waitlist)) ==
            INITIAL.(pending := [Tracked(Request(tag, waitlist, []), {}, [])], pushed := [tag])
  {
    MappedNothing(waitlist);
    assert INITIAL.events.Keys == {};
    assert INITIAL.pending + [Tracked(Request(tag, waitlist, []), {}, [])] ==
           [Tracked(Request(tag, waitlist, []), {}, [])];
  }

  lemma {:induction false} MappedNothing(waitlist: seq<nat>)
    ensures Mapped(waitlist, map[]) == []
  {
    if waitlist != [] { MappedNothing(waitlist[..|waitlist| - 1]); }
  }

  lemma NotedOnce(t: Tracked, t': Tracked, s: State)
    requires t.noted == [] && 7 in t.req.waitlist && t.req.local == [] && |t.req.waitlist| == 2
    requires t' == Tracked(t.req.(local := [70]), t.known, [7])
    requires s.events == map[7 := 70] && s.pending == [t] && s.ran == [] && s.owed == {7}
    ensures Apply(s, Notify(7)) == s.(owed := {}, pending := [t'], ran := [])
  {
    assert NotedT(t, 7, 70) == t' by { assert t.noted + [7] == [7] && t.req.local + [70] == [70]; }
    assert NotedAllT(s.pending, 7, 70) == [t'];
    SelectOne(t', false);
    SelectOne(t', true);
  }

  lemma SelectOne(t: Tracked, ready: bool)
    ensures Select([t], ready) == if Ready(t.req) == ready then [t] else []
  {
    assert [t][..0] == [];
  }

  lemma ThreeSteps(s: State, p: Step, q: Step, r: Step)
    requires Enabled(s, p) && Enabled(Apply(s, p), q) && Enabled(Apply(Apply(s, p), q), r)
    ensures IsRun(s, [p, q, r]) && Final(s, [p, q, r]) == Apply(Apply(Apply(s, p), q), r)
  {
    var s1 := Apply(s, p);
    var s2 := Apply(s1, q);
    StepThen(s2, r, []);
    StepThen(s1, q, [r] + []);
    StepThen(s, p, [q] + ([r] + []));
    assert [p, q, r] == [p] + ([q] + ([r] + []));
  }

  lemma StepThen(s: State, step: Step, rest: seq<Step>)
    requires Enabled(s, step) && IsRun(Apply(s, step), rest)
    ensures IsRun(s, [step] + rest) && Final(s, [step] + rest) == Final(Apply(s, step), rest)
  {
    assert ([step] + rest)[1..] == rest;
  }

  function Tags(ts: seq<Tracked>): seq<nat> {
    seq(|ts|, i requires 0 <= i < |ts| => ts[i].req.tag)
  }

  lemma TagsSnoc(ts: seq<Tracked>, t: Tracked)
    ensures Tags(ts + [t]) == Tags(ts) + [t.req.tag]
  {
  }

  lemma SelectSnoc(ts: seq<Tracked>, t: Tracked, ready: bool)
    ensures Tags(Select(ts + [t], ready)) ==
            Tags(Select(ts, ready)) + if Ready(t.req) == ready then [t.req.tag] else []
  {
    assert (ts + [t])[..|ts|] == ts;
    TagsSnoc(Select(ts, ready), t);
    assert Select(ts, ready) + [] == Select(ts, ready);
  }

  lemma CountSnoc(a: seq<nat>, b: seq<nat>, all: seq<nat>, x: nat)
    requires multiset(a) + multiset(b) == multiset(all)
    ensures multiset(a + [x]) + multiset(b) == multiset(all + [x]) == multiset(a) + multiset(b + [x])
  {
  }

  lemma {:induction false} SelectConserves(ts: seq<Tracked>)
    ensures multiset(Tags(Select(ts, false))) + multiset(Tags(Select(ts, true))) == multiset(Tags(ts))
  {
    if ts != [] {
      var front, t := ts[..|ts| - 1], ts[|ts| - 1];
      SelectConserves(front);
      assert ts == front + [t];
      SelectSnoc(front, t, false);
      SelectSnoc(front, t, true);
      TagsSnoc(front, t);
      CountSnoc(Tags(Select(front, false)), Tags(Select(front, true)), Tags(front), t.req.tag);
    }
  }

  /** Every request that was pushed is pending or has run. */
  ghost predicate Conserved(s: State) {
    multiset(Tags(s.pending)) + multiset(Tags(s.ran)) == multiset(s.pushed) && NoDup(s.pushed)
  }

  lemma NotifyConserves(s: State, id: nat)
    requires Enabled(s, Notify(id)) && Conserved(s)
    ensures Conserved(Apply(s, Notify(id)))
  {
    var noted := NotedAllT(s.pending, id, s.events[id]);
    assert Tags(noted) == Tags(s.pending);
    SelectConserves(noted);
    assert Tags(s.ran + Select(noted, true)) == Tags(s.ran) + Tags(Select(noted, true));
  }

  lemma PushConserves(s: State, tag: nat, waitlist: seq<nat>)
    requires Enabled(s, Push(tag, waitlist)) && Conserved(s)
    ensures Conserved(Apply(s, Push(tag, waitlist)))
  {
    var t := Tracked(Request(tag, waitlist, Mapped(waitlist, s.events)), s.events.Keys, []);
    if Ready(t.req) {
      assert Tags(s.ran + [t]) == Tags(s.ran) + [tag];
    } else {
      assert Tags(s.pending + [t]) == Tags(s.pending) + [tag];
    }
    AppendNoDup(s.pushed, tag);
  }

  lemma AppendNoDup(s: seq<nat>, x: nat)
    requires NoDup(s) && x !in s
    ensures NoDup(s + [x])
  {
  }

  lemma StepConserves(s: State, step: Step)
    requires Enabled(s, step) && Conserved(s)
    ensures Conserved(Apply(s, step))
  {
    match step
    case Register(_, _) =>
    case Notify(id) => NotifyConserves(s, id);
    case Push(tag, waitlist) => PushConserves(s, tag, waitlist);
  }

  /** In every run each request that was pushed is pending or has run: one of the two, once. */
  lemma {:induction false} RunConserves(s: State, steps: seq<Step>)
    requires IsRun(s, steps) && Conserved(s)
    ensures Conserved(Final(s, steps))
    decreases |steps|
  {
    if steps != [] {
      StepConserves(s, steps[0]);
      RunConserves(Apply(s, steps[0]), steps[1..]);
    }
  }
}
