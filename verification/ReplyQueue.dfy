/** The reply queue of pocld/reply_th.cc: replies are written in the order in which they were
    pushed; when a connection is lost, the reply that was being written is written again, from its
    beginning, on the next one. */
module ReplyQueue {
  import opened Options
  import opened Veils
  import opened Messages
  import Writer

  /** A Reply: its payload (extra_data), and the event to notify when it has been written. */
  datatype Reply = Reply(msgId: nat, event: Option<nat>, payload: seq<Byte>)

  /** The ReplyMsg_t that is written for a reply; it holds the time at which writing began. */
  type Header = (Reply, nat) -> seq<Byte>

  function Frame(header: Header, r: Reply, time: nat): seq<Byte> {
    header(r, time) + r.payload
  }

  /** The writing part of writeThread, under the connection's lock: all of the reply is written, or
      the connection fails somewhere before its end. */
  method WriteReply(header: Header, r: Reply, time: nat, conn: Writer.Connection) returns (ok: bool, ghost k: nat)
    modifies conn
    ensures ok ==> conn.sent == old(conn.sent) + (header(r, time) + r.payload)
    ensures !ok ==> && k < |header(r, time)| + |r.payload|
                    && conn.sent == old(conn.sent) + (header(r, time) + r.payload)[..k]
    ensures Writer.Uses(old(conn.schedule), conn.schedule, ok)
    ensures Writer.Unbroken(old(conn.schedule)) ==> ok
  {
    var rep := header(r, time);
    ok, k := conn.WriteFull(rep);
    if !ok {
      assert (rep + r.payload)[..k] == rep[..k];
      return;
    }
    if |r.payload| > 0 {
      ghost var between := conn.schedule;
      ok, k := conn.WriteFull(r.payload);
      Writer.UsesNext(old(conn.schedule), between, conn.schedule, ok);
      if !ok {
        Writer.UsesBroken(old(conn.schedule), conn.schedule);
        assert (rep + r.payload)[..|rep| + k] == rep + r.payload[..k];
        k := |rep| + k;
      }
    }
  }

  /** Where the writing thread is between its critical sections. */
  datatype Phase = Idle | Holding(time: nat) | Written | Notified

  /** What has gone over one connection: replies lo, lo + 1, ... whole, written at `times`, and then
      `partial` bytes of the next one. */
  datatype Span = Span(lo: nat, times: seq<nat>, partial: nat, time: nat)

  /** `popped` and `inflight` are the queue's past and present; `streams` the bytes on each
      connection there has been, of which the last is the current one if it is `live`. */
  datatype State = State(pushed: seq<Reply>, popped: seq<Reply>, inflight: seq<Reply>, live: bool, phase: Phase,
                         streams: seq<seq<Byte>>, spans: seq<Span>, notified: seq<nat>)

  const INITIAL := State([], [], [], false, Idle, [], [], [])

  /** Push: pushReply. Connect: setConnection. The others are the writing thread: it takes up the
      first reply, writes up to n bytes of it, notifies, and pops it. */
  datatype Step = Push(r: Reply) | Connect | TakeUp(time: nat) | Write(n: nat) | Notify | Pop

  /** The conditions on streams and spans hold in every run. */
  predicate Enabled(s: State, step: Step) {
    match step
    case Push(_) => true
    case Connect => true
    case TakeUp(_) => s.phase.Idle? && s.live && s.inflight != [] && s.streams != []
    case Write(_) => s.phase.Holding? && s.inflight != [] && |s.streams| == |s.spans| && (s.live ==> s.streams != [])
    case Notify => s.phase.Written? && s.inflight != []
    case Pop => s.phase.Notified? && s.inflight != []
  }

  function Event(r: Reply): seq<nat> {
    if r.event.Some? then [r.event.value] else []
  }

  function Apply(header: Header, s: State, step: Step): State
    requires Enabled(s, step)
  {
    match step
    case Push(r) => s.(pushed := s.pushed + [r], inflight := s.inflight + [r])
    case Connect => s.(live := true, streams := s.streams + [[]], spans := s.spans + [Span(Count(s), [], 0, 0)])
    case TakeUp(time) => s.(phase := Holding(time))
    case Write(n) =>
      if !s.live then s.(phase := Idle)
      else
        var c, frame := |s.streams| - 1, Frame(header, s.inflight[0], s.phase.time);
        if n < |frame| then
          s.(phase := Idle, live := false, streams := s.streams[c := s.streams[c] + frame[..n]],
             spans := s.spans[c := s.spans[c].(partial := n, time := s.phase.time)])
        else
          s.(phase := Written, streams := s.streams[c := s.streams[c] + frame],
             spans := s.spans[c := s.spans[c].(times := s.spans[c].times + [s.phase.time])])
    case Notify => s.(phase := Notified, notified := s.notified + Event(s.inflight[0]))
    case Pop => s.(phase := Idle, popped := s.popped + [s.inflight[0]], inflight := s.inflight[1..])
  }

  /** How many replies have been written whole. */
  function Count(s: State): nat {
    |s.popped| + if s.phase.Written? || s.phase.Notified? then 1 else 0
  }

  ghost predicate IsRun(header: Header, s: State, steps: seq<Step>)
    decreases |steps|
  {
    steps == [] || (Enabled(s, steps[0]) && IsRun(header, Apply(header, s, steps[0]), steps[1..]))
  }

  ghost function Final(header: Header, s: State, steps: seq<Step>): State
    requires IsRun(header, s, steps)
    decreases |steps|
  {
    if steps == [] then s else Final(header, Apply(header, s, steps[0]), steps[1..])
  }

  // ---------------------------------------------------------------- what has been written

  /** Replies lo, lo + 1, ... written at the given times. */
  function Whole(header: Header, pushed: seq<Reply>, lo: nat, times: seq<nat>): seq<Byte>
    requires lo + |times| <= |pushed|
  {
    if times == [] then []
    else Whole(header, pushed, lo, times[..|times| - 1]) + Frame(header, pushed[lo + |times| - 1], times[|times| - 1])
  }

  /** The bytes on a connection are whole replies, in order, and then a proper part of the next one. */
  ghost predicate Carries(header: Header, pushed: seq<Reply>, stream: seq<Byte>, span: Span) {
    && span.lo + |span.times| <= |pushed|
    && if span.partial == 0 then stream == Whole(header, pushed, span.lo, span.times)
       else && span.lo + |span.times| < |pushed|
            && var next := Frame(header, pushed[span.lo + |span.times|], span.time);
               span.partial < |next| && stream == Whole(header, pushed, span.lo, span.times) + next[..span.partial]
  }

  function EventsOf(rs: seq<Reply>): seq<nat> {
    if rs == [] then [] else EventsOf(rs[..|rs| - 1]) + Event(rs[|rs| - 1])
  }

  /** Where the whole replies of the connections so far end. */
  function End(spans: seq<Span>): nat {
    if spans == [] then 0 else spans[|spans| - 1].lo + |spans[|spans| - 1].times|
  }

  /** Each connection carries whole replies and perhaps part of one more, and begins with the first
      reply that was not written whole before it. */
  ghost predicate Covers(header: Header, pushed: seq<Reply>, streams: seq<seq<Byte>>, spans: seq<Span>) {
    |streams| == |spans| && forall v {:trigger Veil(v)} :: v >= 0 ==>
      && (forall c :: 0 <= c < |spans| ==> Carries(header, pushed, streams[c], spans[c]))
      && Contiguous(spans)
  }

  ghost predicate Contiguous(spans: seq<Span>) {
    forall c :: 0 <= c < |spans| ==> spans[c].lo == End(spans[..c])
  }

  /** The invariant of the whole protocol. */
  ghost predicate Inv(header: Header, s: State) {
    && s.pushed == s.popped + s.inflight
    && (!s.phase.Idle? ==> s.inflight != [])
    && Covers(header, s.pushed, s.streams, s.spans) && Count(s) == End(s.spans)
    && (s.live ==> s.spans != [] && s.spans[|s.spans| - 1].partial == 0)
    && NotifiedUpTo(s.notified, s.pushed, |s.popped| + if s.phase.Notified? then 1 else 0)
  }

  /** The events of the first n replies have been notified, in order, each once. */
  ghost predicate NotifiedUpTo(notified: seq<nat>, pushed: seq<Reply>, n: nat) {
    n <= |pushed| && forall v {:trigger Veil(v)} :: v >= 0 ==> notified == EventsOf(pushed[..n])
  }

  lemma NotifiedMore(notified: seq<nat>, pushed: seq<Reply>, r: Reply, n: nat)
    requires NotifiedUpTo(notified, pushed, n)
    ensures NotifiedUpTo(notified, pushed + [r], n)
  {
    assert Veil(0);
    assert (pushed + [r])[..n] == pushed[..n];
  }

  lemma NotifiedNext(notified: seq<nat>, pushed: seq<Reply>, n: nat)
    requires NotifiedUpTo(notified, pushed, n) && n < |pushed|
    ensures NotifiedUpTo(notified + Event(pushed[n]), pushed, n + 1)
  {
    assert Veil(0);
    assert pushed[..n + 1][..n] == pushed[..n];
  }

  lemma {:induction false} WholeMore(header: Header, pushed: seq<Reply>, r: Reply, lo: nat, times: seq<nat>)
    requires lo + |times| <= |pushed|
    ensures Whole(header, pushed + [r], lo, times) == Whole(header, pushed, lo, times)
  {
    if times != [] { WholeMore(header, pushed, r, lo, times[..|times| - 1]); }
  }

  lemma CoversMore(header: Header, pushed: seq<Reply>, r: Reply, streams: seq<seq<Byte>>, spans: seq<Span>)
    requires Covers(header, pushed, streams, spans)
    ensures Covers(header, pushed + [r], streams, spans)
  {
    assert Veil(0);
    forall c | 0 <= c < |spans| ensures Carries(header, pushed + [r], streams[c], spans[c]) {
      WholeMore(header, pushed, r, spans[c].lo, spans[c].times);
    }
  }

  lemma CoversConnect(header: Header, pushed: seq<Reply>, streams: seq<seq<Byte>>, spans: seq<Span>, next: Span)
    requires Covers(header, pushed, streams, spans) && next == Span(End(spans), [], 0, 0) && End(spans) <= |pushed|
    ensures Covers(header, pushed, streams + [[]], spans + [next])
  {
    assert Veil(0);
    var spans' := spans + [next];
    forall c | 0 <= c < |spans'| ensures spans'[c].lo == End(spans'[..c]) {
      assert spans'[..c] == spans[..c];
      assert c == |spans| ==> spans[..c] == spans;
    }
    assert Whole(header, pushed, next.lo, []) == [];
  }

  /** Writing on the last connection. */
  lemma CoversWrite(header: Header, pushed: seq<Reply>, streams: seq<seq<Byte>>, spans: seq<Span>, stream: seq<Byte>,
                    span: Span)
    requires Covers(header, pushed, streams, spans) && spans != [] && span.lo == spans[|spans| - 1].lo
    requires Carries(header, pushed, stream, span)
    ensures Covers(header, pushed, streams[|spans| - 1 := stream], spans[|spans| - 1 := span])
  {
    assert Veil(0);
    var spans' := spans[|spans| - 1 := span];
    forall c | 0 <= c < |spans'| ensures spans'[c].lo == End(spans'[..c]) {
      assert spans'[..c] == spans[..c];
    }
  }

  lemma LastCarries(header: Header, pushed: seq<Reply>, streams: seq<seq<Byte>>, spans: seq<Span>)
    requires Covers(header, pushed, streams, spans) && spans != []
    ensures Carries(header, pushed, streams[|spans| - 1], spans[|spans| - 1])
  {
    assert Veil(0);
  }

  /** A write that fails leaves a proper part of the reply at the end of its connection. */
  lemma PartWritten(header: Header, pushed: seq<Reply>, stream: seq<Byte>, span: Span, frame: seq<Byte>, time: nat,
                    n: nat)
    requires Carries(header, pushed, stream, span) && span.partial == 0 && span.lo + |span.times| < |pushed|
    requires frame == Frame(header, pushed[span.lo + |span.times|], time) && n < |frame|
    ensures Carries(header, pushed, stream + frame[..n], span.(partial := n, time := time))
  {
    assert n == 0 ==> stream + frame[..n] == stream;
  }

  /** A write that succeeds adds one whole reply. */
  lemma WholeWritten(header: Header, pushed: seq<Reply>, stream: seq<Byte>, span: Span, frame: seq<Byte>, time: nat)
    requires Carries(header, pushed, stream, span) && span.partial == 0 && span.lo + |span.times| < |pushed|
    requires frame == Frame(header, pushed[span.lo + |span.times|], time)
    ensures Carries(header, pushed, stream + frame, span.(times := span.times + [time]))
  {
    assert (span.times + [time])[..|span.times|] == span.times;
  }

  lemma PushInv(header: Header, s: State, r: Reply)
    requires Inv(header, s)
    ensures Inv(header, Apply(header, s, Push(r)))
  {
    var s' := Apply(header, s, Push(r));
    assert s'.pushed == s'.popped + s'.inflight;
    CoversMore(header, s.pushed, r, s.streams, s.spans);
    NotifiedMore(s.notified, s.pushed, r, |s.popped| + if s.phase.Notified? then 1 else 0);
  }

  lemma FailedWriteInv(header: Header, s: State, n: nat)
    requires Inv(header, s) && Enabled(s, Write(n)) && s.live && n < |Frame(header, s.inflight[0], s.phase.time)|
    ensures Inv(header, Apply(header, s, Write(n)))
  {
    var c, time := |s.streams| - 1, s.phase.time;
    var frame, span := Frame(header, s.inflight[0], time), s.spans[c];
    assert s.pushed[|s.popped|] == s.inflight[0];
    LastCarries(header, s.pushed, s.streams, s.spans);
    PartWritten(header, s.pushed, s.streams[c], span, frame, time, n);
    CoversWrite(header, s.pushed, s.streams, s.spans, s.streams[c] + frame[..n], span.(partial := n, time := time));
  }

  lemma WholeWriteInv(header: Header, s: State, n: nat)
    requires Inv(header, s) && Enabled(s, Write(n)) && s.live && n >= |Frame(header, s.inflight[0], s.phase.time)|
    ensures Inv(header, Apply(header, s, Write(n)))
  {
    var c, time := |s.streams| - 1, s.phase.time;
    var frame, span := Frame(header, s.inflight[0], time), s.spans[c];
    assert s.pushed[|s.popped|] == s.inflight[0];
    LastCarries(header, s.pushed, s.streams, s.spans);
    WholeWritten(header, s.pushed, s.streams[c], span, frame, time);
    CoversWrite(header, s.pushed, s.streams, s.spans, s.streams[c] + frame, span.(times := span.times + [time]));
  }

  lemma NotifyInv(header: Header, s: State)
    requires Inv(header, s) && Enabled(s, Notify)
    ensures Inv(header, Apply(header, s, Notify))
  {
    assert s.pushed[|s.popped|] == s.inflight[0];
    NotifiedNext(s.notified, s.pushed, |s.popped|);
  }

  lemma PopInv(header: Header, s: State)
    requires Inv(header, s) && Enabled(s, Pop)
    ensures Inv(header, Apply(header, s, Pop))
  {
    assert s.popped + s.inflight == s.popped + [s.inflight[0]] + s.inflight[1..];
  }

  lemma StepInv(header: Header, s: State, step: Step)
    requires Inv(header, s) && Enabled(s, step)
    ensures Inv(header, Apply(header, s, step))
  {
    match step
    case Push(r) => PushInv(header, s, r);
    case Connect => CoversConnect(header, s.pushed, s.streams, s.spans, Span(Count(s), [], 0, 0));
    case TakeUp(_) =>
    case Write(n) =>
      if s.live {
        if n < |Frame(header, s.inflight[0], s.phase.time)| {
          FailedWriteInv(header, s, n);
        } else {
          WholeWriteInv(header, s, n);
        }
      }
    case Notify => NotifyInv(header, s);
    case Pop => PopInv(header, s);
  }

  lemma InitInv(header: Header)
    ensures Inv(header, INITIAL)
  {
    var none: seq<Span>, rs: seq<Reply> := [], [];
    assert End(none) == 0 && Contiguous(none) && rs[..0] == rs && EventsOf(rs) == [];
  }

  /** The invariant holds in every run, whatever connections are lost and wherever. */
  lemma {:induction false} RunInv(header: Header, s: State, steps: seq<Step>)
    requires Inv(header, s) && IsRun(header, s, steps)
    ensures Inv(header, Final(header, s, steps))
    decreases |steps|
  {
    if steps != [] {
      StepInv(header, s, steps[0]);
      RunInv(header, Apply(header, s, steps[0]), steps[1..]);
    }
  }

  /** Delivery in every run: replies leave the queue in the order in which they entered it; what
      has gone over the connections is a sequence of whole replies, each connection going on with
      the first reply that is not whole on an earlier one; every reply that has left the queue is
      among them, and at most one that has not; and events are notified in the same order, each
      once, after its reply has been written and before it leaves the queue. */
  lemma Delivery(header: Header, steps: seq<Step>)
    requires IsRun(header, INITIAL, steps)
    ensures var s := Final(header, INITIAL, steps);
            && s.pushed == s.popped + s.inflight && Covers(header, s.pushed, s.streams, s.spans)
            && |s.popped| <= End(s.spans) <= |s.popped| + 1
            && exists n :: |s.popped| <= n <= End(s.spans) && NotifiedUpTo(s.notified, s.pushed, n)
  {
    InitInv(header);
    RunInv(header, INITIAL, steps);
  }

  /** Reply i is whole on connection c. */
  predicate WholeOn(spans: seq<Span>, c: nat, i: nat) {
    c < |spans| && spans[c].lo <= i < spans[c].lo + |spans[c].times|
  }

  lemma {:induction false} CoveredOnce(spans: seq<Span>, i: nat) returns (c: nat)
    requires Contiguous(spans) && i < End(spans)
    ensures WholeOn(spans, c, i)
    decreases |spans|
  {
    var k := |spans| - 1;
    if i >= spans[k].lo {
      c := k;
    } else {
      assert forall d :: 0 <= d < k ==> spans[..k][..d] == spans[..d];
      c := CoveredOnce(spans[..k], i);
    }
  }

  lemma {:induction false} SpansGrow(spans: seq<Span>, d: nat, k: nat)
    requires d < k < |spans| && Contiguous(spans)
    ensures spans[d].lo + |spans[d].times| <= spans[k].lo
  {
    assert spans[..k][k - 1] == spans[k - 1];
    if d < k - 1 { SpansGrow(spans, d, k - 1); }
  }

  /** Every reply that has left the queue has been written whole on exactly one connection. */
  lemma WrittenOnce(header: Header, steps: seq<Step>, i: nat)
    requires IsRun(header, INITIAL, steps) && i < |Final(header, INITIAL, steps).popped|
    ensures exists c: nat :: WholeOn(Final(header, INITIAL, steps).spans, c, i)
    ensures var spans := Final(header, INITIAL, steps).spans;
            forall c: nat, d: nat :: WholeOn(spans, c, i) && WholeOn(spans, d, i) ==> c == d
  {
    var s := Final(header, INITIAL, steps);
    Delivery(header, steps);
    assert Veil(0);
    var c := CoveredOnce(s.spans, i);
    forall d: nat, e: nat | d < e && WholeOn(s.spans, d, i) ensures !WholeOn(s.spans, e, i) {
      if e < |s.spans| { SpansGrow(s.spans, d, e); }
    }
  }

  /** From place p of the stream on: the header of r, written at some time, and then all of its payload. */
  ghost predicate Stands(header: Header, stream: seq<Byte>, p: nat, r: Reply, time: nat) {
    var h := header(r, time);
    && p + |h| + |r.payload| <= |stream| && stream[p..p + |h|] == h
    && stream[p + |h|..p + |h| + |r.payload|] == r.payload
  }

  /** The k-th of the whole replies on a connection stands behind the k before it. */
  lemma {:induction false} WholeAt(header: Header, pushed: seq<Reply>, lo: nat, times: seq<nat>, k: nat,
                                   more: seq<Byte>)
    requires lo + |times| <= |pushed| && k < |times|
    ensures Stands(header, Whole(header, pushed, lo, times) + more, |Whole(header, pushed, lo, times[..k])|,
                   pushed[lo + k], times[k])
    decreases |times|
  {
    var n := |times| - 1;
    var before, frame := Whole(header, pushed, lo, times[..n]), Frame(header, pushed[lo + n], times[n]);
    assert Whole(header, pushed, lo, times) + more == before + (frame + more);
    if k == n {
      FrontStands(header, before, pushed[lo + n], times[n], more);
    } else {
      WholeAt(header, pushed, lo, times[..n], k, frame + more);
      assert times[..n][..k] == times[..k];
    }
  }

  lemma FrontStands(header: Header, before: seq<Byte>, r: Reply, time: nat, more: seq<Byte>)
    ensures Stands(header, before + (Frame(header, r, time) + more), |before|, r, time)
  {
    var h := header(r, time);
    var stream := before + (Frame(header, r, time) + more);
    assert stream == before + h + r.payload + more;
  }

  /** Every reply that has left the queue is on some connection, byte for byte: its header, as of some
      time, and right behind it all of its payload. */
  lemma PoppedOnWire(header: Header, steps: seq<Step>, i: nat) returns (c: nat, p: nat, time: nat)
    requires IsRun(header, INITIAL, steps) && i < |Final(header, INITIAL, steps).popped|
    ensures var s := Final(header, INITIAL, steps);
            c < |s.streams| && Stands(header, s.streams[c], p, s.popped[i], time)
  {
    var s := Final(header, INITIAL, steps);
    Delivery(header, steps);
    CoversOpens(header, s.pushed, s.streams, s.spans);
    c := CoveredOnce(s.spans, i);
    assert Carries(header, s.pushed, s.streams[c], s.spans[c]);
    p, time := CarriedAt(header, s.pushed, s.streams[c], s.spans[c], i);
    assert s.pushed[i] == s.popped[i];
  }

  lemma CoversOpens(header: Header, pushed: seq<Reply>, streams: seq<seq<Byte>>, spans: seq<Span>)
    requires Covers(header, pushed, streams, spans)
    ensures Contiguous(spans)
    ensures forall c :: 0 <= c < |spans| ==> Carries(header, pushed, streams[c], spans[c])
  {
    assert Veil(0);
  }

  /** Reply i, on a connection that carries it whole. */
  lemma CarriedAt(header: Header, pushed: seq<Reply>, stream: seq<Byte>, span: Span, i: nat) returns (p: nat, time: nat)
    requires Carries(header, pushed, stream, span) && span.lo <= i < span.lo + |span.times|
    ensures Stands(header, stream, p, pushed[i], time)
  {
    var whole, k := Whole(header, pushed, span.lo, span.times), i - span.lo;
    assert stream == whole + stream[|whole|..];
    p, time := |Whole(header, pushed, span.lo, span.times[..k])|, span.times[k];
    WholeAt(header, pushed, span.lo, span.times, k, stream[|whole|..]);
  }

  /** How many of the replies have an event. */
  function NumEvents(rs: seq<Reply>): nat {
    if rs == [] then 0 else NumEvents(rs[..|rs| - 1]) + if rs[|rs| - 1].event.Some? then 1 else 0
  }

  lemma {:induction false} EventsAt(rs: seq<Reply>, i: nat)
    requires i < |rs| && rs[i].event.Some?
    ensures |EventsOf(rs)| == NumEvents(rs) && NumEvents(rs[..i]) < |EventsOf(rs)|
    ensures EventsOf(rs)[NumEvents(rs[..i])] == rs[i].event.value
    decreases |rs|
  {
    var n := |rs| - 1;
    EventsCount(rs);
    EventsCount(rs[..n]);
    if i < n {
      EventsAt(rs[..n], i);
      assert rs[..n][..i] == rs[..i];
    }
  }

  lemma {:induction false} EventsCount(rs: seq<Reply>)
    ensures |EventsOf(rs)| == NumEvents(rs)
  {
    if rs != [] { EventsCount(rs[..|rs| - 1]); }
  }

  /** The event of a reply that has left the queue has been notified, in its turn: as many events before
      it as there are replies with events before the reply. And nothing else has been notified, but
      perhaps the event of the reply now being finished with. */
  lemma NotifiedInTurn(header: Header, steps: seq<Step>, i: nat)
    requires IsRun(header, INITIAL, steps)
    requires var s := Final(header, INITIAL, steps); i < |s.popped| && s.popped[i].event.Some?
    ensures var s := Final(header, INITIAL, steps);
            var k := NumEvents(s.popped[..i]);
            && k < NumEvents(s.popped) <= |s.notified| <= NumEvents(s.popped) + 1
            && s.notified[k] == s.popped[i].event.value
  {
    var s := Final(header, INITIAL, steps);
    Delivery(header, steps);
    var n :| |s.popped| <= n <= End(s.spans) && NotifiedUpTo(s.notified, s.pushed, n);
    NotifiedAre(s.notified, s.pushed, n);
    var rs := s.pushed[..n];
    EventsAt(rs, i);
    EventsCount(s.popped);
    assert rs[..i] == s.popped[..i] && rs[i] == s.popped[i];
    assert n == |s.popped| ==> rs == s.popped;
    assert n > |s.popped| ==> rs[..n - 1] == s.popped;
    EventsAt(s.popped, i);
  }

  lemma NotifiedAre(notified: seq<nat>, pushed: seq<Reply>, n: nat)
    requires NotifiedUpTo(notified, pushed, n)
    ensures notified == EventsOf(pushed[..n])
  {
    assert Veil(0);
  }

  /** The queue with its connection, and the run of the protocol that it has made so far. */
  class ReplyQueueThread {
    const header: Header
    var inflight: seq<Reply>
    var conn: Writer.Connection?
    ghost var s: State

    constructor (header: Header)
      ensures this.header == header && s == INITIAL && Valid()
    {
      this.header, inflight, conn, s := header, [], null, INITIAL;
      new;
      InitInv(header);
    }

    ghost predicate Valid()
      reads this, conn
    {
      && Inv(header, s) && s.phase.Idle? && inflight == s.inflight
      && (conn != null <==> s.live) && (conn != null ==> conn.sent == s.streams[|s.streams| - 1])
    }

    method PushReply(r: Reply)
      requires Valid()
      modifies this
      ensures Valid() && s == Apply(header, old(s), Push(r)) && conn == old(conn)
    {
      StepInv(header, s, Push(r));
      s := Apply(header, s, Push(r));
      inflight := inflight + [r];
    }

    method SetConnection(c: Writer.Connection)
      requires Valid() && c.sent == []
      modifies this
      ensures Valid() && s == Apply(header, old(s), Connect) && conn == c
    {
      StepInv(header, s, Connect);
      s := Apply(header, s, Connect);
      conn := c;
    }

    /** One pass of writeThread: nothing to do, a reply written and finished with, or the
        connection lost at byte k of it. */
    method Pass(time: nat) returns (written: bool, notify: Option<nat>, ghost k: nat)
      requires Valid()
      modifies this, conn
      ensures Valid()
      ensures old(conn) == null || old(inflight) == [] ==> !written && s == old(s)
      ensures old(conn) != null && old(inflight) != [] ==>
                && Writer.Uses(old(conn.schedule), old(conn).schedule, written)
                && (Writer.Unbroken(old(conn.schedule)) ==> written)
      ensures old(conn) != null && old(inflight) != [] ==>
                && IsRun(header, old(s), Attempt(time, k, written))
                && s == Final(header, old(s), Attempt(time, k, written))
                && (written ==> notify == old(inflight)[0].event && inflight == old(inflight)[1..] && conn == old(conn))
                && (!written ==> inflight == old(inflight) && conn == null)
    {
      written, notify, k := false, None, 0;
      if conn == null || inflight == [] {
        return;
      }
      var r := inflight[0];
      ghost var before := conn.sent;
      written, k := WriteReply(header, r, time, conn);
      ghost var frame := Frame(header, r, time);
      if written { k := |frame|; }
      assert conn.sent == before + if written then frame else frame[..k];
      AttemptRuns(header, s, time, k, written);
      s := Final(header, s, Attempt(time, k, written));
      if written {
        notify := r.event;
        inflight := inflight[1..];
      } else {
        conn := null;
      }
    }
  }

  /** The steps of one pass. */
  ghost function Attempt(time: nat, k: nat, written: bool): seq<Step> {
    if written then [TakeUp(time), Write(k), Notify, Pop] else [TakeUp(time), Write(k)]
  }

  lemma AttemptRuns(header: Header, s: State, time: nat, k: nat, written: bool)
    requires Inv(header, s) && s.phase.Idle? && s.live && s.inflight != [] && s.streams != []
    requires written == (k >= |Frame(header, s.inflight[0], time)|)
    ensures IsRun(header, s, Attempt(time, k, written))
    ensures var s' := Final(header, s, Attempt(time, k, written));
            var c, frame := |s.streams| - 1, Frame(header, s.inflight[0], time);
            && Inv(header, s') && s'.phase.Idle? && s'.live == written
            && s'.inflight == (if written then s.inflight[1..] else s.inflight)
            && |s'.streams| == |s.streams| && s'.streams[c] == s.streams[c] + if written then frame else frame[..k]
  {
    var steps := Attempt(time, k, written);
    var s1 := Apply(header, s, TakeUp(time));
    StepInv(header, s, TakeUp(time));
    var s2 := Apply(header, s1, Write(k));
    StepInv(header, s1, Write(k));
    assert steps[1..][0] == Write(k);
    if written {
      var s3 := Apply(header, s2, Notify);
      StepInv(header, s2, Notify);
      var s4 := Apply(header, s3, Pop);
      StepInv(header, s3, Pop);
      assert steps[1..][1..] == [Notify, Pop] && [Notify, Pop][1..] == [Pop] && [Pop][1..] == [];
      assert Final(header, s4, []) == s4 && Final(header, s3, [Pop]) == s4;
      assert Final(header, s2, [Notify, Pop]) == s4;
    } else {
      assert steps[1..] == [Write(k)] && [Write(k)][1..] == [];
      assert Final(header, s2, []) == s2 && Final(header, s1, [Write(k)]) == s2;
    }
  }

  /** How far the writing thread is from finishing with the first reply. */
  function Rank(s: State): nat {
    match s.phase
    case Notified => 1
    case Written => 2
    case Holding(_) => if s.live then 3 else 6
    case Idle => if s.live then 4 else 5
  }

  /** No reply is ever stuck: from every state of every run, a connection that holds lets the queue
      be emptied. */
  lemma {:induction false} CanDrain(header: Header, s: State) returns (steps: seq<Step>)
    requires Inv(header, s)
    ensures IsRun(header, s, steps)
    ensures var s' := Final(header, s, steps); s'.popped == s'.pushed == s.pushed && s'.inflight == []
    decreases |s.inflight|, Rank(s)
  {
    if s.phase.Idle? && s.inflight == [] {
      return [];
    }
    var step := match s.phase
      case Idle => if s.live then TakeUp(0) else Connect
      case Holding(time) => Write(|Frame(header, s.inflight[0], time)|)
      case Written => Notify
      case Notified => Pop;
    StepInv(header, s, step);
    var rest := CanDrain(header, Apply(header, s, step));
    steps := [step] + rest;
    assert steps[1..] == rest;
  }

  /** The same, said of runs. */
  lemma EveryRunCanDrain(header: Header, run: seq<Step>) returns (steps: seq<Step>)
    requires IsRun(header, INITIAL, run)
    ensures var s := Final(header, INITIAL, run);
            IsRun(header, s, steps) && Final(header, s, steps).popped == s.pushed
  {
    InitInv(header);
    RunInv(header, INITIAL, run);
    steps := CanDrain(header, Final(header, INITIAL, run));
  }
}
