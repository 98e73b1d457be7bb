/** Reading requests: RequestReadImpl of pocld/request.cc over a socket (pocld/connection.cc) or
    over memory (ByteReader). */
module Reader {
  import opened Options
  import opened Veils
  import opened Messages
  import opened Wire

  /** What a call of read(2) does: deliver at most so many bytes, find nothing there yet, or fail. */
  datatype Outcome = Arrives(n: nat) | WouldBlock | Fails

  datatype Kind = Socket | Memory

  /** Done: the destination is full. Again: EAGAIN or EWOULDBLOCK. Failed: any other error. */
  datatype Status = Done | Again | Failed

  /** How many of the calls deliver something. */
  function Arrivals(schedule: seq<Outcome>): nat {
    if schedule == [] then 0 else (if schedule[0].Arrives? then 1 else 0) + Arrivals(schedule[1..])
  }

  /** No read(2) fails, however many find nothing yet. */
  ghost predicate NoneFails(schedule: seq<Outcome>) {
    forall i :: 0 <= i < |schedule| ==> !schedule[i].Fails?
  }

  /** No read(2) fails, and enough of them deliver something for the `left` bytes to come. */
  ghost predicate Flowing(schedule: seq<Outcome>, left: nat) {
    Arrivals(schedule) >= left && NoneFails(schedule)
  }

  /** Waiting takes a step of the schedule; and where no read fails, only the end of the stream is a
      failure. */
  ghost predicate Spent(before: seq<Outcome>, left: nat, after: seq<Outcome>, left': nat, ret: Status) {
    && |after| <= |before| && (ret.Again? ==> |after| < |before| || before == [])
    && (Flowing(before, left) ==> Flowing(after, left'))
    && (NoneFails(before) ==> NoneFails(after) && (ret.Failed? ==> left' == 0))
  }

  lemma CutTwice(data: seq<Byte>, a: nat, b: nat, c: nat)
    requires a <= b <= c <= |data|
    ensures data[a..b] + data[b..c] == data[a..c] && data[a..c] + data[c..] == data[a..]
  {
  }

  /** A Connection or a ByteReader. */
  class Source {
    const kind: Kind
    /** All that the other side ever sends, or the memory. */
    const data: seq<Byte>
    var pos: nat
    /** What the next calls of read(2) do; nothing arrives after that. */
    var schedule: seq<Outcome>

    constructor (kind: Kind, data: seq<Byte>, schedule: seq<Outcome>)
      ensures this.kind == kind && this.data == data && this.schedule == schedule && pos == 0
    {
      this.kind, this.data, this.schedule, pos := kind, data, schedule, 0;
    }

    ghost predicate Valid()
      reads this
    {
      pos <= |data|
    }

    /** What the calls since `pos0` and `schedule0` have used up. */
    ghost predicate Moved(pos0: nat, schedule0: seq<Outcome>, ret: Status)
      reads this
    {
      pos0 <= pos <= |data| && Spent(schedule0, |data| - pos0, schedule, |data| - pos, ret)
    }

    ghost predicate Flows()
      reads this
    {
      pos <= |data| && Flowing(schedule, |data| - pos)
    }

    /** read(2) with room for `max` bytes; no bytes at all mean the end of the stream. */
    method Receive(max: nat) returns (out: Outcome, got: seq<Byte>)
      requires Valid() && max > 0
      modifies this
      ensures Valid() && old(pos) <= pos && got == data[old(pos)..pos] && |got| <= max
      ensures got != [] ==> out.Arrives?
      ensures Flowing(old(schedule), |data| - old(pos)) ==> Flowing(schedule, |data| - pos)
      ensures NoneFails(old(schedule)) ==> NoneFails(schedule) && !out.Fails?
      ensures out.Arrives? && got == [] ==> pos == |data|
      ensures |schedule| == if old(schedule) == [] then 0 else |old(schedule)| - 1
    {
      got := [];
      if schedule == [] {
        return WouldBlock, [];
      }
      out := schedule[0];
      schedule := schedule[1..];
      if out.Arrives? && pos < |data| {
        var n := if out.n == 0 then 1 else if out.n <= max then out.n else max;
        n := if pos + n <= |data| then n else |data| - pos;
        got := data[pos..pos + n];
        pos := pos + n;
      }
    }

    /** The bytes a destination must be able to get at once: memory has no second try. */
    ghost predicate Supplies(dst: Buffer, bytes: nat)
      reads this
    {
      kind.Memory? ==> dst.read == bytes || (dst.read == 0 && pos + bytes <= |data|)
    }

    /** ByteReader::readFull: copies what there is, at most `bytes`. */
    method CopyOut(bytes: nat) returns (got: seq<Byte>)
      requires Valid()
      modifies `pos
      ensures Valid() && old(pos) <= pos && got == data[old(pos)..pos]
      ensures |got| == if bytes <= |data| - old(pos) then bytes else |data| - old(pos)
    {
      var n := if bytes <= |data| - pos then bytes else |data| - pos;
      got := data[pos..pos + n];
      pos := pos + n;
    }

    /** Connection::readReentrant and ByteReader::readReentrant. */
    method ReadReentrant(dst: Buffer, bytes: nat) returns (ret: Status, dst': Buffer, ghost got: seq<Byte>)
      requires Valid() && dst.read <= bytes <= |dst.data| && Supplies(dst, bytes)
      modifies this
      ensures Valid() && old(pos) <= pos && got == data[old(pos)..pos]
      ensures dst.read + |got| <= bytes && dst' == Put(dst, got)
      ensures ret.Done? <==> dst.read + |got| == bytes
      ensures kind.Memory? ==> ret.Done?
      ensures Moved(old(pos), old(schedule), ret)
    {
      var out, bs;
      if dst.read == bytes {
        PutNothing(dst);
        return Done, dst, [];
      }
      if kind.Memory? {
        bs := CopyOut(bytes);
        PutFromStart(dst, bs);
        return Done, Buffer(bs + dst.data[|bs|..], dst.read + |bs|), bs;
      }
      out, bs := Receive(bytes - dst.read);
      if !out.Arrives? {
        PutNothing(dst);
        return if out.WouldBlock? then Again else Failed, dst, [];
      }
      if bs == [] {
        PutNothing(dst);
        return Failed, dst, [];
      }
      ret := if dst.read + |bs| != bytes then Again else Done;
      dst', got := Put(dst, bs), bs;
    }

    /** What has been taken of the message that starts at `start`. */
    ghost function Taken(start: nat): seq<Byte>
      requires start <= pos <= |data|
      reads this
    {
      data[start..pos]
    }

    /** A message starts at `start`, and the reader has come to part k; memory holds all of it and
        is read part by part. */
    ghost predicate Ready(start: nat, k: nat)
      reads this
    {
      && start <= pos <= |data|
      && forall v {:trigger Veil(v)} :: v >= 0 ==>
           && Sound(data[start..]) && Sound(Taken(start)) && Within(Taken(start)) && Reached(Taken(start), k)
           && (kind.Memory? ==> && |Taken(start)| == Start(Taken(start), k) && HasBody(data[start..])
                                && |data| - start >= Start(data[start..], 5))
    }

    /** After an attempt to read part k. */
    ghost predicate Went(start: nat, k: nat, ret: Status, parts: seq<Buffer>)
      reads this
    {
      && start <= pos <= |data| && Filled(parts, Taken(start), if ret.Done? then k + 1 else 0)
      && (if ret.Done? then Ready(start, k + 1) else Short(Taken(start)) && kind.Socket? && Ready(start, 0))
    }

    lemma ReadyOpens(start: nat, k: nat)
      requires Ready(start, k)
      ensures Sound(data[start..]) && Sound(Taken(start)) && Within(Taken(start)) && Reached(Taken(start), k)
      ensures kind.Memory? ==> |Taken(start)| == Start(Taken(start), k)
      ensures kind.Memory? ==> HasBody(data[start..]) && |data| - start >= Start(data[start..], 5)
    {
      assert Veil(0);
    }

    /** Reads on with part k, into a destination of its size. */
    method ReadPart(b: Buffer, want: nat, ghost parts: seq<Buffer>, ghost start: nat, ghost k: nat)
      returns (ret: Status, b': Buffer)
      requires k < 5 && Ready(start, k) && Sound(Taken(start)) && Filled(parts, Taken(start), k)
      requires b == Part(Taken(start), k) && want == Want(Taken(start), k)
      modifies this
      ensures Went(start, k, ret, parts[k := b']) && Moved(old(pos), old(schedule), ret)
    {
      ReadyOpens(start, k);
      ghost var p, rest, pos0 := Taken(start), data[pos..], pos;
      CutTwice(data, start, pos, pos);
      if kind.Memory? { RestSupplies(p, rest, k); }
      PartFull(p, k, b);
      ghost var end := Start(p, k) + want;
      ghost var got;
      ret, b', got := ReadReentrant(b, want);
      CutTwice(data, start, pos0, pos);
      SoundPrefix(Taken(start), data[pos..]);
      AfterPart(parts, p, got, k, b, end);
      FilledFrom(parts[k := b'], Taken(start), k + 1);
      BecomesReady(start, if ret.Done? then k + 1 else 0);
    }

    /** The other side sends the messages es over this connection. */
    ghost predicate Streams(es: seq<seq<Byte>>) {
      kind.Socket? && AreMessages(es) && data == Concat(es)
    }

    /** At the beginning of a message. */
    lemma AtMessage(start: nat, es: seq<seq<Byte>>, n: nat)
      requires Streams(es) && n <= |es| && start == pos == Begin(es, n)
      ensures Ready(start, 0) && Taken(start) == []
    {
      StreamSound(es, n);
      BecomesReady(start, 0);
    }

    /** At the end of a message, or where reading stopped. */
    lemma Ends(start: nat, es: seq<seq<Byte>>, n: nat, complete: bool, m: Msg)
      requires Streams(es) && n <= |es| && start == Begin(es, n) && start <= pos <= |data|
      requires if complete then Says(Taken(start), m) else Ready(start, 0) && !Complete(Taken(start))
      ensures if complete then n < |es| && Says(es[n], m) && pos == Begin(es, n + 1) > start else Partial(es, n, pos)
    {
      assert Veil(0);
      assert Taken(start) <= data[start..];
      if complete {
        Identified(es, n, Taken(start));
      } else {
        StillIncoming(es, n, Taken(start));
      }
    }

    lemma BecomesReady(start: nat, k: nat)
      requires start <= pos <= |data| && Sound(data[start..]) && Sound(Taken(start)) && Within(Taken(start))
      requires Reached(Taken(start), k)
      requires kind.Memory? ==> |Taken(start)| == Start(Taken(start), k)
      requires kind.Memory? ==> HasBody(data[start..]) && |data| - start >= Start(data[start..], 5)
      ensures Ready(start, k)
    {
    }

    lemma NullAtEnd(parts: seq<Buffer>, start: nat, k: nat)
      requires EXTRA <= k < 5 && Ready(start, k + 1) && Filled(parts, Taken(start), k + 1)
      requires |parts[BODY].data| == SIZEOF_REQUEST_MSG && VectorSize(parts[BODY].data, k) > 0
      ensures var n := VectorSize(parts[BODY].data, k);
              |parts[k].data| == n + 1 && parts[k].data[n := 0] == parts[k].data
    {
      ReadyOpens(start, k + 1);
      StillRead(parts, Taken(start), k + 1);
      Wire.NullAtEnd(parts, Taken(start), k);
    }

    /** The way in which a waitlist or a payload is read: none of it if its size is zero. */
    method ReadVector(b: Buffer, want: nat, room: nat, ghost parts: seq<Buffer>, ghost start: nat, ghost k: nat)
      returns (ret: Status, b': Buffer)
      requires WAITLIST <= k < 5 && Ready(start, k) && Filled(parts, Taken(start), k) && b == parts[k]
      requires |parts[BODY].data| == SIZEOF_REQUEST_MSG
      requires want == VectorSize(parts[BODY].data, k) && (want > 0 ==> room == VectorRoom(parts[BODY].data, k))
      modifies this
      ensures Went(start, k, ret, parts[k := b']) && Moved(old(pos), old(schedule), ret)
    {
      ReadyOpens(start, k);
      FilledSized(parts, Taken(start), k);
      StillRead(parts, Taken(start), k);
      if want > 0 {
        ret, b' := ReadPart(Resized(b, room), want, parts, start, k);
      } else {
        ret, b' := Done, b;
        ReachedNext(Taken(start), k);
        BecomesReady(start, k + 1);
      }
    }
  }

  /** Part of a message is missing. */
  ghost predicate Short(p: seq<Byte>) {
    forall v {:trigger Veil(v)} :: v >= 0 ==> |p| < Start(p, 5)
  }

  lemma ShortIncomplete(p: seq<Byte>)
    requires Short(p)
    ensures !Complete(p)
  {
    assert Veil(0);
  }

  /** The tracker of part k says how much of it has come. */
  lemma PartFull(p: seq<Byte>, k: nat, b: Buffer)
    requires Sound(p) && Reached(p, k) && b == Part(p, k)
    ensures b.read == if |p| < Start(p, k) + Want(p, k) then |p| - Start(p, k) else Want(p, k)
    ensures |b.data| == Room(p, k)
  {
  }

  lemma PutPart(p: seq<Byte>, got: seq<Byte>, k: nat, b: Buffer)
    requires Sound(p) && Sound(p + got) && Reached(p, k) && b == Part(p, k)
    requires got == [] || |p + got| <= Start(p, k) + Want(p, k)
    ensures b.read + |got| <= |b.data| && Put(b, got) == Part(p + got, k)
  {
    if got == [] {
      assert p + got == p;
      PutNothing(b);
    } else {
      PartGrows(p, got, k);
    }
  }

  lemma AfterPart(parts: seq<Buffer>, p: seq<Byte>, got: seq<Byte>, k: nat, b: Buffer, end: nat)
    requires k < 5 && Sound(p) && Sound(p + got) && Within(p) && Reached(p, k) && Filled(parts, p, k)
    requires b == Part(p, k) && end == Start(p, k) + Want(p, k) && (got == [] || |p + got| <= end)
    ensures b.read + |got| <= |b.data| && Filled(parts[k := Put(b, got)], p + got, k + 1)
    ensures Within(p + got)
    ensures |p + got| >= end ==> Reached(p + got, k + 1) && Start(p + got, k + 1) == end
    ensures |p + got| < end ==> Short(p + got)
  {
    PutPart(p, got, k, b);
    FilledNext(parts, p, got, k);
    Where(p, got, k, end);
  }

  /** Where reading has come to when part k ends at `end`. */
  lemma Where(p: seq<Byte>, got: seq<Byte>, k: nat, end: nat)
    requires k < 5 && Sound(p) && Sound(p + got) && Within(p) && Reached(p, k) && end == Start(p, k) + Want(p, k)
    requires got == [] || |p + got| <= end
    ensures Within(p + got)
    ensures |p + got| >= end ==> Reached(p + got, k + 1) && Start(p + got, k + 1) == end
    ensures |p + got| < end ==> Short(p + got)
  {
    StartDecided(p, got, k);
    Decided(p, got, k);
    if got == [] {
      assert p + got == p;
    }
    StartGrows(p + got, k, 5);
    assert Start(p + got, k + 1) == end;
  }

  /** A Request as far as reading is concerned. */
  class Request {
    var bodySize: Buffer
    var body: Buffer
    var waitlist: Buffer
    var extra: Buffer
    var extra2: Buffer
    var extraSize: nat
    var extra2Size: nat
    var isFullyRead: bool

    constructor ()
      ensures Holds([]) && !isFullyRead
    {
      bodySize, body, waitlist, extra, extra2 :=
        Blank(BODY_SIZE), Blank(BODY), Blank(WAITLIST), Blank(EXTRA), Blank(EXTRA2);
      extraSize, extra2Size, isFullyRead := 0, 0, false;
      new;
      assert forall k :: 0 <= k < 5 ==> Parts()[k] == Blank(k);
      NothingRead(Parts());
    }

    ghost function Parts(): seq<Buffer>
      reads this
    {
      [bodySize, body, waitlist, extra, extra2]
    }

    /** Exactly the bytes p have gone into this request. */
    ghost predicate Holds(p: seq<Byte>)
      reads this
    {
      Filled(Parts(), p, 0)
    }

    /** The payload sizes have been taken from the body. */
    ghost predicate Sized()
      reads this
    {
      && |body.data| == SIZEOF_REQUEST_MSG
      && extraSize == VectorSize(body.data, EXTRA) && extra2Size == VectorSize(body.data, EXTRA2)
    }

    method ReadBodySize(src: Source, ghost start: nat) returns (ret: Status)
      requires src.Ready(start, 0) && Holds(src.Taken(start))
      modifies this`bodySize, src
      ensures src.Went(start, BODY_SIZE, ret, Parts()) && src.Moved(old(src.pos), old(src.schedule), ret)
    {
      ghost var parts := Parts();
      src.ReadyOpens(start, 0);
      FilledSized(parts, src.Taken(start), BODY_SIZE);
      ret, bodySize := src.ReadPart(bodySize, 4, parts, start, BODY_SIZE);
      assert Parts() == parts[BODY_SIZE := bodySize];
    }

    /** The first half of RequestReadImpl: the body, and the payload sizes it announces. */
    method ReadBody(src: Source, ghost start: nat) returns (ret: Status)
      requires src.Ready(start, 0) && Holds(src.Taken(start))
      modifies this`bodySize, this`body, this`extraSize, this`extra2Size, src
      ensures src.Went(start, BODY, ret, Parts()) && src.Moved(old(src.pos), old(src.schedule), ret)
      ensures ret.Done? ==> Sized()
    {
      ret := ReadBodySize(src, start);
      if !ret.Done? {
        return;
      }
      ghost var parts := Parts();
      src.ReadyOpens(start, BODY);
      BodySizeRead(parts, src.Taken(start));
      FilledSized(parts, src.Taken(start), BODY);
      ret, body := src.ReadPart(body, LE(bodySize.data), parts, start, BODY);
      assert Parts() == parts[BODY := body];
      if !ret.Done? {
        return;
      }
      src.ReadyOpens(start, WAITLIST);
      BodyRead(Parts(), src.Taken(start));
      assert Asserted(body.data);
      extraSize, extra2Size := ExtraSize(body.data), Extra2Size(body.data);
    }

    /** The second half: the waitlist and the first payload, which gets a null byte at the end... */
    method ReadWaitlistAndExtra(src: Source, ghost start: nat) returns (ret: Status)
      requires src.Ready(start, WAITLIST) && Filled(Parts(), src.Taken(start), WAITLIST) && Sized()
      modifies this`waitlist, this`extra, src
      ensures src.Went(start, EXTRA, ret, Parts()) && src.Moved(old(src.pos), old(src.schedule), ret)
    {
      ghost var parts := Parts();
      var n := WaitlistSize(body.data) * 8;
      ret, waitlist := src.ReadVector(waitlist, n, n, parts, start, WAITLIST);
      assert Parts() == parts[WAITLIST := waitlist];
      if !ret.Done? {
        return;
      }
      parts := Parts();
      ret, extra := src.ReadVector(extra, extraSize, extraSize + 1, parts, start, EXTRA);
      assert Parts() == parts[EXTRA := extra];
      if ret.Done? && extraSize > 0 {
        src.NullAtEnd(Parts(), start, EXTRA);
        extra := Buffer(extra.data[extraSize := 0], extra.read);
      }
    }

    /** ... and the second payload, which gets one too. */
    method ReadExtra2(src: Source, ghost start: nat) returns (ret: Status)
      requires src.Ready(start, EXTRA2) && Filled(Parts(), src.Taken(start), EXTRA2) && Sized()
      modifies this`extra2, src
      ensures src.Went(start, EXTRA2, ret, Parts()) && src.Moved(old(src.pos), old(src.schedule), ret)
    {
      ghost var parts := Parts();
      ret, extra2 := src.ReadVector(extra2, extra2Size, extra2Size + 1, parts, start, EXTRA2);
      assert Parts() == parts[EXTRA2 := extra2];
      if ret.Done? && extra2Size > 0 {
        src.NullAtEnd(Parts(), start, EXTRA2);
        extra2 := Buffer(extra2.data[extra2Size := 0], extra2.read);
      }
    }

    /** RequestReadImpl, called until isFullyRead. It returns false on an error other than having
        to wait. Whatever happens, the bytes that came are kept and no byte of the next message is
        taken; the request is finished exactly when the whole message has come. */
    method Read(src: Source, ghost start: nat) returns (ok: bool)
      requires src.Ready(start, 0) && Holds(src.Taken(start)) && !isFullyRead
      modifies this, src
      ensures src.Valid() && start <= old(src.pos) <= src.pos && Holds(src.Taken(start))
      ensures isFullyRead <==> Complete(src.Taken(start))
      ensures !isFullyRead ==> src.Ready(start, 0) && src.kind.Socket?
      ensures isFullyRead ==> ok && Says(src.Taken(start), Contents())
      ensures src.Moved(old(src.pos), old(src.schedule), if !ok then Failed else if isFullyRead then Done else Again)
    {
      var ret := ReadBody(src, start);
      if ret.Done? {
        ret := ReadWaitlistAndExtra(src, start);
      }
      if ret.Done? {
        ret := ReadExtra2(src, start);
      }
      ok := !ret.Failed?;
      if ret.Done? {
        src.ReadyOpens(start, 5);
        AllRead(Parts(), src.Taken(start));
        isFullyRead := true;
        FilledFrom(Parts(), src.Taken(start), 5);
      } else {
        ShortIncomplete(src.Taken(start));
      }
    }

    /** The message. */
    function Contents(): Msg
      reads this
    {
      Msg(body.data, waitlist.data, extraSize, extra.data, extra2Size, extra2.data)
    }
  }

  /** Part of message n, but not all of it, has been taken. */
  ghost predicate Partial(es: seq<seq<Byte>>, n: nat, pos: nat) {
    n <= |es| && Begin(es, n) <= pos && (pos == Begin(es, n) || (n < |es| && pos < Begin(es, n) + |es[n]|))
  }

  /** Reads one request: the inner loop of a reading thread. */
  method ReceiveOne(src: Source, ghost es: seq<seq<Byte>>, ghost n: nat) returns (m: Option<Msg>)
    requires src.Streams(es) && n <= |es| && src.pos == Begin(es, n)
    modifies src
    ensures m.None? ==> src.pos <= |src.data| && Partial(es, n, src.pos)
    ensures m.Some? ==> n < |es| && Says(es[n], m.value) && src.pos == Begin(es, n + 1) > Begin(es, n)
    ensures old(src.Flows()) ==> src.Flows() && (m.None? ==> src.pos == |src.data|)
    ensures NoneFails(old(src.schedule)) ==>
              NoneFails(src.schedule) && (m.None? ==> src.pos == |src.data| || src.schedule == [])
  {
    ghost var start := src.pos;
    src.AtMessage(start, es, n);
    var r := new Request();
    var ok := true;
    while !r.isFullyRead && ok
      invariant start <= src.pos <= |src.data|
      invariant if r.isFullyRead then Says(src.Taken(start), r.Contents())
                else src.Ready(start, 0) && r.Holds(src.Taken(start)) && !Complete(src.Taken(start))
      invariant old(src.Flows()) ==> src.Flows() && (!ok ==> src.pos == |src.data|)
      invariant NoneFails(old(src.schedule)) ==>
                  NoneFails(src.schedule) && (!ok ==> src.pos == |src.data| || src.schedule == [])
      decreases !r.isFullyRead && ok, |src.schedule|
    {
      ok := r.Read(src, start);
      if src.schedule == [] {
        ok := false;
      }
    }
    src.Ends(start, es, n, r.isFullyRead, r.Contents());
    m := if r.isFullyRead then Some(r.Contents()) else None;
  }

  /** A reading thread on a connection over which the messages `es` are sent: however the bytes
      are cut up, it receives these messages in order, and no message that has been read to its last
      byte is missing. Unless a read fails it goes on until it has them all or nothing more arrives. */
  method ReceiveAll(src: Source, ghost es: seq<seq<Byte>>) returns (got: seq<Msg>)
    requires src.Streams(es) && src.pos == 0
    modifies src
    ensures Delivered(got, es) && src.pos <= |src.data| && Partial(es, |got|, src.pos)
    ensures old(src.Flows()) ==> |got| == |es|
    ensures NoneFails(old(src.schedule)) ==> |got| == |es| || src.schedule == []
  {
    got := [];
    var more := true;
    while more
      invariant Delivered(got, es) && src.pos <= |src.data| && Partial(es, |got|, src.pos)
      invariant more ==> src.pos == Begin(es, |got|)
      invariant old(src.Flows()) ==> src.Flows() && (!more ==> src.pos == |src.data|)
      invariant NoneFails(old(src.schedule)) ==>
                  NoneFails(src.schedule) && (!more ==> src.pos == |src.data| || src.schedule == [])
      decreases more, |src.data| - src.pos
    {
      var m := ReceiveOne(src, es, |got|);
      if m.Some? {
        got := got + [m.value];
        StreamAt(es, |got|);
      } else {
        more := false;
      }
    }
    if |got| < |es| {
      MessageLong(es[|got|], []);
      StreamAt(es, |got|);
      StreamAt(es, |got| + 1);
    }
  }

  lemma NothingRead(parts: seq<Buffer>)
    requires |parts| == 5 && forall k :: 0 <= k < 5 ==> parts[k] == Blank(k)
    ensures Filled(parts, [], 0)
  {
    var p: seq<Byte> := [];
    assert Fill(4, 4, p) == Blank(BODY_SIZE) && Part(p, BODY_SIZE) == Blank(BODY_SIZE);
    assert !Reached(p, 1) && Sound(p);
    forall k | 0 <= k < 5 ensures Fits(parts[k], p, k) {}
    assert Filled(parts, p, 0);
  }

  lemma PutFromStart(b: Buffer, got: seq<Byte>)
    requires b.read == 0 && |got| <= |b.data|
    ensures Put(b, got) == Buffer(got + b.data[|got|..], |got|)
  {
    assert [] + got == got;
  }

  lemma PutNothing(b: Buffer)
    requires b.read <= |b.data|
    ensures Put(b, []) == b
  {
    assert b.data[..b.read] + [] + b.data[b.read..] == b.data;
  }
}
