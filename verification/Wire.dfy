/** The request stream of pocld as bytes: what Peer::writerThread sends for a request, and what a
    reader of the stream holds after any number of bytes. */
module Wire {
  import opened Veils
  import opened Messages

  // ---------------------------------------------------------------- the reader's buffers

  /** A destination together with its tracker (for example Body and BodyBytesRead). */
  datatype Buffer = Buffer(data: seq<Byte>, read: nat)

  /** A destination of `len` bytes after `input` has arrived, of which it takes at most `want`. */
  function Fill(len: nat, want: nat, input: seq<Byte>): Buffer
    requires want <= len
  {
    var k := if |input| < want then |input| else want;
    Buffer(input[..k] + Zeros(len - k), k)
  }

  /** More bytes at the tracker's position. */
  function Put(b: Buffer, got: seq<Byte>): Buffer
    requires b.read + |got| <= |b.data|
  {
    Buffer(b.data[..b.read] + got + b.data[b.read + |got|..], b.read + |got|)
  }

  /** std::vector::resize. */
  function Resized(b: Buffer, len: nat): Buffer {
    Buffer(if len <= |b.data| then b.data[..len] else b.data + Zeros(len - |b.data|), b.read)
  }

  lemma FillMore(len: nat, want: nat, input: seq<Byte>, got: seq<Byte>)
    requires |input| + |got| <= want <= len
    ensures Put(Fill(len, want, input), got) == Fill(len, want, input + got)
  {
    var b := Fill(len, want, input);
    assert b.data[..b.read] == input;
    assert b.data[b.read + |got|..] == Zeros(len - |input| - |got|);
    assert (input + got)[..|input + got|] == input + got;
  }

  lemma FillDone(len: nat, want: nat, input: seq<Byte>, got: seq<Byte>)
    requires want <= len && want <= |input|
    ensures Fill(len, want, input + got) == Fill(len, want, input)
  {
    assert (input + got)[..want] == input[..want];
  }

  // ---------------------------------------------------------------- the parts of a message

  // The five parts of a message, in stream order.
  const BODY_SIZE := 0
  const BODY := 1
  const WAITLIST := 2
  const EXTRA := 3
  const EXTRA2 := 4

  /** BodySize, once it has been read. */
  function BodySize(p: seq<Byte>): nat
    requires |p| >= 4
  {
    LE(p[..4])
  }

  /** The body has been read, and fits. */
  predicate HasBody(p: seq<Byte>) {
    |p| >= 4 && BodySize(p) <= SIZEOF_REQUEST_MSG && |p| >= 4 + BodySize(p)
  }

  function BodyOf(p: seq<Byte>): Body
    requires HasBody(p)
  {
    p[4..4 + BodySize(p)] + Zeros(SIZEOF_REQUEST_MSG - BodySize(p))
  }

  /** How many bytes part k takes from the stream, as far as p tells. */
  function Want(p: seq<Byte>, k: nat): nat {
    if k == BODY_SIZE then 4
    else if k == BODY then (if |p| >= 4 then BodySize(p) else 0)
    else if HasBody(p) then VectorSize(BodyOf(p), k)
    else 0
  }

  /** The size of waitlist and payloads. */
  function VectorSize(b: Body, k: nat): nat {
    if k == WAITLIST then WaitlistSize(b) * 8
    else if k == EXTRA then ExtraSize(b)
    else if k == EXTRA2 then Extra2Size(b)
    else 0
  }

  /** The size of their destinations: payloads get a terminating null byte. */
  function VectorRoom(b: Body, k: nat): nat {
    VectorSize(b, k) + if k >= EXTRA && VectorSize(b, k) > 0 then 1 else 0
  }

  function Start(p: seq<Byte>, k: nat): nat {
    if k == 0 then 0 else Start(p, k - 1) + Want(p, k - 1)
  }

  /** The reader has come to part k. */
  predicate Reached(p: seq<Byte>, k: nat) {
    (k >= WAITLIST ==> HasBody(p)) && |p| >= Start(p, k)
  }

  /** The size of part k's destination. */
  function Room(p: seq<Byte>, k: nat): (len: nat)
    requires |p| >= 4 ==> BodySize(p) <= SIZEOF_REQUEST_MSG
    ensures Want(p, k) <= len
  {
    if k == BODY then SIZEOF_REQUEST_MSG
    else if k >= WAITLIST && HasBody(p) then VectorRoom(BodyOf(p), k)
    else Want(p, k)
  }

  /** Part k's destination in a new request. */
  function Blank(k: nat): Buffer {
    if k == BODY_SIZE then Buffer(Zeros(4), 0)
    else if k == BODY then Buffer(Zeros(SIZEOF_REQUEST_MSG), 0)
    else Buffer([], 0)
  }

  /** Part k's destination after the bytes p. */
  function Part(p: seq<Byte>, k: nat): Buffer
    requires |p| >= 4 ==> BodySize(p) <= SIZEOF_REQUEST_MSG
  {
    if Reached(p, k) then Fill(Room(p, k), Want(p, k), p[Start(p, k)..]) else Blank(k)
  }

  /** b is part k's destination after p, or has not been given its size because none of it came yet. */
  ghost predicate Fits(b: Buffer, p: seq<Byte>, k: nat)
    requires |p| >= 4 ==> BodySize(p) <= SIZEOF_REQUEST_MSG
  {
    b == Part(p, k) || (b == Blank(k) && (Reached(p, k) ==> |p| == Start(p, k)))
  }

  /** p is exactly one message. */
  predicate Complete(p: seq<Byte>) {
    HasBody(p) && |p| == Start(p, 5)
  }

  // ---------------------------------------------------------------- what p decides stays decided

  lemma BodyDecided(p: seq<Byte>, q: seq<Byte>)
    requires |p| >= 4
    ensures BodySize(p + q) == BodySize(p)
    ensures HasBody(p) ==> HasBody(p + q) && BodyOf(p + q) == BodyOf(p)
  {
    assert (p + q)[..4] == p[..4];
    if HasBody(p) {
      assert (p + q)[4..4 + BodySize(p)] == p[4..4 + BodySize(p)];
    }
  }

  lemma Decided(p: seq<Byte>, q: seq<Byte>, k: nat)
    requires k >= WAITLIST ==> HasBody(p)
    requires k == BODY ==> |p| >= 4
    ensures Want(p + q, k) == Want(p, k)
    ensures (|p + q| >= 4 ==> BodySize(p + q) <= SIZEOF_REQUEST_MSG) ==>
            (|p| >= 4 ==> BodySize(p) <= SIZEOF_REQUEST_MSG) && Room(p + q, k) == Room(p, k)
  {
    if |p| >= 4 { BodyDecided(p, q); }
  }

  lemma {:induction false} StartDecided(p: seq<Byte>, q: seq<Byte>, k: nat)
    requires Reached(p, k)
    ensures Start(p + q, k) == Start(p, k) && Reached(p + q, k)
  {
    if |p| >= 4 { BodyDecided(p, q); }
    if k > 0 {
      StartDecided(p, q, k - 1);
      Decided(p, q, k - 1);
    }
  }

  lemma {:induction false} StartGrows(p: seq<Byte>, j: nat, k: nat)
    requires j < k
    ensures Start(p, j) + Want(p, j) <= Start(p, k)
  {
    if j < k - 1 { StartGrows(p, j, k - 1); }
  }

  /** What the reader demands of the stream: the body fits, and the asserted bound holds. */
  predicate Sound(s: seq<Byte>) {
    |s| >= 4 ==> BodySize(s) <= SIZEOF_REQUEST_MSG && (HasBody(s) ==> Asserted(BodyOf(s)))
  }

  lemma SoundPrefix(p: seq<Byte>, q: seq<Byte>)
    requires Sound(p + q)
    ensures Sound(p)
  {
    if |p| >= 4 { BodyDecided(p, q); }
  }

  // ---------------------------------------------------------------- one part at a time

  /** Giving a destination its size (again) makes it what p says. */
  lemma SizedFits(b: Buffer, p: seq<Byte>, k: nat)
    requires Sound(p) && Fits(b, p, k) && Reached(p, k)
    ensures Resized(b, Room(p, k)) == Part(p, k)
  {
    if b != Part(p, k) {
      assert p[Start(p, k)..] == [];
      assert Fill(Room(p, k), Want(p, k), []).data == Zeros(Room(p, k));
      assert Resized(b, Room(p, k)).data == Zeros(Room(p, k));
    } else {
      assert Resized(b, Room(p, k)).data == b.data;
    }
  }

  lemma PartAt(p: seq<Byte>, k: nat, s: nat, want: nat, room: nat, input: seq<Byte>)
    requires Sound(p) && Reached(p, k) && s == Start(p, k) && want == Want(p, k) && room == Room(p, k)
    requires input == p[s..]
    ensures Part(p, k) == Fill(room, want, input)
  {
  }

  lemma DropThrough(p: seq<Byte>, q: seq<Byte>, s: nat)
    requires s <= |p|
    ensures (p + q)[s..] == p[s..] + q
  {
  }

  lemma PartDecided(p: seq<Byte>, got: seq<Byte>, k: nat)
    requires Sound(p + got) && Sound(p) && Reached(p, k)
    ensures Part(p + got, k) == Fill(Room(p, k), Want(p, k), p[Start(p, k)..] + got)
  {
    var s, want, room := Start(p, k), Want(p, k), Room(p, k);
    StartDecided(p, got, k);
    Decided(p, got, k);
    DropThrough(p, got, s);
    PartAt(p + got, k, s, want, room, p[s..] + got);
  }

  /** Bytes of part k go behind what is there of it. */
  lemma PartGrows(p: seq<Byte>, got: seq<Byte>, k: nat)
    requires Sound(p + got) && Sound(p) && Reached(p, k) && |p + got| <= Start(p, k) + Want(p, k)
    ensures Part(p, k).read + |got| <= |Part(p, k).data| && Put(Part(p, k), got) == Part(p + got, k)
  {
    PartDecided(p, got, k);
    FillMore(Room(p, k), Want(p, k), p[Start(p, k)..], got);
  }

  /** Parts that are complete do not change. */
  lemma PartStays(p: seq<Byte>, got: seq<Byte>, j: nat, k: nat)
    requires Sound(p + got) && Sound(p) && j < k && Reached(p, k)
    ensures Part(p + got, j) == Part(p, j)
  {
    StartGrows(p, j, k);
    PartDecided(p, got, j);
    FillDone(Room(p, j), Want(p, j), p[Start(p, j)..], got);
  }

  /** Parts further on are still blank. */
  lemma PartWaits(b: Buffer, p: seq<Byte>, got: seq<Byte>, k: nat, j: nat)
    requires Sound(p + got) && Sound(p) && k < j && Reached(p, k) && |p + got| <= Start(p, k) + Want(p, k)
    requires Fits(b, p, j)
    ensures Fits(b, p + got, j)
  {
    if got == [] {
      assert p + got == p;
    } else {
      StartGrows(p, k, j);
      StartGrows(p + got, k, j);
      StartDecided(p, got, k);
      Decided(p, got, k);
    }
  }

  /** The destinations after p: exactly so before part i, and up to sizing from part i on. */
  ghost predicate Filled(parts: seq<Buffer>, p: seq<Byte>, i: nat) {
    |parts| == 5 && forall v {:trigger Veil(v)} :: v >= 0 ==>
      && Sound(p)
      && (forall k :: 0 <= k < i && k < 5 ==> parts[k] == Part(p, k))
      && (forall k :: i <= k < 5 ==> Fits(parts[k], p, k))
  }

  /** Sizing the destination of part k. */
  lemma FilledSized(parts: seq<Buffer>, p: seq<Byte>, k: nat)
    requires Sound(p) && Filled(parts, p, k) && k < 5 && Reached(p, k)
    ensures Resized(parts[k], Room(p, k)) == Part(p, k) && Filled(parts[k := Part(p, k)], p, k + 1)
    ensures k <= BODY || Want(p, k) == 0 ==> parts[k] == Part(p, k)
  {
    assert Veil(0);
    SizedFits(parts[k], p, k);
    assert parts[k].data == parts[k].data[..|parts[k].data|];
  }

  lemma FilledNext(parts: seq<Buffer>, p: seq<Byte>, got: seq<Byte>, k: nat)
    requires Sound(p + got) && Sound(p) && Filled(parts, p, k) && k < 5 && Reached(p, k)
    requires got == [] || |p + got| <= Start(p, k) + Want(p, k)
    ensures Filled(parts[k := Part(p + got, k)], p + got, k + 1)
  {
    assert Veil(0);
    if got == [] {
      FilledSized(parts, p, k);
      assert p + got == p;
      return;
    }
    var parts' := parts[k := Part(p + got, k)];
    forall j | 0 <= j < k ensures parts'[j] == Part(p + got, j) {
      PartStays(p, got, j, k);
    }
    forall j | k < j < 5 ensures Fits(parts'[j], p + got, j) {
      PartWaits(parts[j], p, got, k, j);
    }
  }

  /** When part k is full, the reader has come to part k + 1. */
  lemma ReachedNext(p: seq<Byte>, k: nat)
    requires Sound(p) && Reached(p, k) && |p| >= Start(p, k) + Want(p, k)
    ensures Reached(p, k + 1)
  {
  }

  /** What is left of a whole message has all of part k. */
  lemma RestSupplies(p: seq<Byte>, rest: seq<Byte>, k: nat)
    requires k < 5 && Reached(p, k) && |p| == Start(p, k) && HasBody(p + rest) && |p + rest| >= Start(p + rest, 5)
    ensures |rest| >= Want(p, k)
  {
    StartDecided(p, rest, k);
    Decided(p, rest, k);
    StartGrows(p + rest, k, 5);
  }

  /** The whole invariant: p is what has been read of one message. */
  lemma FilledFrom(parts: seq<Buffer>, p: seq<Byte>, k: nat)
    requires Sound(p) && Filled(parts, p, k)
    ensures forall i :: 0 <= i <= k ==> Filled(parts, p, i)
  {
    assert Veil(0);
  }

  lemma BodySizeRead(parts: seq<Buffer>, p: seq<Byte>)
    requires Sound(p) && Filled(parts, p, 1) && Reached(p, 1)
    ensures LE(parts[BODY_SIZE].data) == BodySize(p)
  {
    assert Veil(0);
    assert parts[BODY_SIZE].data == p[..4];
  }

  lemma BodyRead(parts: seq<Buffer>, p: seq<Byte>)
    requires Sound(p) && Filled(parts, p, 2) && Reached(p, 2)
    ensures parts[BODY].data == BodyOf(p)
  {
    assert Veil(0);
    assert Start(p, 1) == 4;
    assert p[4..][..BodySize(p)] == p[4..4 + BodySize(p)];
  }

  lemma StillRead(parts: seq<Buffer>, p: seq<Byte>, k: nat)
    requires Sound(p) && WAITLIST <= k && Filled(parts, p, k) && Reached(p, k)
    ensures parts[BODY].data == BodyOf(p)
  {
    FilledFrom(parts, p, k);
    StartGrows2(p, k);
    BodyRead(parts, p);
  }

  lemma {:induction false} StartGrows2(p: seq<Byte>, k: nat)
    requires WAITLIST <= k && Reached(p, k)
    ensures Reached(p, WAITLIST)
  {
    if k > WAITLIST { StartGrows(p, WAITLIST, k); }
  }

  /** A payload's destination ends in a null byte. */
  lemma NullAtEnd(parts: seq<Buffer>, p: seq<Byte>, k: nat)
    requires Sound(p) && EXTRA <= k < 5 && Filled(parts, p, k + 1) && Reached(p, k + 1) && Want(p, k) > 0
    ensures |parts[k].data| == Want(p, k) + 1 && parts[k].data[Want(p, k) := 0] == parts[k].data
  {
    assert Veil(0);
  }

  /** No byte of the next message. */
  predicate Within(p: seq<Byte>) {
    HasBody(p) ==> |p| <= Start(p, 5)
  }

  // ---------------------------------------------------------------- messages

  /** The parts of a Request that travel. Payloads may be longer than what is sent of them. */
  datatype Msg = Msg(body: seq<Byte>, waitlist: seq<Byte>, extraSize: nat, extra: seq<Byte>, extra2Size: nat,
                     extra2: seq<Byte>)

  function Terminated(s: seq<Byte>): seq<Byte> {
    if s == [] then [] else s + [0]
  }

  /** The message that the bytes p are. */
  function Received(p: seq<Byte>): Msg
    requires Complete(p)
  {
    StartGrows(p, 2, 5);
    StartGrows(p, 3, 5);
    StartGrows(p, 4, 5);
    Msg(BodyOf(p), p[Start(p, 2)..Start(p, 3)],
        ExtraSize(BodyOf(p)), Terminated(p[Start(p, 3)..Start(p, 4)]),
        Extra2Size(BodyOf(p)), Terminated(p[Start(p, 4)..]))
  }

  lemma AllRead(parts: seq<Buffer>, p: seq<Byte>)
    requires Sound(p) && Filled(parts, p, 5) && Reached(p, 5) && Within(p)
    ensures Complete(p)
    ensures Received(p) == Msg(parts[BODY].data, parts[WAITLIST].data, ExtraSize(BodyOf(p)), parts[EXTRA].data,
                               Extra2Size(BodyOf(p)), parts[EXTRA2].data)
  {
    StillRead(parts, p, 5);
    VectorRead(parts, p, WAITLIST);
    VectorRead(parts, p, EXTRA);
    VectorRead(parts, p, EXTRA2);
    assert p[Start(p, 4)..] == p[Start(p, 4)..Start(p, 5)];
  }

  lemma VectorRead(parts: seq<Buffer>, p: seq<Byte>, k: nat)
    requires Sound(p) && Filled(parts, p, 5) && Complete(p) && WAITLIST <= k < 5
    ensures Start(p, k) <= Start(p, k + 1) <= |p|
    ensures parts[k].data == var s := p[Start(p, k)..Start(p, k + 1)]; if k == WAITLIST then s else Terminated(s)
  {
    assert Veil(0);
    if k < EXTRA2 { StartGrows(p, k + 1, 5); }
    var s := p[Start(p, k)..];
    assert parts[k] == Fill(Room(p, k), Want(p, k), s);
    assert s[..Want(p, k)] == p[Start(p, k)..Start(p, k + 1)];
  }

  // ---------------------------------------------------------------- writing

  /** A request that can be sent: what Peer::writerThread asserts, with payload sizes that the
      body announces. */
  predicate WellFormed(m: Msg) {
    && |m.body| == SIZEOF_REQUEST_MSG && Asserted(m.body) && |m.waitlist| == WaitlistSize(m.body) * 8
    && m.extraSize == ExtraSize(m.body) <= |m.extra| && m.extra2Size == Extra2Size(m.body) <= |m.extra2|
  }

  /** The bytes Peer::writerThread writes for a request. */
  function Encode(m: Msg): seq<Byte>
    requires WellFormed(m)
  {
    var size := RequestSize(MessageType(m.body));
    ToLE(size, 4) + m.body[..size] + m.waitlist + m.extra[..m.extraSize] + m.extra2[..m.extra2Size]
  }

  /** What arrives of a request: its body up to request_size, and its payloads null-terminated. */
  function Arrived(m: Msg): Msg
    requires WellFormed(m)
  {
    Msg(Trim(m.body, RequestSize(MessageType(m.body))), m.waitlist,
        m.extraSize, Terminated(m.extra[..m.extraSize]), m.extra2Size, Terminated(m.extra2[..m.extra2Size]))
  }

  lemma SizeRoundTrip(t: nat)
    ensures LE(ToLE(RequestSize(t), 4)) == RequestSize(t)
  {
    assert Pow256(2) == 65536;
    assert Pow256(4) >= 65536;
    LERoundTrip(RequestSize(t), 4);
  }

  /** The reader sees the body of the request that was written. */
  lemma EncodedBody(m: Msg, more: seq<Byte>)
    requires WellFormed(m)
    ensures var e := Encode(m) + more;
            HasBody(e) && BodySize(e) == RequestSize(MessageType(m.body)) && BodyOf(e) == Trim(m.body, BodySize(e))
  {
    var e := Encode(m) + more;
    var size := RequestSize(MessageType(m.body));
    SizeRoundTrip(MessageType(m.body));
    assert e[..4] == ToLE(size, 4);
    assert e[4..4 + size] == m.body[..size];
  }

  lemma EncodedStarts(m: Msg, more: seq<Byte>)
    requires WellFormed(m)
    ensures var e, size := Encode(m) + more, RequestSize(MessageType(m.body));
            && Sound(e) && Start(e, 2) == 4 + size && Start(e, 3) == 4 + size + |m.waitlist|
            && Start(e, 4) == 4 + size + |m.waitlist| + m.extraSize && Start(e, 5) == |Encode(m)|
  {
    var e := Encode(m) + more;
    EncodedBody(m, more);
    TrimDecides(m.body);
    assert Start(e, 1) == Start(e, 0) + Want(e, 0) == 4;
    assert Start(e, 2) == Start(e, 1) + Want(e, 1) == 4 + BodySize(e);
    assert Start(e, 3) == Start(e, 2) + Want(e, 2);
    assert Start(e, 4) == Start(e, 3) + Want(e, 3);
    assert Start(e, 5) == Start(e, 4) + Want(e, 4);
  }

  /** Reading undoes writing: the bytes of a request are one message, and it is that request. */
  lemma RoundTrip(m: Msg)
    requires WellFormed(m)
    ensures Complete(Encode(m)) && Received(Encode(m)) == Arrived(m)
  {
    var size := RequestSize(MessageType(m.body));
    EncodedWhole(m);
    Slices(ToLE(size, 4) + m.body[..size], m.waitlist, m.extra[..m.extraSize], m.extra2[..m.extra2Size]);
  }

  /** EncodedBody and EncodedStarts, of a message alone. */
  lemma EncodedWhole(m: Msg)
    requires WellFormed(m)
    ensures var e, size := Encode(m), RequestSize(MessageType(m.body));
            var body := Trim(m.body, size);
            && Complete(e) && BodyOf(e) == body && ExtraSize(body) == m.extraSize && Extra2Size(body) == m.extra2Size
            && Start(e, 2) == 4 + size && Start(e, 3) == 4 + size + |m.waitlist|
            && Start(e, 4) == 4 + size + |m.waitlist| + m.extraSize
  {
    assert Encode(m) + [] == Encode(m);
    EncodedBody(m, []);
    EncodedStarts(m, []);
    TrimDecides(m.body);
  }

  /** The parts of a concatenation, by position. */
  lemma Slices(a: seq<Byte>, b: seq<Byte>, c: seq<Byte>, d: seq<Byte>)
    ensures var e, i, j := a + b + c + d, |a| + |b|, |a| + |b| + |c|;
            e[|a|..i] == b && e[i..j] == c && e[j..] == d
  {
  }

  /** Where everything is in the bytes of a request. */
  lemma WireLayout(m: Msg)
    requires WellFormed(m)
    ensures var e, n := Encode(m), RequestSize(MessageType(m.body));
            var i := 4 + n;
            var j := i + |m.waitlist|;
            var k := j + m.extraSize;
            && |e| == k + m.extra2Size && LE(e[..4]) == n && e[4..i] == m.body[..n]
            && e[i..j] == m.waitlist && e[j..k] == m.extra[..m.extraSize] && e[k..] == m.extra2[..m.extra2Size]
  {
    var n := RequestSize(MessageType(m.body));
    SizeRoundTrip(MessageType(m.body));
    AllParts(ToLE(n, 4), m.body[..n], m.waitlist, m.extra[..m.extraSize], m.extra2[..m.extra2Size]);
  }

  lemma AllParts(size: seq<Byte>, head: seq<Byte>, c: seq<Byte>, d: seq<Byte>, e: seq<Byte>)
    requires |size| == 4
    ensures var p, i, j := size + head + c + d + e, 4 + |head| + |c|, 4 + |head| + |c| + |d|;
            && p[..4] == size && p[4..4 + |head|] == head
            && p[4 + |head|..i] == c && p[i..j] == d && p[j..] == e
  {
    FrontParts(size, head, c, d, e);
    Slices(size + head, c, d, e);
  }

  /** What a reader makes of a size, so many bytes of body, and the waitlist and payloads that the body
      announces: these parts, payloads null-terminated. */
  lemma ReadsParts(size: seq<Byte>, head: seq<Byte>, waitlist: seq<Byte>, extra: seq<Byte>, extra2: seq<Byte>, b: Body)
    requires |size| == 4 && LE(size) == |head| <= SIZEOF_REQUEST_MSG && b == head + Zeros(SIZEOF_REQUEST_MSG - |head|)
    requires |waitlist| == WaitlistSize(b) * 8 && |extra| == ExtraSize(b) && |extra2| == Extra2Size(b)
    ensures var p := size + head + waitlist + extra + extra2;
            && Complete(p)
            && Received(p) == Msg(b, waitlist, |extra|, if extra == [] then [] else extra + [0],
                                  |extra2|, if extra2 == [] then [] else extra2 + [0])
  {
    var p := size + head + waitlist + extra + extra2;
    FrontParts(size, head, waitlist, extra, extra2);
    HeadIsBody(p, head, b);
    StartsOf(p, b);
    Slices(size + head, waitlist, extra, extra2);
  }

  lemma FrontParts(size: seq<Byte>, head: seq<Byte>, c: seq<Byte>, d: seq<Byte>, e: seq<Byte>)
    requires |size| == 4
    ensures var p := size + head + c + d + e; p[..4] == size && p[4..4 + |head|] == head
  {
    var p := size + head + c + d + e;
    assert p == size + (head + (c + d + e));
  }

  lemma HeadIsBody(p: seq<Byte>, head: seq<Byte>, b: Body)
    requires |p| >= 4 + |head| && LE(p[..4]) == |head| <= SIZEOF_REQUEST_MSG && p[4..4 + |head|] == head
    requires b == head + Zeros(SIZEOF_REQUEST_MSG - |head|)
    ensures HasBody(p) && BodyOf(p) == b && BodySize(p) == |head|
  {
  }

  /** Where the parts begin, once the body is known. */
  lemma StartsOf(p: seq<Byte>, b: Body)
    requires HasBody(p) && BodyOf(p) == b
    ensures Start(p, 2) == 4 + BodySize(p) && Start(p, 3) == Start(p, 2) + WaitlistSize(b) * 8
    ensures Start(p, 4) == Start(p, 3) + ExtraSize(b) && Start(p, 5) == Start(p, 4) + Extra2Size(b)
  {
    assert Start(p, 1) == Start(p, 0) + Want(p, 0) == 4;
    assert Start(p, 2) == Start(p, 1) + Want(p, 1);
    assert Start(p, 3) == Start(p, 2) + Want(p, 2);
    assert Start(p, 4) == Start(p, 3) + Want(p, 3);
    assert Start(p, 5) == Start(p, 4) + Want(p, 4);
  }

  /** No message is the beginning of another: a stream can be cut into messages in one way only. */
  lemma PrefixFree(p: seq<Byte>, r: seq<Byte>)
    requires Complete(p) && Complete(p + r)
    ensures r == []
  {
    StartDecided(p, r, 5);
  }

  function Concat(parts: seq<seq<Byte>>): seq<Byte> {
    if parts == [] then [] else Concat(parts[..|parts| - 1]) + parts[|parts| - 1]
  }

  lemma {:induction false} ConcatAt(parts: seq<seq<Byte>>, n: nat)
    requires n < |parts|
    ensures |Concat(parts[..n + 1])| == |Concat(parts[..n])| + |parts[n]| <= |Concat(parts)|
    ensures parts[n] <= Concat(parts)[|Concat(parts[..n])|..]
  {
    var k := |parts| - 1;
    assert parts[..n + 1][..n] == parts[..n];
    if n == k {
      assert parts[..n + 1] == parts;
    } else {
      ConcatAt(parts[..k], n);
      assert parts[..k][..n] == parts[..n] && parts[..k][..n + 1] == parts[..n + 1];
      var start := |Concat(parts[..n])|;
      assert Concat(parts)[start..] == Concat(parts[..k])[start..] + parts[k];
    }
  }

  /** e is the bytes of one message. */
  ghost predicate IsMessage(e: seq<Byte>) {
    forall v {:trigger Veil(v)} :: v >= 0 ==> Complete(e) && Sound(e)
  }

  ghost predicate AreMessages(es: seq<seq<Byte>>) {
    forall i :: 0 <= i < |es| ==> IsMessage(es[i])
  }

  /** m is what the bytes e say. */
  ghost predicate Says(e: seq<Byte>, m: Msg) {
    forall v {:trigger Veil(v)} :: v >= 0 ==> Complete(e) && m == Received(e)
  }

  /** Where message n begins in the stream. */
  ghost function Begin(es: seq<seq<Byte>>, n: nat): nat
    requires n <= |es|
  {
    |Concat(es[..n])|
  }

  lemma StreamAt(es: seq<seq<Byte>>, n: nat)
    requires n <= |es|
    ensures Begin(es, n) <= |Concat(es)|
    ensures n == |es| ==> Begin(es, n) == |Concat(es)|
    ensures n < |es| ==> Begin(es, n + 1) == Begin(es, n) + |es[n]| && es[n] <= Concat(es)[Begin(es, n)..]
  {
    if n < |es| {
      ConcatAt(es, n);
    } else {
      assert es[..n] == es;
    }
  }

  lemma MessageLong(e: seq<Byte>, more: seq<Byte>)
    requires IsMessage(e)
    ensures |e| >= 4 && Sound(e + more)
  {
    assert Veil(0);
    BodyDecided(e, more);
  }

  lemma StreamSound(es: seq<seq<Byte>>, n: nat)
    requires AreMessages(es) && n <= |es|
    ensures Begin(es, n) <= |Concat(es)| && Sound(Concat(es)[Begin(es, n)..])
  {
    StreamAt(es, n);
    if n < |es| {
      var rest := Concat(es)[Begin(es, n)..];
      assert rest == es[n] + rest[|es[n]|..];
      MessageLong(es[n], rest[|es[n]|..]);
    }
  }

  /** Two messages at the beginning of the same bytes are the same. */
  lemma SamePrefix(p: seq<Byte>, e: seq<Byte>, s: seq<Byte>)
    requires Complete(p) && IsMessage(e) && p <= s && e <= s
    ensures p == e
  {
    assert Veil(0);
    if |p| <= |e| {
      assert e == p + e[|p|..];
      PrefixFree(p, e[|p|..]);
    } else {
      assert p == e + p[|e|..];
      PrefixFree(e, p[|e|..]);
    }
  }

  /** A complete message taken from the stream at the right place is the one sent there. */
  lemma Identified(es: seq<seq<Byte>>, n: nat, taken: seq<Byte>)
    requires AreMessages(es) && n <= |es| && Begin(es, n) <= |Concat(es)|
    requires taken <= Concat(es)[Begin(es, n)..] && Complete(taken)
    ensures n < |es| && taken == es[n] && Begin(es, n + 1) == Begin(es, n) + |taken|
  {
    StreamAt(es, n);
    assert n < |es|;
    SamePrefix(taken, es[n], Concat(es)[Begin(es, n)..]);
  }

  /** An incomplete one is a proper part of the one sent there. */
  lemma StillIncoming(es: seq<seq<Byte>>, n: nat, taken: seq<Byte>)
    requires AreMessages(es) && n <= |es| && Begin(es, n) <= |Concat(es)|
    requires taken <= Concat(es)[Begin(es, n)..] && !Complete(taken) && Within(taken)
    ensures taken == [] || (n < |es| && |taken| < |es[n]|)
  {
    StreamAt(es, n);
    if n < |es| && |taken| >= |es[n]| {
      var r := taken[|es[n]|..];
      assert taken == es[n] + r;
      Overlong(es[n], r);
    }
  }

  lemma Overlong(e: seq<Byte>, r: seq<Byte>)
    requires IsMessage(e) && Within(e + r)
    ensures Complete(e + r)
  {
    assert Veil(0);
    StartDecided(e, r, 5);
  }

  /** `got` are the first messages of es, in order. */
  ghost predicate Delivered(got: seq<Msg>, es: seq<seq<Byte>>) {
    |got| <= |es| && forall i :: 0 <= i < |got| ==> Says(es[i], got[i])
  }

  // ---------------------------------------------------------------- requests on the stream

  /** e is what is written for m. */
  ghost predicate Encodes(m: Msg, e: seq<Byte>) {
    forall v {:trigger Veil(v)} :: v >= 0 ==> WellFormed(m) && e == Encode(m)
  }

  ghost predicate AllEncode(ms: seq<Msg>, es: seq<seq<Byte>>) {
    |ms| == |es| && forall i :: 0 <= i < |ms| ==> Encodes(ms[i], es[i])
  }

  /** Requests become messages, and whoever receives the messages receives the requests. */
  lemma RequestsDelivered(ms: seq<Msg>, es: seq<seq<Byte>>, got: seq<Msg>)
    requires AllEncode(ms, es)
    ensures AreMessages(es)
    ensures Delivered(got, es) <==>
            |got| <= |ms| && forall i :: 0 <= i < |got| ==> WellFormed(ms[i]) && got[i] == Arrived(ms[i])
  {
    forall i | 0 <= i < |ms|
      ensures IsMessage(es[i]) && WellFormed(ms[i])
      ensures forall m :: Says(es[i], m) <==> m == Arrived(ms[i])
    {
      EncodedMessage(ms[i], es[i]);
    }
  }

  lemma EncodedMessage(m: Msg, e: seq<Byte>)
    requires Encodes(m, e)
    ensures IsMessage(e) && WellFormed(m) && forall m' :: Says(e, m') <==> m' == Arrived(m)
  {
    assert Veil(0);
    RoundTrip(m);
    EncodedStarts(m, []);
    assert Encode(m) + [] == Encode(m);
  }
}
