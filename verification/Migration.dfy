/** Migrating a buffer between platforms, on one server or from one server to another: the routing
    of VirtualCLContext::MigrateD2D (pocld/virtual_cl_context.cc), the two phases of
    CommandQueue::MigrateMemObj with the tail of RunCommand (pocld/cmd_queue.cc), and readBuffer and
    writeBuffer of pocld/shared_cl_context.cc, in the build without RDMA. */
module Migration {
  import opened Options
  import opened Veils
  import opened Messages
  import opened Wire
  import Reader
  import Writer

  // ---------------------------------------------------------------- fields of the body

  function SetField(b: Body, offset: nat, n: nat, v: nat): Body
    requires offset + n <= SIZEOF_REQUEST_MSG
  {
    b[..offset] + ToLE(v, n) + b[offset + n..]
  }

  lemma FieldSet(b: Body, offset: nat, n: nat, v: nat)
    requires offset + n <= SIZEOF_REQUEST_MSG && v < Pow256(n)
    ensures Field(SetField(b, offset, n, v), offset, n) == v
  {
    assert SetField(b, offset, n, v)[offset..offset + n] == ToLE(v, n);
    LERoundTrip(v, n);
  }

  lemma OtherField(b: Body, offset: nat, n: nat, v: nat, other: nat, k: nat)
    requires offset + n <= SIZEOF_REQUEST_MSG && other + k <= SIZEOF_REQUEST_MSG
    requires other + k <= offset || offset + n <= other
    ensures Field(SetField(b, offset, n, v), other, k) == Field(b, other, k)
  {
    assert SetField(b, offset, n, v)[other..other + k] == b[other..other + k];
  }

  /** What the export phase does to the body: external, `size` bytes, nothing to wait for. */
  function Exported(b: Body, size: nat): Body {
    SetField(SetField(SetField(b, 116, 4, 1), 76, 8, size), 52, 4, 0)
  }

  lemma ExportedOther(b: Body, size: nat, other: nat, k: nat)
    requires other + k <= SIZEOF_REQUEST_MSG
    requires (other + k <= 116 || 120 <= other) && (other + k <= 76 || 84 <= other) && (other + k <= 52 || 56 <= other)
    ensures Field(Exported(b, size), other, k) == Field(b, other, k)
  {
    var b1 := SetField(b, 116, 4, 1);
    var b2 := SetField(b1, 76, 8, size);
    OtherField(b, 116, 4, 1, other, k);
    OtherField(b1, 76, 8, size, other, k);
    OtherField(b2, 52, 4, 0, other, k);
  }

  lemma ExportedFields(b: Body, size: nat)
    requires size < Pow256(8)
    ensures var b' := Exported(b, size);
            && MigrateIsExternal(b') == 1 && MigrateSize(b') == size && WaitlistSize(b') == 0
            && MessageType(b') == MessageType(b) && MigrateIsImage(b') == MigrateIsImage(b)
  {
    var b1 := SetField(b, 116, 4, 1);
    var b2 := SetField(b1, 76, 8, size);
    assert Pow256(4) > 1;
    FieldSet(b, 116, 4, 1);
    FieldSet(b1, 76, 8, size);
    FieldSet(b2, 52, 4, 0);
    OtherField(b1, 76, 8, size, 116, 4);
    OtherField(b2, 52, 4, 0, 116, 4);
    OtherField(b2, 52, 4, 0, 76, 8);
    ExportedOther(b, size, 60, 4);
    ExportedOther(b, size, 112, 4);
  }

  /** The fields that decide what a migration does. */
  datatype Header = Header(pid: nat, sourcePid: nat, sourcePeer: nat, destPeer: nat, size: nat, sizeId: nat,
                           lastWrite: nat)

  function HeaderOf(b: Body): Header {
    Header(Pid(b), MigrateSourcePid(b), MigrateSourcePeer(b), MigrateDestPeer(b), MigrateSize(b), MigrateSizeId(b),
           MigrateLastWrite(b))
  }

  lemma ExportedHeader(b: Body, size: nat)
    requires size < Pow256(8)
    ensures HeaderOf(Exported(b, size)) == HeaderOf(b).(size := size)
  {
    ExportedFields(b, size);
    ExportedOther(b, size, 40, 4);
    ExportedOther(b, size, 84, 8);
    ExportedOther(b, size, 92, 4);
    ExportedOther(b, size, 100, 4);
    ExportedOther(b, size, 104, 4);
    ExportedOther(b, size, 108, 4);
  }

  /** A buffer migration request that can be executed or sent. */
  ghost predicate IsMigration(m: Msg) {
    WellFormed(m) && MessageType(m.body) == MIGRATE_D2D && MigrateIsImage(m.body) == 0
  }

  /** m is a migration with the given header; if external, it carries `data`. */
  ghost predicate Migrates(m: Msg, h: Header, data: Option<seq<Byte>>) {
    forall v {:trigger Veil(v)} :: v >= 0 ==>
      && IsMigration(m) && HeaderOf(m.body) == h
      && (data.Some? ==> && MigrateIsExternal(m.body) != 0 && m.waitlist == [] && h.size == |data.value|
                         && m.extra[..m.extraSize] == data.value)
  }

  /** How much of a buffer is read: less than `size` if its content is known to be shorter. */
  function ContentSize(h: Header, contentBytes: nat): (n: nat)
    ensures h.sizeId == 0 ==> n == h.size
    ensures h.sizeId != 0 ==> n <= h.size && n <= contentBytes && (n == h.size || n == contentBytes)
  {
    if h.sizeId != 0 && contentBytes < h.size then contentBytes else h.size
  }

  /** `after` is `before` with the migrated bytes of `src` at its beginning: the first h.size of them, or,
      where a size buffer says how many are valid, only those. */
  ghost predicate Copied(src: seq<Byte>, before: seq<Byte>, after: seq<Byte>, h: Header, contentBytes: nat) {
    && |after| == |before|
    && forall i :: 0 <= i < |after| ==>
         if i < h.size && (h.sizeId == 0 || i < contentBytes) then i < |src| && after[i] == src[i]
         else after[i] == before[i]
  }

  lemma CopiedWhole(src: seq<Byte>, before: seq<Byte>, h: Header, contentBytes: nat)
    requires var n := ContentSize(h, contentBytes); n <= |src| && n <= |before|
    ensures var n := ContentSize(h, contentBytes); Copied(src, before, src[..n] + before[n..], h, contentBytes)
  {
  }

  /** The request as the export phase leaves it. */
  function ExportedMsg(m: Msg, data: seq<Byte>): Msg
    requires |m.body| == SIZEOF_REQUEST_MSG
  {
    Msg(Exported(m.body, |data|), [], |data|, data, m.extra2Size, m.extra2)
  }

  lemma SizeFits(b: Body)
    ensures MigrateSize(b) < Pow256(8)
  {
    LEBound(b[76..84]);
  }

  lemma {:induction false} LEBound(s: seq<Byte>)
    ensures LE(s) < Pow256(|s|)
  {
    if s != [] { LEBound(s[1..]); }
  }

  /** The exported request is well-formed for the reader, carries the data and has nothing to wait for. */
  lemma ExportedMigrates(m: Msg, h: Header, data: seq<Byte>)
    requires Migrates(m, h, None) && |data| <= h.size && |m.body| == SIZEOF_REQUEST_MSG
    ensures Migrates(ExportedMsg(m, data), h.(size := |data|), Some(data))
  {
    assert Veil(0);
    SizeFits(m.body);
    ExportedIsMigration(m, data);
    ExportedHeader(m.body, |data|);
    assert data[..|data|] == data;
  }

  lemma ExportedIsMigration(m: Msg, data: seq<Byte>)
    requires IsMigration(m) && |data| < Pow256(8)
    ensures IsMigration(ExportedMsg(m, data)) && MigrateIsExternal(ExportedMsg(m, data).body) != 0
  {
    ExportedFields(m.body, |data|);
  }

  /** Travelling changes nothing that matters. */
  lemma ArrivedMigrates(m: Msg, h: Header, data: seq<Byte>)
    requires Migrates(m, h, Some(data)) && WellFormed(m)
    ensures Migrates(Arrived(m), h, Some(data))
  {
    assert Veil(0);
    var size := RequestSize(MIGRATE_D2D);
    TrimDecides(m.body);
    TrimmedHeader(m.body, size);
    FieldTrim(m.body, size, 112, 4);
    FieldTrim(m.body, size, 116, 4);
    assert Terminated(data)[..|data|] == data;
  }

  lemma TrimmedHeader(b: Body, size: nat)
    requires 112 <= size <= SIZEOF_REQUEST_MSG
    ensures HeaderOf(Trim(b, size)) == HeaderOf(b)
  {
    FieldTrim(b, size, 40, 4);
    FieldTrim(b, size, 76, 8);
    FieldTrim(b, size, 84, 8);
    FieldTrim(b, size, 92, 4);
    FieldTrim(b, size, 100, 4);
    FieldTrim(b, size, 104, 4);
    FieldTrim(b, size, 108, 4);
  }

  /** A Request on its way through a server. */
  class Job {
    var msg: Msg
    var exportRequired: bool
    var exportDone: bool

    constructor (msg: Msg)
      ensures this.msg == msg && !exportRequired && !exportDone
    {
      this.msg, exportRequired, exportDone := msg, false, false;
    }
  }

  lemma Opens(m: Msg, h: Header, data: Option<seq<Byte>>)
    requires Migrates(m, h, data)
    ensures |m.body| == SIZEOF_REQUEST_MSG && HeaderOf(m.body) == h && MigrateSize(m.body) == h.size
    ensures data.Some? ==> |m.extra| >= m.extraSize == h.size == |data.value| && m.extra[..h.size] == data.value
  {
    assert Veil(0);
  }

  class Server {
    const id: nat
    /** The buffer's content on each platform. */
    var memory: map<nat, seq<Byte>>
    var replies: nat
    /** The client's events that notifyEvent has been called with. */
    var notified: seq<nat>
    /** Requests for the peer. */
    const outgoing: Writer.GuardedQueue<Msg>

    constructor (id: nat, memory: map<nat, seq<Byte>>)
      ensures this.id == id && this.memory == memory && replies == 0 && notified == []
      ensures fresh(outgoing) && outgoing.Items() == []
    {
      this.id, this.memory, replies, notified := id, memory, 0, [];
      outgoing := new Writer.GuardedQueue();
    }

    /** writeBuffer. */
    method WriteBuffer(pid: nat, data: seq<Byte>)
      requires pid in memory && |data| <= |memory[pid]|
      modifies `memory
      ensures memory == old(memory)[pid := data + old(memory)[pid][|data|..]]
    {
      memory := memory[pid := data + memory[pid][|data|..]];
    }

    /** The export phase: the content goes into the request. */
    method Export(job: Job, contentBytes: nat, ghost h: Header)
      requires Migrates(job.msg, h, None) && h.sourcePid in memory
      requires ContentSize(h, contentBytes) <= |memory[h.sourcePid]|
      modifies job
      ensures job.exportDone && job.exportRequired == old(job.exportRequired)
      ensures var data := memory[h.sourcePid][..ContentSize(h, contentBytes)];
              Migrates(job.msg, h.(size := |data|), Some(data))
      ensures h.sizeId == 0 || h.size <= contentBytes ==>
                h.size <= |memory[h.sourcePid]| && Migrates(job.msg, h, Some(memory[h.sourcePid][..h.size]))
      ensures h.sizeId != 0 && contentBytes < h.size ==>
                && contentBytes <= |memory[h.sourcePid]|
                && Migrates(job.msg, h.(size := contentBytes), Some(memory[h.sourcePid][..contentBytes]))
    {
      Opens(job.msg, h, None);
      var source := MigrateSourcePid(job.msg.body);
      job.exportDone := true;
      var size := ContentSize(HeaderOf(job.msg.body), contentBytes);
      var data := memory[source][..size];
      ExportedMigrates(job.msg, h, data);
      job.msg := ExportedMsg(job.msg, data);
    }

    /** The import phase: the content goes into the destination's buffer. */
    method Import(job: Job, ghost h: Header, ghost data: seq<Byte>)
      requires Migrates(job.msg, h, Some(data)) && h.pid in memory && |data| <= |memory[h.pid]|
      modifies `memory, job`exportDone
      ensures !job.exportDone && memory == old(memory)[h.pid := data + old(memory)[h.pid][|data|..]]
    {
      Opens(job.msg, h, Some(data));
      job.exportDone := false;
      WriteBuffer(Pid(job.msg.body), job.msg.extra[..MigrateSize(job.msg.body)]);
    }

    /** Within one platform the buffer is shared. */
    ghost predicate SamePlatform(h: Header) {
      h.sourcePid == h.pid && h.sourcePeer == id && h.destPeer == id
    }

    /** What a submitted migration can be on this server: to be exported, or carrying `data`. */
    ghost predicate Submittable(job: Job, h: Header, data: Option<seq<Byte>>, contentBytes: nat)
      reads this, job
    {
      && Migrates(job.msg, h, data)
      && (data.None? ==> && !job.exportDone && h.sourcePeer == id && h.sourcePid in memory
                         && ContentSize(h, contentBytes) <= |memory[h.sourcePid]|)
      && (data.Some? ==> && (h.sourcePeer == id ==> job.exportDone) && !SamePlatform(h)
                         && (h.destPeer == id ==> h.pid in memory && |data.value| <= |memory[h.pid]|))
    }

    /** The event to complete when the content has come here from another server: the last write to
        the buffer, if there was one, so that a later migration from here need not wait for it. */
    ghost function Learnt(h: Header): seq<nat> {
      if h.destPeer == id && h.sourcePeer != id && h.lastWrite != 0 then [h.lastWrite] else []
    }

    /** MigrateD2D, MigrateMemObj and the tail of RunCommand. An exported request is submitted
        again; an imported one is answered; one for another server is handed to the peer. */
    method Submit(job: Job, contentBytes: nat, ghost h: Header, ghost data: Option<seq<Byte>>) returns (again: bool)
      requires Submittable(job, h, data, contentBytes)
      modifies this, outgoing, job
      ensures again <==> data.None? && !SamePlatform(h)
      ensures notified == old(notified) + Learnt(h)
      ensures again ==> && memory == old(memory) && replies == old(replies)
                        && outgoing.Items() == old(outgoing.Items()) && job.exportDone
                        && var content := memory[h.sourcePid][..ContentSize(h, contentBytes)];
                           Migrates(job.msg, h.(size := |content|), Some(content))
      ensures !again && h.destPeer == id ==>
                && memory == (if data.None? then old(memory)
                              else old(memory)[h.pid := data.value + old(memory)[h.pid][|data.value|..]])
                && replies == old(replies) + 1 && outgoing.Items() == old(outgoing.Items())
      ensures !again && h.destPeer != id ==>
                && memory == old(memory) && replies == old(replies)
                && outgoing.Items() == old(outgoing.Items()) + [old(job.msg)]
    {
      Opens(job.msg, h, data);
      var hd := HeaderOf(job.msg.body);
      var same := hd.sourcePid == hd.pid && hd.sourcePeer == id && hd.destPeer == id;
      job.exportRequired := !same && hd.sourcePeer == id && !job.exportDone;
      again := false;
      if same || job.exportRequired || hd.destPeer == id {
        if !(hd.sourcePid == hd.pid && hd.sourcePeer == hd.destPeer) {
          if job.exportRequired {
            Export(job, contentBytes, h);
          } else {
            Import(job, h, data.value);
          }
        }
        if !same && !job.exportRequired && hd.sourcePeer != id && hd.lastWrite != 0 {
          notified := notified + [hd.lastWrite];
        }
        again := job.exportDone;
        if !again {
          replies := replies + 1;
        }
      } else {
        outgoing.Push(job.msg);
      }
    }

    /** A migration between two platforms of one server: the content arrives, everything else stays
        as it is, and one reply is sent. */
    method MigrateHere(job: Job, contentBytes: nat, ghost h: Header)
      requires Submittable(job, h, None, contentBytes) && h.sourcePeer == h.destPeer == id && h.sourcePid != h.pid
      requires h.pid in memory && ContentSize(h, contentBytes) <= |memory[h.pid]|
      modifies this, outgoing, job
      ensures var n := ContentSize(h, contentBytes);
              memory == old(memory)[h.pid := old(memory)[h.sourcePid][..n] + old(memory)[h.pid][n..]]
      ensures h.pid in memory && Copied(old(memory)[h.sourcePid], old(memory)[h.pid], memory[h.pid], h, contentBytes)
      ensures replies == old(replies) + 1 && notified == old(notified) && outgoing.Items() == old(outgoing.Items())
    {
      ghost var content := memory[h.sourcePid][..ContentSize(h, contentBytes)];
      var again := Submit(job, contentBytes, h, None);
      CopiedWhole(memory[h.sourcePid], memory[h.pid], h, contentBytes);
      again := Submit(job, contentBytes, h.(size := |content|), Some(content));
    }
  }

  /** A migration from one server to another, behind whatever else is queued for that server, over a
      connection that may cut up the bytes in any way. Once the request has been received, the
      destination's buffer begins with the source's content, the migration has changed nothing else
      on either server, exactly one reply has been sent, by the destination, and the destination
      alone has been told that the buffer's last write is complete. Until then the destination is as
      it was and nobody has replied. */
  method MigrateBetween(source: Server, dest: Server, job: Job, contentBytes: nat, conn: Writer.Connection,
                        arrivals: seq<Reader.Outcome>, ghost before: seq<seq<Byte>>, ghost h: Header)
    returns (received: bool)
    requires source != dest && source.outgoing != dest.outgoing && source.id == h.sourcePeer != h.destPeer == dest.id
    requires source.Submittable(job, h, None, contentBytes) && AllEncode(source.outgoing.Items(), before)
    requires conn.sent == []
    requires h.pid in dest.memory && ContentSize(h, contentBytes) <= |dest.memory[h.pid]|
    modifies source, source.outgoing, dest, dest.outgoing, job, conn
    ensures source.memory == old(source.memory) && source.replies == old(source.replies)
    ensures source.notified == old(source.notified)
    ensures var n := ContentSize(h, contentBytes);
            dest.memory ==
            if received
            then old(dest.memory)[h.pid := source.memory[h.sourcePid][..n] + old(dest.memory)[h.pid][n..]]
            else old(dest.memory)
    ensures received ==>
              && h.pid in dest.memory
              && Copied(source.memory[h.sourcePid], old(dest.memory)[h.pid], dest.memory[h.pid], h, contentBytes)
    ensures dest.replies == old(dest.replies) + if received then 1 else 0
    ensures dest.notified == old(dest.notified) + if received && h.lastWrite != 0 then [h.lastWrite] else []
    ensures dest.outgoing.Items() == old(dest.outgoing.Items())
    ensures Writer.Unbroken(old(conn.schedule)) && Reader.Flowing(arrivals, |conn.sent|) ==> received
  {
    ghost var content := source.memory[h.sourcePid][..ContentSize(h, contentBytes)];
    ghost var h' := h.(size := |content|);
    var again := source.Submit(job, contentBytes, h, None);
    again := source.Submit(job, contentBytes, h', Some(content));
    assert source.outgoing.Items()[..|before|] == old(source.outgoing.Items());
    var got := Transfer(source.outgoing, conn, arrivals, before, h', content);
    received := got.Some?;
    CopiedWhole(source.memory[h.sourcePid], dest.memory[h.pid], h, contentBytes);
    if received {
      var incoming := new Job(got.value);
      again := dest.Submit(incoming, contentBytes, h', Some(content));
    }
  }

  /** The peer's writer thread, the wire and the reader on the other side, for a migration that is
      queued behind other requests. */
  method Transfer(queue: Writer.GuardedQueue<Msg>, conn: Writer.Connection, arrivals: seq<Reader.Outcome>,
                  ghost before: seq<seq<Byte>>, ghost h: Header, ghost data: seq<Byte>)
    returns (got: Option<Msg>)
    requires |queue.Items()| == |before| + 1 && AllEncode(queue.Items()[..|before|], before) && conn.sent == []
    requires Migrates(queue.Items()[|before|], h, Some(data))
    modifies queue, conn
    ensures got.Some? ==> Migrates(got.value, h, Some(data))
    ensures Writer.Unbroken(old(conn.schedule)) && Reader.Flowing(arrivals, |conn.sent|) ==> got.Some?
  {
    ghost var ms := queue.Items();
    var n := |queue.Items()|;
    ghost var e := Sent(ms[n - 1], h, data);
    ghost var es := before + [e];
    assert AllEncode(ms, es) by {
      assert forall i :: 0 <= i < n - 1 ==> ms[..n - 1][i] == ms[i];
    }
    var ok, _, _ := Writer.WriterThread(queue, conn, es);
    if !ok {
      return None;
    }
    var src := new Reader.Source(Reader.Socket, conn.sent, arrivals);
    assert conn.sent == Concat(es);
    RequestsDelivered(ms, es, []);
    var received := Reader.ReceiveAll(src, es);
    if |received| < n {
      return None;
    }
    RequestsDelivered(ms, es, received);
    ArrivedMigrates(ms[n - 1], h, data);
    got := Some(received[n - 1]);
  }

  lemma Sent(m: Msg, h: Header, data: seq<Byte>) returns (e: seq<Byte>)
    requires Migrates(m, h, Some(data))
    ensures Encodes(m, e)
  {
    assert Veil(0);
    e := Encode(m);
  }
}
