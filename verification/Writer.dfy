/** Writing requests: Connection::writeFull of pocld/connection.cc, the queue of
    pocld/guarded_queue.hh and Peer::writerThread of pocld/peer.cc. */
module Writer {
  import opened Options
  import opened Veils
  import opened Messages
  import opened Wire

  /** What a call of write(2) does: take at most so many bytes, report EAGAIN or EINTR, or fail. */
  datatype Outcome = Takes(n: nat) | Interrupted | Breaks

  /** No call of write(2) fails, however little each takes and however often one is interrupted. */
  ghost predicate Unbroken(schedule: seq<Outcome>) {
    forall i :: 0 <= i < |schedule| ==> !schedule[i].Breaks?
  }

  /** The calls between `before` and `after`: all go well, except that the last one breaks if not ok. */
  ghost predicate Consumed(before: seq<Outcome>, after: seq<Outcome>, ok: bool) {
    && |after| + (if ok then 0 else 1) <= |before| && after == before[|before| - |after|..]
    && Unbroken(before[..|before| - |after| - if ok then 0 else 1])
    && (!ok ==> before[|before| - |after| - 1].Breaks?)
  }

  ghost predicate Uses(before: seq<Outcome>, after: seq<Outcome>, ok: bool) {
    forall v {:trigger Veil(v)} :: v >= 0 ==> Consumed(before, after, ok)
  }

  lemma UsesNothing(schedule: seq<Outcome>)
    ensures Uses(schedule, schedule, true)
  {
    assert Consumed(schedule, schedule, true);
  }

  lemma UsesBroken(before: seq<Outcome>, after: seq<Outcome>)
    requires Uses(before, after, false)
    ensures !Unbroken(before)
  {
    assert Veil(0);
  }

  lemma UsesNext(before: seq<Outcome>, between: seq<Outcome>, after: seq<Outcome>, ok: bool)
    requires Uses(before, between, true) && Uses(between, after, ok)
    ensures Uses(before, after, ok)
  {
    assert Veil(0);
    var n, m := |before| - |between|, |before| - |after| - if ok then 0 else 1;
    forall i | 0 <= i < m ensures !before[..m][i].Breaks? {
      assert if i < n then before[..n][i] == before[i] else between[..m - n][i - n] == before[i];
    }
    assert after == before[|before| - |after|..];
    assert Consumed(before, after, ok);
  }

  lemma UsesOne(before: seq<Outcome>, between: seq<Outcome>)
    requires Uses(before, between, true)
    ensures between != [] ==> Uses(before, between[1..], !between[0].Breaks?)
  {
    if between != [] {
      assert Consumed(between, between[1..], !between[0].Breaks?);
      UsesNext(before, between, between[1..], !between[0].Breaks?);
    }
  }

  class Connection {
    var sent: seq<Byte>
    /** What the next calls of write(2) do; after that everything is taken. */
    var schedule: seq<Outcome>

    constructor (schedule: seq<Outcome>)
      ensures sent == [] && this.schedule == schedule
    {
      sent, this.schedule := [], schedule;
    }

    /** Writes all bytes, however few write(2) takes at a time; fails only in the middle of them. */
    method WriteFull(bytes: seq<Byte>) returns (ok: bool, ghost k: nat)
      modifies this
      ensures ok ==> sent == old(sent) + bytes
      ensures !ok ==> k < |bytes| && sent == old(sent) + bytes[..k]
      ensures Uses(old(schedule), schedule, ok) && (Unbroken(old(schedule)) ==> ok)
    {
      var written := 0;
      UsesNothing(schedule);
      while written < |bytes|
        invariant 0 <= written <= |bytes| && sent == old(sent) + bytes[..written]
        invariant Uses(old(schedule), schedule, true)
        decreases |schedule|, |bytes| - written
      {
        var out := if schedule == [] then Takes(|bytes| - written) else schedule[0];
        UsesOne(old(schedule), schedule);
        schedule := if schedule == [] then [] else schedule[1..];
        match out {
          case Breaks =>
            UsesBroken(old(schedule), schedule);
            return false, written;
          case Interrupted =>
          case Takes(n) =>
            var w := if n <= |bytes| - written then n else |bytes| - written;
            sent := sent + bytes[written..written + w];
            assert bytes[..written + w] == bytes[..written] + bytes[written..written + w];
            written := written + w;
        }
      }
      assert bytes[..written] == bytes;
      ok, k := true, 0;
    }

    /** The body of the writer's loop; a failed write abandons the rest of the request. */
    method WriteRequest(m: Msg, ghost e: seq<Byte>) returns (ok: bool, ghost k: nat)
      requires Encodes(m, e)
      modifies this
      ensures ok ==> sent == old(sent) + e
      ensures !ok ==> k < |e| && sent == old(sent) + e[..k]
      ensures Uses(old(schedule), schedule, ok) && (Unbroken(old(schedule)) ==> ok)
    {
      assert Veil(0);
      var size := RequestSize(MessageType(m.body));
      var pieces := [ToLE(size, 4), m.body[..size], m.waitlist, m.extra[..m.extraSize], m.extra2[..m.extra2Size]];
      EncodeConcat(m, pieces);
      ok, k := WritePieces(pieces);
    }

    /** Consecutive CHECK_WRITE calls; empty pieces are not written. */
    method WritePieces(pieces: seq<seq<Byte>>) returns (ok: bool, ghost k: nat)
      modifies this
      ensures ok ==> sent == old(sent) + Concat(pieces)
      ensures !ok ==> k < |Concat(pieces)| && sent == old(sent) + Concat(pieces)[..k]
      ensures Uses(old(schedule), schedule, ok) && (Unbroken(old(schedule)) ==> ok)
    {
      ok, k := true, 0;
      UsesNothing(schedule);
      for i := 0 to |pieces|
        invariant sent == old(sent) + Concat(pieces[..i]) && Uses(old(schedule), schedule, true)
      {
        assert pieces[..i + 1][..i] == pieces[..i];
        if pieces[i] != [] {
          ghost var between := schedule;
          ok, k := WriteFull(pieces[i]);
          UsesNext(old(schedule), between, schedule, ok);
          if !ok {
            UsesBroken(old(schedule), schedule);
            Broken(pieces, i, k);
            k := |Concat(pieces[..i])| + k;
            return;
          }
        }
      }
      assert pieces[..|pieces|] == pieces;
    }
  }

  /** Where a write stopped, counted from the first piece. */
  lemma Broken(pieces: seq<seq<Byte>>, i: nat, k: nat)
    requires i < |pieces| && k < |pieces[i]|
    ensures var n := |Concat(pieces[..i])| + k;
            n < |Concat(pieces)| && Concat(pieces)[..n] == Concat(pieces[..i]) + pieces[i][..k]
  {
    ConcatAt(pieces, i);
    ConcatPrefix(pieces, i);
    var start := |Concat(pieces[..i])|;
    assert Concat(pieces)[start..][..k] == pieces[i][..k];
    assert Concat(pieces)[..start + k] == Concat(pieces)[..start] + Concat(pieces)[start..][..k];
  }

  lemma {:induction false} ConcatPrefix(pieces: seq<seq<Byte>>, i: nat)
    requires i <= |pieces|
    ensures Concat(pieces[..i]) <= Concat(pieces)
  {
    if i == |pieces| {
      assert pieces[..i] == pieces;
    } else {
      ConcatPrefix(pieces[..|pieces| - 1], i);
      assert pieces[..|pieces| - 1][..i] == pieces[..i];
    }
  }

  lemma EncodeConcat(m: Msg, pieces: seq<seq<Byte>>)
    requires WellFormed(m)
    requires var size := RequestSize(MessageType(m.body));
             pieces == [ToLE(size, 4), m.body[..size], m.waitlist, m.extra[..m.extraSize], m.extra2[..m.extra2Size]]
    ensures Concat(pieces) == Encode(m)
  {
    assert pieces[..4][..3] == pieces[..3] && pieces[..3][..2] == pieces[..2] && pieces[..2][..1] == pieces[..1];
    assert Concat(pieces[..1]) == pieces[0];
    assert Concat(pieces[..2]) == pieces[0] + pieces[1];
    assert Concat(pieces[..3]) == pieces[0] + pieces[1] + pieces[2];
    assert Concat(pieces[..4]) == pieces[0] + pieces[1] + pieces[2] + pieces[3];
  }

  function Reversed<T>(s: seq<T>): (r: seq<T>)
    ensures |r| == |s| && forall i :: 0 <= i < |s| ==> r[i] == s[|s| - 1 - i]
  {
    seq(|s|, i requires 0 <= i < |s| => s[|s| - 1 - i])
  }

  /** GuardedQueue: a deque that is pushed at the front and popped at the back. */
  class GuardedQueue<T> {
    var q: seq<T>

    constructor ()
      ensures Items() == []
    {
      q := [];
    }

    /** What is queued, oldest first. */
    function Items(): seq<T>
      reads this
    {
      Reversed(q)
    }

    method Push(item: T)
      modifies this
      ensures Items() == old(Items()) + [item]
    {
      q := [item] + q;
    }

    method Pop() returns (item: Option<T>)
      modifies this
      ensures old(Items()) == [] ==> item.None? && Items() == []
      ensures old(Items()) != [] ==> item == Some(old(Items())[0]) && Items() == old(Items())[1..]
    {
      if q == [] {
        item := None;
      } else {
        item := Some(q[|q| - 1]);
        q := q[..|q| - 1];
      }
    }
  }

  lemma SentNext(sent: seq<Byte>, es: seq<seq<Byte>>, n: nat)
    requires n < |es|
    ensures sent + Concat(es[..n]) + es[n] == sent + Concat(es[..n + 1])
  {
    assert es[..n + 1][..n] == es[..n];
  }

  lemma TailOf(items: seq<Msg>, n: nat)
    requires n <= |items|
    ensures if n == |items| then items[n..] == []
            else items[n..] != [] && items[n..][0] == items[n] && items[n..][1..] == items[n + 1..]
  {
  }

  /** Peer::writerThread until its queue is empty or a write fails: the requests go out whole and
      in the order in which they were queued; n of them, and none or part of the next. */
  method WriterThread(queue: GuardedQueue<Msg>, conn: Connection, ghost es: seq<seq<Byte>>)
    returns (ok: bool, ghost n: nat, ghost k: nat)
    requires AllEncode(queue.Items(), es)
    modifies queue, conn
    ensures ok ==> n == |es| && queue.Items() == [] && conn.sent == old(conn.sent) + Concat(es)
    ensures !ok ==> n < |es| && queue.Items() == old(queue.Items())[n + 1..]
    ensures !ok ==> k < |es[n]| && conn.sent == old(conn.sent) + Concat(es[..n]) + es[n][..k]
    ensures Uses(old(conn.schedule), conn.schedule, ok) && (Unbroken(old(conn.schedule)) ==> ok)
  {
    ghost var items := queue.Items();
    ok, n, k := true, 0, 0;
    TailOf(items, 0);
    UsesNothing(conn.schedule);
    var r := queue.Pop();
    while r.Some?
      invariant n <= |items| && conn.sent == old(conn.sent) + Concat(es[..n])
      invariant Uses(old(conn.schedule), conn.schedule, true)
      invariant r.Some? ==> n < |items| && r.value == items[n] && queue.Items() == items[n + 1..]
      invariant r.None? ==> n == |items| && queue.Items() == []
      decreases |items| - n
    {
      ghost var between := conn.schedule;
      ok, k := conn.WriteRequest(r.value, es[n]);
      UsesNext(old(conn.schedule), between, conn.schedule, ok);
      if !ok {
        UsesBroken(old(conn.schedule), conn.schedule);
        return;
      }
      SentNext(old(conn.sent), es, n);
      TailOf(items, n + 1);
      r := queue.Pop();
      n := n + 1;
    }
    assert es[..n] == es;
  }
}
