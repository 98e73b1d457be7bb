/** The work requests with which Peer::rdmaWriterThread (pocld/peer.cc) sends a buffer: it is cut
    into pieces of at most 2^31 bytes that are chained (WorkRequest of pocld/rdma.cc), and the command
    follows them. */
module Rdma {
  import opened Options

  const CHUNK := 0x8000_0000
  const TWO_TO_THE_64 := 0x1_0000_0000_0000_0000

  /** A scatter/gather entry; length is a 32-bit field in which 0 means 2^31. */
  datatype Entry = Entry(offset: nat, length: nat)

  function Decoded(length: nat): nat {
    if length == 0 then CHUNK else length
  }

  /** The 32-bit length field for a remainder: all of it, or one full piece. */
  function LengthField(remain: nat): (f: nat)
    ensures f < CHUNK
    ensures remain > 0 ==> Decoded(f) == if remain < CHUNK then remain else CHUNK
  {
    if remain >= CHUNK then 0 else remain
  }

  datatype Opcode = Send | RdmaWrite

  /** A work request and those chained to it. */
  datatype WorkRequest = WorkRequest(op: Opcode, entries: seq<Entry>, numSge: nat, remote: nat,
                                     next: Option<WorkRequest>)

  /** The total that initWithSgList computes. */
  function TotalLength(entries: seq<Entry>): nat {
    if entries == [] then 0 else TotalLength(entries[..|entries| - 1]) + Decoded(entries[|entries| - 1].length)
  }

  /** initWithSgList: a request without data gets no list at all. */
  function Init(op: Opcode, entries: seq<Entry>, remote: nat): WorkRequest {
    WorkRequest(op, entries, if TotalLength(entries) > 0 then |entries| else 0, remote, None)
  }

  /** No entry is ever dropped: even a length field of 0 counts. */
  lemma {:induction false} AllEntriesCount(op: Opcode, entries: seq<Entry>, remote: nat)
    ensures Init(op, entries, remote).numSge == |entries|
  {
    if entries != [] {
      assert Decoded(entries[|entries| - 1].length) > 0;
    }
  }

  /** WorkRequest::chain: at the end of the chain. */
  function Chain(w: WorkRequest, n: WorkRequest): WorkRequest {
    match w.next
    case Some(next) => w.(next := Some(Chain(next, n)))
    case None => w.(next := Some(n))
  }

  /** The requests of a chain, each without its successor. */
  function Requests(w: WorkRequest): seq<WorkRequest> {
    [w.(next := None)] + match w.next
                         case Some(next) => Requests(next)
                         case None => []
  }

  lemma {:induction false} ChainAppends(w: WorkRequest, n: WorkRequest)
    ensures Requests(Chain(w, n)) == Requests(w) + Requests(n)
  {
    match w.next
    case Some(next) => ChainAppends(next, n);
    case None =>
  }

  /** Unsigned 64-bit multiplication by 2^31. */
  function Offset64(i: nat): nat {
    i * CHUNK % TWO_TO_THE_64
  }

  /** Piece i of `size` bytes, and where it goes. */
  function Piece(size: nat, base: nat, i: nat): WorkRequest
    requires i == 0 || i * CHUNK < size
  {
    if size == 0 then Init(RdmaWrite, [], base)
    else Init(RdmaWrite, [Entry(i * CHUNK, LengthField(size - i * CHUNK))], base + i * CHUNK)
  }

  /** The first n pieces. */
  function Pieces(size: nat, base: nat, n: nat): seq<WorkRequest>
    requires n <= 1 || (n - 1) * CHUNK < size
  {
    if n == 0 then [] else Pieces(size, base, n - 1) + [Piece(size, base, n - 1)]
  }

  /** How many pieces there are: one per 2^31 bytes or part of it, and one even for no data. */
  function Count(size: nat): (n: nat)
    ensures n > 0 && (n == 1 || (n - 1) * CHUNK < size) && size <= n * CHUNK
  {
    if size == 0 then 1 else (size + CHUNK - 1) / CHUNK
  }

  /** The chunk loop, then the command. */
  method BuildChain(size: nat, base: nat, command: WorkRequest) returns (w: WorkRequest)
    requires size <= TWO_TO_THE_64 - CHUNK && command.op == Send && command.next.None?
    ensures Requests(w) == Pieces(size, base, Count(size)) + [command]
  {
    var entries := if size > 0 then [Entry(0, LengthField(size))] else [];
    w := Init(RdmaWrite, entries, base);
    var i := 1;
    assert Pieces(size, base, 0) == [];
    while Offset64(i) < size
      invariant 1 <= i <= 0x2_0000_0000 - 1 && (i == 1 || (i - 1) * CHUNK < size)
      invariant Requests(w) == Pieces(size, base, i)
      decreases 0x2_0000_0000 - i
    {
      var offset := Offset64(i);
      var piece := Init(RdmaWrite, [Entry(offset, LengthField(size - offset))], base + offset);
      ChainAppends(w, piece);
      w := Chain(w, piece);
      i := i + 1;
    }
    ChainAppends(w, command);
    w := Chain(w, command);
  }

  /** The loop ends at all if and only if the size is at most 2^64 - 2^31. */
  lemma LoopEnds(size: nat)
    ensures (exists i: nat :: i >= 1 && Offset64(i) >= size) <==> size <= TWO_TO_THE_64 - CHUNK
  {
    if size <= TWO_TO_THE_64 - CHUNK {
      var i := 0x2_0000_0000 - 1;
      assert Offset64(i) == TWO_TO_THE_64 - CHUNK;
    }
    forall i: nat ensures Offset64(i) <= TWO_TO_THE_64 - CHUNK {
      Multiple(i);
    }
  }

  /** Offsets are multiples of 2^31, even after wrapping around. */
  lemma Multiple(i: nat)
    ensures Offset64(i) == i % 0x2_0000_0000 * CHUNK <= TWO_TO_THE_64 - CHUNK
  {
    var q, r := i / 0x2_0000_0000, i % 0x2_0000_0000;
    assert i * CHUNK == q * TWO_TO_THE_64 + r * CHUNK;
    assert (q * TWO_TO_THE_64 + r * CHUNK) % TWO_TO_THE_64 == r * CHUNK;
  }

  /** The pieces tile the data: each starts where the one before it ends, here and at the peer, the first
      at 0 and the last up to the end. No data is one request without entries. */
  lemma PiecesTile(size: nat, base: nat)
    ensures |Pieces(size, base, Count(size))| == Count(size)
    ensures size == 0 ==> Pieces(size, base, Count(size)) == [WorkRequest(RdmaWrite, [], 0, base, None)]
    ensures size > 0 ==> forall i :: 0 <= i < Count(size) ==>
              Moves(Pieces(size, base, Count(size))[i], base, i * CHUNK,
                    if i + 1 < Count(size) then (i + 1) * CHUNK else size)
  {
    var n := Count(size);
    PieceAt(size, base, n, 0);
    if size > 0 {
      forall i | 0 <= i < n
        ensures Moves(Pieces(size, base, n)[i], base, i * CHUNK, if i + 1 < n then (i + 1) * CHUNK else size)
      {
        PieceAt(size, base, n, i);
        PieceMoves(size, base, i);
      }
    }
  }

  lemma {:induction false} PieceAt(size: nat, base: nat, n: nat, i: nat)
    requires i < n && (n <= 1 || (n - 1) * CHUNK < size)
    ensures |Pieces(size, base, n)| == n && Pieces(size, base, n)[i] == Piece(size, base, i)
  {
    if n > 1 { PieceAt(size, base, n - 1, if i < n - 1 then i else 0); }
  }

  lemma PieceMoves(size: nat, base: nat, i: nat)
    requires i * CHUNK < size
    ensures Moves(Piece(size, base, i), base, i * CHUNK, if i + 1 < Count(size) then (i + 1) * CHUNK else size)
  {
    OneEntry(Entry(i * CHUNK, LengthField(size - i * CHUNK)));
  }

  /** One entry of at most 2^31 bytes: those in [from, to), to the same place at the peer. */
  ghost predicate Moves(w: WorkRequest, base: nat, from: nat, to: nat) {
    && w.op == RdmaWrite && |w.entries| == w.numSge == 1
    && w.entries[0].offset == from && w.remote == base + from
    && from + Decoded(w.entries[0].length) == to <= from + CHUNK
  }

  function Transferred(ws: seq<WorkRequest>): nat {
    if ws == [] then 0 else Transferred(ws[..|ws| - 1]) + TotalLength(ws[|ws| - 1].entries)
  }

  /** Exactly the data is sent. */
  lemma AllTransferred(size: nat, base: nat)
    ensures Transferred(Pieces(size, base, Count(size))) == size
  {
    PiecesCover(size, base, Count(size));
  }

  lemma {:induction false} PiecesCover(size: nat, base: nat, n: nat)
    requires n <= 1 || (n - 1) * CHUNK < size
    ensures Transferred(Pieces(size, base, n)) == if n * CHUNK < size then n * CHUNK else size
  {
    if n > 0 {
      PiecesCover(size, base, n - 1);
      var w := Piece(size, base, n - 1);
      TransferredSnoc(Pieces(size, base, n - 1), w);
      if size > 0 { OneEntry(w.entries[0]); }
    }
  }

  lemma OneEntry(e: Entry)
    ensures TotalLength([e]) == Decoded(e.length)
  {
    assert [e][..0] == [];
  }

  lemma TransferredSnoc(ws: seq<WorkRequest>, w: WorkRequest)
    ensures Transferred(ws + [w]) == Transferred(ws) + TotalLength(w.entries)
  {
    assert (ws + [w])[..|ws|] == ws;
  }
}
