/** The request messages of include/messages.h as bytes: the layout of RequestMsg_t (packed, with
    structures padded to multiples of eight bytes, little-endian, in the build without RDMA), how
    much of it each message type occupies, and the payload sizes it announces. */
module Messages {
  type Byte = x: int | 0 <= x < 256

  function Zeros(n: nat): (z: seq<Byte>)
    ensures |z| == n && forall i :: 0 <= i < n ==> z[i] == 0
  {
    seq(n, _ => 0)
  }

  // ---------------------------------------------------------------- numbers in memory

  function LE(s: seq<Byte>): nat {
    if s == [] then 0 else s[0] + 256 * LE(s[1..])
  }

  function ToLE(v: nat, n: nat): (s: seq<Byte>)
    ensures |s| == n
  {
    if n == 0 then [] else [v % 256] + ToLE(v / 256, n - 1)
  }

  function Pow256(n: nat): (p: nat)
    ensures p > 0
  {
    if n == 0 then 1 else 256 * Pow256(n - 1)
  }

  lemma {:induction false} LERoundTrip(v: nat, n: nat)
    requires v < Pow256(n)
    ensures LE(ToLE(v, n)) == v
  {
    if n > 0 {
      LERoundTrip(v / 256, n - 1);
      assert ToLE(v, n)[1..] == ToLE(v / 256, n - 1);
    }
  }

  const TWO_TO_THE_64 := 0x1_0000_0000_0000_0000

  /** Unsigned 64-bit arithmetic wraps around. */
  function Wrap64(x: nat): (r: nat)
    ensures r == x % TWO_TO_THE_64
  {
    if x < TWO_TO_THE_64 then x else Wrap64(x - TWO_TO_THE_64)
  }

  // ---------------------------------------------------------------- message types

  const DEVICE_INFO := 3
  const CREATE_OR_ATTACH_SESSION := 1
  const CONNECT_PEER := 4
  const PEER_HANDSHAKE := 5
  const CREATE_BUFFER := 6
  const FREE_BUFFER := 7
  const CREATE_SAMPLER := 10
  const CREATE_IMAGE := 12
  const CREATE_KERNEL := 14
  const FREE_KERNEL := 15
  const BUILD_PROGRAM_FROM_SOURCE := 16
  const BUILD_PROGRAM_FROM_BINARY := 17
  const BUILD_PROGRAM_WITH_BUILTINS := 18
  const BUILD_PROGRAM_WITH_DEFINED_BUILTINS := 19
  const BUILD_PROGRAM_FROM_SPIRV := 20
  const COMPILE_PROGRAM_FROM_SPIRV := 21
  const COMPILE_PROGRAM_FROM_SOURCE := 22
  const LINK_PROGRAM := 23
  const CREATE_COMMAND_BUFFER := 25
  const MIGRATE_D2D := 27
  const READ_BUFFER := 30
  const WRITE_BUFFER := 31
  const COPY_BUFFER := 32
  const FILL_BUFFER := 33
  const READ_BUFFER_RECT := 34
  const WRITE_BUFFER_RECT := 35
  const COPY_BUFFER_RECT := 36
  const COPY_IMAGE2BUFFER := 37
  const COPY_BUFFER2IMAGE := 38
  const COPY_IMAGE2IMAGE := 39
  const READ_IMAGE_RECT := 40
  const WRITE_IMAGE_RECT := 41
  const FILL_IMAGE_RECT := 42
  const RUN_KERNEL := 43

  /** Where the union of message structures starts. */
  const BODY_OFFSET := 76
  const SIZEOF_REQUEST_MSG := 4208

  /** BuildProgramMsg_t is shared by all messages that carry a program. */
  predicate IsProgram(t: nat) {
    BUILD_PROGRAM_FROM_SOURCE <= t <= LINK_PROGRAM
  }

  /** The widths of the members of a type's structure, in the order of their declaration. */
  function MemberBytes(t: nat): nat {
    if t == CREATE_OR_ATTACH_SESSION then 8 + 2 + 1 + 1 + 1
    else if t == CONNECT_PEER then 2 + 8 + 16 + (256 + 1)
    else if t == PEER_HANDSHAKE then 8
    else if t == CREATE_BUFFER then 8 + 4 + 8 + 8 + 8
    else if t == FREE_BUFFER then 8 + 1
    else if t == CREATE_SAMPLER then 4 + 4 + 4
    else if t == CREATE_IMAGE then 10 * 4
    else if t == CREATE_KERNEL then 8 + 4
    else if t == FREE_KERNEL then 4
    else if IsProgram(t) then 8 + 8 + 8 + 4 + 512 * 4 + 512 * 4
    else if t == CREATE_COMMAND_BUFFER then 5 * 8
    else if t == MIGRATE_D2D then 8 + 8 + 10 * 4
    else if t == READ_BUFFER then 8 + 8 + 8 + 8 + 1
    else if t == WRITE_BUFFER then 8 + 8 + 8 + 1
    else if t == COPY_BUFFER then 4 + 4 + 4 + 8 + 8 + 8
    else if t == FILL_BUFFER then 8 + 8 + 8
    else if t == READ_BUFFER_RECT || t == WRITE_BUFFER_RECT then VEC3 + VEC3 + 8 + 8 + 8
    else if t == COPY_BUFFER_RECT then 4 + 4 + VEC3 + VEC3 + VEC3 + 8 + 8 + 8 + 8
    else if t == COPY_IMAGE2BUFFER || t == COPY_BUFFER2IMAGE then VEC3 + VEC3 + 4 + 8
    else if t == COPY_IMAGE2IMAGE then 4 + 4 + VEC3 + VEC3 + VEC3
    else if t == READ_IMAGE_RECT || t == WRITE_IMAGE_RECT then VEC3 + VEC3 + 8
    else if t == FILL_IMAGE_RECT then VEC3 + VEC3
    else if t == RUN_KERNEL then VEC3 + VEC3 + VEC3 + 1 + 1 + 2 + 4 + 8
    else if t == DEVICE_INFO then 4
    else 0
  }

  const VEC3 := 3 * 8

  /** The structures are packed, and aligned to 8 bytes as a whole. */
  function Aligned(n: nat): nat { (n + 7) / 8 * 8 }

  /** request_size: the size of the type's own structure, behind the common part. */
  function RequestSize(t: nat): (size: nat)
    ensures size == BODY_OFFSET + Aligned(MemberBytes(t)) <= SIZEOF_REQUEST_MSG
  {
    BODY_OFFSET +
    if t == CREATE_OR_ATTACH_SESSION then 16
    else if t == CONNECT_PEER then 288
    else if t == PEER_HANDSHAKE then 8
    else if t == CREATE_BUFFER then 40
    else if t == FREE_BUFFER then 16
    else if t == CREATE_SAMPLER then 16
    else if t == CREATE_IMAGE then 40
    else if t == CREATE_KERNEL then 16
    else if t == FREE_KERNEL then 8
    else if IsProgram(t) then 4128
    else if t == CREATE_COMMAND_BUFFER then 40
    else if t == MIGRATE_D2D then 56
    else if t == READ_BUFFER then 40
    else if t == WRITE_BUFFER then 32
    else if t == COPY_BUFFER then 40
    else if t == FILL_BUFFER then 24
    else if t == READ_BUFFER_RECT || t == WRITE_BUFFER_RECT then 72
    else if t == COPY_BUFFER_RECT then 112
    else if t == COPY_IMAGE2BUFFER || t == COPY_BUFFER2IMAGE then 64
    else if t == COPY_IMAGE2IMAGE then 80
    else if t == READ_IMAGE_RECT || t == WRITE_IMAGE_RECT then 56
    else if t == FILL_IMAGE_RECT then 48
    else if t == RUN_KERNEL then 88
    else if t == DEVICE_INFO then 8
    else 0
  }

  // ---------------------------------------------------------------- fields of RequestMsg_t

  type Body = b: seq<Byte> | |b| == SIZEOF_REQUEST_MSG witness Zeros(SIZEOF_REQUEST_MSG)

  function Field(b: Body, offset: nat, n: nat): nat
    requires offset + n <= SIZEOF_REQUEST_MSG
  {
    LE(b[offset..offset + n])
  }

  function Pid(b: Body): nat { Field(b, 40, 4) }
  function WaitlistSize(b: Body): nat { Field(b, 52, 4) }
  function MessageType(b: Body): nat { Field(b, 60, 4) }

  function MigrateSize(b: Body): nat { Field(b, 76, 8) }
  function MigrateLastWrite(b: Body): nat { Field(b, 84, 8) }
  function MigrateSourcePid(b: Body): nat { Field(b, 92, 4) }
  function MigrateSizeId(b: Body): nat { Field(b, 100, 4) }
  function MigrateDestPeer(b: Body): nat { Field(b, 104, 4) }
  function MigrateSourcePeer(b: Body): nat { Field(b, 108, 4) }
  function MigrateIsImage(b: Body): nat { Field(b, 112, 4) }
  function MigrateIsExternal(b: Body): nat { Field(b, 116, 4) }

  function FillPatternSize(b: Body): nat { Field(b, 92, 8) }

  /** The size of the first payload (ExtraDataSize). */
  function ExtraSize(b: Body): nat {
    var t := MessageType(b);
    if t == WRITE_BUFFER then Field(b, 84, 8)
    else if t == WRITE_BUFFER_RECT then Field(b, 140, 8)
    else if t == WRITE_IMAGE_RECT then Field(b, 124, 8)
    else if t == MIGRATE_D2D then (if MigrateIsExternal(b) != 0 then MigrateSize(b) else 0)
    else if t == FILL_BUFFER then FillPatternSize(b)
    else if t == FILL_IMAGE_RECT then 16
    else if t == RUN_KERNEL then (if Field(b, 150, 2) != 0 then Field(b, 152, 4) * 8 + Field(b, 152, 4) else 0)
    else if IsProgram(t) then Field(b, 76, 8)
    else if t == CREATE_KERNEL then Field(b, 76, 8)
    else if t == CREATE_COMMAND_BUFFER then Wrap64(Field(b, 76, 8) * 4 + Field(b, 108, 8))
    else 0
  }

  /** The size of the second payload (ExtraData2Size). */
  function Extra2Size(b: Body): nat {
    var t := MessageType(b);
    if t == RUN_KERNEL then (if Field(b, 150, 2) != 0 then Field(b, 156, 8) else 0)
    else if IsProgram(t) && t != BUILD_PROGRAM_WITH_BUILTINS && t != BUILD_PROGRAM_WITH_DEFINED_BUILTINS
    then Field(b, 84, 8)
    else 0
  }

  /** What the reader asserts about a body. */
  predicate Asserted(b: Body) {
    MessageType(b) == FILL_BUFFER ==> FillPatternSize(b) <= 16 * 8
  }

  /** The body a reader has after `size` bytes of b: the rest of RequestMsg_t stays zero. */
  function Trim(b: Body, size: nat): Body
    requires size <= SIZEOF_REQUEST_MSG
  {
    b[..size] + Zeros(SIZEOF_REQUEST_MSG - size)
  }

  lemma FieldTrim(b: Body, size: nat, offset: nat, n: nat)
    requires offset + n <= size <= SIZEOF_REQUEST_MSG
    ensures Field(Trim(b, size), offset, n) == Field(b, offset, n)
  {
    assert Trim(b, size)[offset..offset + n] == b[offset..offset + n];
  }

  /** Each type's structure is long enough for every field that decides how to read on. */
  lemma TrimDecides(b: Body)
    ensures var b' := Trim(b, RequestSize(MessageType(b)));
            && MessageType(b') == MessageType(b) && WaitlistSize(b') == WaitlistSize(b)
            && ExtraSize(b') == ExtraSize(b) && Extra2Size(b') == Extra2Size(b) && Asserted(b') == Asserted(b)
  {
    var t := MessageType(b);
    var size := RequestSize(t);
    FieldTrim(b, size, 60, 4);
    FieldTrim(b, size, 52, 4);
    if t == WRITE_BUFFER {
      FieldTrim(b, size, 84, 8);
    } else if t == WRITE_BUFFER_RECT {
      FieldTrim(b, size, 140, 8);
    } else if t == WRITE_IMAGE_RECT {
      FieldTrim(b, size, 124, 8);
    } else if t == MIGRATE_D2D {
      FieldTrim(b, size, 116, 4);
      FieldTrim(b, size, 76, 8);
    } else if t == FILL_BUFFER {
      FieldTrim(b, size, 92, 8);
    } else if t == RUN_KERNEL {
      FieldTrim(b, size, 150, 2);
      FieldTrim(b, size, 152, 4);
      FieldTrim(b, size, 156, 8);
    } else if IsProgram(t) {
      FieldTrim(b, size, 76, 8);
      FieldTrim(b, size, 84, 8);
    } else if t == CREATE_KERNEL {
      FieldTrim(b, size, 76, 8);
    } else if t == CREATE_COMMAND_BUFFER {
      FieldTrim(b, size, 76, 8);
      FieldTrim(b, size, 108, 8);
    }
  }
}
