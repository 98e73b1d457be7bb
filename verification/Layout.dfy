/** What the fields of a request are, from the structures of include/messages.h: a body is the common
    part of RequestMsg_t followed by the members of the type's own structure, packed and little-endian,
    in the order of their declaration. From this alone follow the payload sizes and the fields that the
    rest of the model reads at fixed offsets. */
module Layout {
  import opened Messages
  import opened Migration
  import HashMath

  function U8(v: nat): seq<Byte> { ToLE(v, 1) }
  function U16(v: nat): seq<Byte> { ToLE(v, 2) }
  function U32(v: nat): seq<Byte> { ToLE(v, 4) }
  function U64(v: nat): seq<Byte> { ToLE(v, 8) }

  /** Byte i of a number is its digit of weight 256^i. */
  lemma {:induction false} Digit(v: nat, n: nat, i: nat)
    requires i < n
    ensures ToLE(v, n)[i] == v / Pow256(i) % 256
  {
    if i > 0 {
      Digit(v / 256, n - 1, i - 1);
      DivTwice(v, Pow256(i - 1));
    }
  }

  lemma DivTwice(v: nat, p: nat)
    requires p > 0
    ensures v / 256 / p == v / (256 * p)
  {
    var q, r := v / 256, v % 256;
    var a, b := q / p, q % p;
    assert v == 256 * (p * a + b) + r;
    assert v == (256 * p) * a + (256 * b + r);
    assert 256 * b + r < 256 * p;
    HashMath.ModUnique(v, 256 * p, a, 256 * b + r);
  }

  /** The member behind the bytes f. */
  lemma Peel(f: seq<Byte>, v: nat, n: nat, b: Body)
    requires f + ToLE(v, n) <= b && v < Pow256(n)
    ensures f <= b && |f| + n <= SIZEOF_REQUEST_MSG && Field(b, |f|, n) == v
  {
    assert b[|f|..|f| + n] == ToLE(v, n);
    LERoundTrip(v, n);
  }

  lemma PeelBytes(f: seq<Byte>, g: seq<Byte>, b: seq<Byte>)
    requires f + g <= b
    ensures f <= b
  {
  }

  lemma Powers()
    ensures Pow256(1) == 0x100 && Pow256(2) == 0x1_0000 && Pow256(4) == 0x1_0000_0000
    ensures Pow256(8) == 0x1_0000_0000_0000_0000
  {
    assert Pow256(3) == 256 * Pow256(2) && Pow256(4) == 256 * Pow256(3);
    assert Pow256(5) == 256 * Pow256(4) && Pow256(6) == 256 * Pow256(5);
    assert Pow256(7) == 256 * Pow256(6) && Pow256(8) == 256 * Pow256(7);
  }

  // ---------------------------------------------------------------- the common part

  /** A vec3_t: three 64-bit members. */
  type Vec3 = s: seq<Byte> | |s| == 3 * 8 witness Zeros(24)
  type Key = s: seq<Byte> | |s| == 16 witness Zeros(16)
  type u16 = x: int | 0 <= x < 0x1_0000
  type u32 = x: int | 0 <= x < 0x1_0000_0000
  type u64 = x: int | 0 <= x < 0x1_0000_0000_0000_0000

  /** The members of RequestMsg_t in front of its union. */
  datatype Common = Common(session: u64, authkey: Key, msgId: u64, eventId: u64, pid: u32, did: u32, clientDid: u32,
                           waitlistSize: u32, skipPeerNotify: u32, messageType: u32, objId: u64, cqId: u32)

  function CommonBytes(c: Common): (s: seq<Byte>)
    ensures |s| == BODY_OFFSET
  {
    U64(c.session) + c.authkey + U64(c.msgId) + U64(c.eventId) + U32(c.pid) + U32(c.did) + U32(c.clientDid)
    + U32(c.waitlistSize) + U32(c.skipPeerNotify) + U32(c.messageType) + U64(c.objId) + U32(c.cqId)
  }

  lemma CommonFields(c: Common, b: Body)
    requires CommonBytes(c) <= b
    ensures Pid(b) == c.pid && WaitlistSize(b) == c.waitlistSize && MessageType(b) == c.messageType
  {
    Powers();
    var f4 := U64(c.session) + c.authkey + U64(c.msgId) + U64(c.eventId);
    var f7 := f4 + U32(c.pid) + U32(c.did) + U32(c.clientDid);
    var f9 := f7 + U32(c.waitlistSize) + U32(c.skipPeerNotify);
    PeelBytes(f9 + U32(c.messageType) + U64(c.objId), U32(c.cqId), b);
    PeelBytes(f9 + U32(c.messageType), U64(c.objId), b);
    Peel(f9, c.messageType, 4, b);
    PeelBytes(f7 + U32(c.waitlistSize), U32(c.skipPeerNotify), b);
    Peel(f7, c.waitlistSize, 4, b);
    PeelBytes(f4 + U32(c.pid) + U32(c.did), U32(c.clientDid), b);
    PeelBytes(f4 + U32(c.pid), U32(c.did), b);
    Peel(f4, c.pid, 4, b);
  }

  // ---------------------------------------------------------------- payload sizes, type by type

  /** WriteBufferMsg_t announces its payload by `size`. */
  lemma WriteBuffer(c: Common, dstOffset: u64, size: u64, b: Body)
    requires c.messageType == WRITE_BUFFER && CommonBytes(c) + U64(dstOffset) + U64(size) <= b
    ensures ExtraSize(b) == size && Extra2Size(b) == 0
  {
    Powers();
    var f := CommonBytes(c);
    Peel(f + U64(dstOffset), size, 8, b);
    PeelBytes(f, U64(dstOffset), b);
    CommonFields(c, b);
  }

  /** WriteBufferRectMsg_t, by `host_bytes`. */
  lemma WriteBufferRect(c: Common, origin: Vec3, region: Vec3, rowPitch: u64, slicePitch: u64,
                        hostBytes: u64, b: Body)
    requires c.messageType == WRITE_BUFFER_RECT
    requires CommonBytes(c) + origin + region + U64(rowPitch) + U64(slicePitch) + U64(hostBytes) <= b
    ensures ExtraSize(b) == hostBytes && Extra2Size(b) == 0
  {
    Powers();
    var f := CommonBytes(c);
    Peel(f + origin + region + U64(rowPitch) + U64(slicePitch), hostBytes, 8, b);
    PeelBytes(f + origin + region + U64(rowPitch), U64(slicePitch), b);
    PeelBytes(f + origin + region, U64(rowPitch), b);
    PeelBytes(f + origin, region, b);
    PeelBytes(f, origin, b);
    CommonFields(c, b);
  }

  /** WriteImageRectMsg_t, by `host_bytes`. */
  lemma WriteImageRect(c: Common, origin: Vec3, region: Vec3, hostBytes: u64, b: Body)
    requires c.messageType == WRITE_IMAGE_RECT
    requires CommonBytes(c) + origin + region + U64(hostBytes) <= b
    ensures ExtraSize(b) == hostBytes && Extra2Size(b) == 0
  {
    Powers();
    var f := CommonBytes(c);
    Peel(f + origin + region, hostBytes, 8, b);
    PeelBytes(f + origin, region, b);
    PeelBytes(f, origin, b);
    CommonFields(c, b);
  }

  /** FillBufferMsg_t, by `pattern_size`, which the reader asserts to be at most 128. */
  lemma FillBuffer(c: Common, dstOffset: u64, size: u64, patternSize: u64, b: Body)
    requires c.messageType == FILL_BUFFER && CommonBytes(c) + U64(dstOffset) + U64(size) + U64(patternSize) <= b
    ensures ExtraSize(b) == patternSize && Extra2Size(b) == 0 && (Asserted(b) <==> patternSize <= 128)
  {
    Powers();
    var f := CommonBytes(c);
    Peel(f + U64(dstOffset) + U64(size), patternSize, 8, b);
    PeelBytes(f + U64(dstOffset), U64(size), b);
    PeelBytes(f, U64(dstOffset), b);
    CommonFields(c, b);
  }

  /** RunKernelMsg_t: with new arguments, 8 bytes and a flag for each of them, and then the values of the
      plain ones. */
  lemma RunKernel(c: Common, global: Vec3, local: Vec3, offset: Vec3, hasLocal: Byte, dim: Byte,
                  hasNewArgs: u16, argsNum: u32, podArgSize: u64, b: Body)
    requires c.messageType == RUN_KERNEL
    requires CommonBytes(c) + global + local + offset + U8(hasLocal) + U8(dim) + U16(hasNewArgs) + U32(argsNum)
             + U64(podArgSize) <= b
    ensures ExtraSize(b) == (if hasNewArgs != 0 then 9 * argsNum else 0)
    ensures Extra2Size(b) == if hasNewArgs != 0 then podArgSize else 0
  {
    Powers();
    var f := CommonBytes(c);
    var g := f + global + local + offset + U8(hasLocal) + U8(dim);
    Peel(g + U16(hasNewArgs) + U32(argsNum), podArgSize, 8, b);
    Peel(g + U16(hasNewArgs), argsNum, 4, b);
    Peel(g, hasNewArgs, 2, b);
    PeelBytes(f + global + local + offset + U8(hasLocal), U8(dim), b);
    PeelBytes(f + global + local + offset, U8(hasLocal), b);
    PeelBytes(f + global + local, offset, b);
    PeelBytes(f + global, local, b);
    PeelBytes(f, global, b);
    CommonFields(c, b);
  }

  /** BuildProgramMsg_t: the program by `payload_size`, and the options by `options_len`, except that a
      program of built-in kernels has none. */
  lemma BuildProgram(c: Common, payloadSize: u64, optionsLen: u64, b: Body)
    requires c.messageType in {BUILD_PROGRAM_FROM_SOURCE, BUILD_PROGRAM_FROM_BINARY, BUILD_PROGRAM_FROM_SPIRV,
                               COMPILE_PROGRAM_FROM_SPIRV, COMPILE_PROGRAM_FROM_SOURCE, LINK_PROGRAM,
                               BUILD_PROGRAM_WITH_BUILTINS, BUILD_PROGRAM_WITH_DEFINED_BUILTINS}
    requires CommonBytes(c) + U64(payloadSize) + U64(optionsLen) <= b
    ensures ExtraSize(b) == payloadSize
    ensures Extra2Size(b) == if c.messageType in {BUILD_PROGRAM_WITH_BUILTINS, BUILD_PROGRAM_WITH_DEFINED_BUILTINS}
                             then 0 else optionsLen
  {
    Powers();
    var f := CommonBytes(c);
    Peel(f + U64(payloadSize), optionsLen, 8, b);
    Peel(f, payloadSize, 8, b);
    CommonFields(c, b);
  }

  /** CreateKernelMsg_t, by `name_len`. */
  lemma CreateKernel(c: Common, nameLen: u64, b: Body)
    requires c.messageType == CREATE_KERNEL && CommonBytes(c) + U64(nameLen) <= b
    ensures ExtraSize(b) == nameLen && Extra2Size(b) == 0
  {
    Powers();
    Peel(CommonBytes(c), nameLen, 8, b);
    CommonFields(c, b);
  }

  /** CreateCommandBufferMsg_t: 4 bytes for each queue, and the commands; in 64-bit arithmetic. */
  lemma CreateCommandBuffer(c: Common, numQueues: u64, queuesOffset: u64, numCommands: u64, commandsOffset: u64,
                            commandsSize: u64, b: Body)
    requires c.messageType == CREATE_COMMAND_BUFFER
    requires CommonBytes(c) + U64(numQueues) + U64(queuesOffset) + U64(numCommands) + U64(commandsOffset)
             + U64(commandsSize) <= b
    ensures ExtraSize(b) == (numQueues * 4 + commandsSize) % 0x1_0000_0000_0000_0000 && Extra2Size(b) == 0
  {
    Powers();
    var f := CommonBytes(c) + U64(numQueues);
    Peel(f + U64(queuesOffset) + U64(numCommands) + U64(commandsOffset), commandsSize, 8, b);
    PeelBytes(f + U64(queuesOffset) + U64(numCommands), U64(commandsOffset), b);
    PeelBytes(f + U64(queuesOffset), U64(numCommands), b);
    PeelBytes(f, U64(queuesOffset), b);
    Peel(CommonBytes(c), numQueues, 8, b);
    CommonFields(c, b);
  }

  /** FillImageRectMsg_t always has 16 bytes of colour; the types not named here have no payload. */
  lemma Others(c: Common, b: Body)
    requires CommonBytes(c) <= b
    requires c.messageType !in {WRITE_BUFFER, WRITE_BUFFER_RECT, WRITE_IMAGE_RECT, MIGRATE_D2D, FILL_BUFFER, RUN_KERNEL,
                                CREATE_KERNEL, CREATE_COMMAND_BUFFER}
    requires !(BUILD_PROGRAM_FROM_SOURCE <= c.messageType <= LINK_PROGRAM)
    ensures ExtraSize(b) == (if c.messageType == FILL_IMAGE_RECT then 16 else 0) && Extra2Size(b) == 0 && Asserted(b)
  {
    CommonFields(c, b);
  }

  /** MigrateD2DMsg_t: the payload is there if the migration is external, and the header is the members of
      these names. */
  lemma MigrateD2D(c: Common, size: u64, lastWriteId: u64, sourcePid: u32, sourceDid: u32, sizeId: u32,
                   destPeerId: u32, sourcePeerId: u32, isImage: u32, isExternal: u32, b: Body)
    requires c.messageType == MIGRATE_D2D
    requires CommonBytes(c) + U64(size) + U64(lastWriteId) + U32(sourcePid) + U32(sourceDid) + U32(sizeId)
             + U32(destPeerId) + U32(sourcePeerId) + U32(isImage) + U32(isExternal) <= b
    ensures ExtraSize(b) == (if isExternal != 0 then size else 0) && Extra2Size(b) == 0
    ensures HeaderOf(b) == Header(c.pid, sourcePid, sourcePeerId, destPeerId, size, sizeId, lastWriteId)
    ensures MigrateIsImage(b) == isImage && MigrateIsExternal(b) == isExternal
  {
    Powers();
    var f := CommonBytes(c) + U64(size) + U64(lastWriteId);
    var g := f + U32(sourcePid) + U32(sourceDid);
    MigrateRest(g, sizeId, destPeerId, sourcePeerId, isImage, isExternal, b);
    PeelBytes(f + U32(sourcePid), U32(sourceDid), b);
    Peel(f, sourcePid, 4, b);
    Peel(CommonBytes(c) + U64(size), lastWriteId, 8, b);
    Peel(CommonBytes(c), size, 8, b);
    CommonFields(c, b);
  }

  lemma MigrateRest(g: seq<Byte>, sizeId: u32, destPeerId: u32, sourcePeerId: u32, isImage: u32, isExternal: u32,
                    b: Body)
    requires |g| == BODY_OFFSET + 24
    requires g + U32(sizeId) + U32(destPeerId) + U32(sourcePeerId) + U32(isImage) + U32(isExternal) <= b
    ensures g <= b && MigrateSizeId(b) == sizeId && MigrateDestPeer(b) == destPeerId
    ensures MigrateSourcePeer(b) == sourcePeerId && MigrateIsImage(b) == isImage && MigrateIsExternal(b) == isExternal
  {
    Powers();
    var h := g + U32(sizeId) + U32(destPeerId);
    Peel(h + U32(sourcePeerId) + U32(isImage), isExternal, 4, b);
    Peel(h + U32(sourcePeerId), isImage, 4, b);
    Peel(h, sourcePeerId, 4, b);
    Peel(g + U32(sizeId), destPeerId, 4, b);
    Peel(g, sizeId, 4, b);
  }
}
