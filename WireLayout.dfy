/**
 * The wire layout of the process-events connector protocol.
 *
 * A netlink message on the NETLINK_CONNECTOR family is a 16-byte nlmsghdr
 * envelope, then a 20-byte cn_msg connector header, then the connector
 * payload: a 4-byte multicast opcode on the way to the kernel, a proc_event
 * (16-byte header and a 24-byte union of event payloads) on the way back.
 * Multi-byte fields are written in the byte order of the host.
 *
 * The constants and record shapes follow connector/types.go; the netlink
 * macros follow <linux/netlink.h> as connector/connector.c uses them.
 */
module WireLayout {

  import opened Bytes
  import opened Wrappers

  // ---------------------------------------------------------------------
  // Field widths and the netlink length macros
  // ---------------------------------------------------------------------

  const U16_WIDTH: nat := 2
  const U32_WIDTH: nat := 4
  const U64_WIDTH: nat := 8

  /** sizeof(struct nlmsghdr): len, type, flags, seq, pid. */
  const NLMSGHDR_WIDTH: nat := U32_WIDTH + U16_WIDTH + U16_WIDTH + U32_WIDTH + U32_WIDTH
  /** sizeof(struct cb_id): idx, val. */
  const CBID_WIDTH: nat := U32_WIDTH + U32_WIDTH
  /** sizeof(struct cn_msg) without its flexible data member: id, seq, ack, len, flags. */
  const CNMSG_WIDTH: nat := CBID_WIDTH + U32_WIDTH + U32_WIDTH + U16_WIDTH + U16_WIDTH
  /** sizeof(enum proc_cn_mcast_op). */
  const MCAST_OP_WIDTH: nat := U32_WIDTH
  /** The proc_event header: what, cpu, timestamp_ns. */
  const PROC_HEADER_WIDTH: nat := U32_WIDTH + U32_WIDTH + U64_WIDTH
  /** A (pid, tgid) pair of C ints. */
  const PID_TGID_WIDTH: nat := U32_WIDTH + U32_WIDTH
  /** The size of the proc_event union: its largest members, comm and exit. */
  const PROC_UNION_WIDTH: nat := PID_TGID_WIDTH + 16

  const NLMSG_ALIGNTO: nat := 4

  /** NLMSG_ALIGN: round a length up to the next multiple of four. */
  function NlmsgAlign(len: nat): (r: nat)
    ensures r % NLMSG_ALIGNTO == 0
    ensures len <= r < len + NLMSG_ALIGNTO
  {
    (len + NLMSG_ALIGNTO - 1) / NLMSG_ALIGNTO * NLMSG_ALIGNTO
  }

  /** NLMSG_HDRLEN: the aligned size of the envelope. */
  const NLMSG_HDRLEN: nat := NlmsgAlign(NLMSGHDR_WIDTH)

  /** NLMSG_LENGTH: envelope plus a payload of the given length. */
  function NlmsgLength(len: nat): nat
  {
    len + NLMSG_HDRLEN
  }

  /** NLMSG_SPACE: envelope plus payload, rounded up to the alignment. */
  function NlmsgSpace(len: nat): (r: nat)
    ensures r % NLMSG_ALIGNTO == 0
    ensures NlmsgLength(len) <= r < NlmsgLength(len) + NLMSG_ALIGNTO
  {
    NlmsgAlign(NlmsgLength(len))
  }

  const NLMSG_DONE: u16 := 3
  const AF_NETLINK: u16 := 16

  // ---------------------------------------------------------------------
  // Constants of connector/types.go
  // ---------------------------------------------------------------------

  const CN_IDX_PROC: u32 := 0x1
  const CN_VAL_PROC: u32 := 0x1

  const PROC_CN_MCAST_LISTEN: u32 := 1
  const PROC_CN_MCAST_IGNORE: u32 := 2

  const CN_MSG_LEN: nat := 20
  const NLC_MSG_LEN: nat := NLMSG_HDRLEN + CN_MSG_LEN
  const PROC_HDR_LEN: nat := 16
  const PROC_EVENT_LEN: nat := 40

  /** The process-event kinds, one per PROC_EVENT_* constant. */
  datatype EventKind =
    | NoEvent | ForkEvent | ExecEvent | UidEvent | GidEvent
    | SidEvent | PtraceEvent | CommEvent | CoredumpEvent | ExitEvent

  /** The value of the `what` field for each kind. */
  function KindValue(k: EventKind): u32
  {
    match k
    case NoEvent => 0x00000000
    case ForkEvent => 0x00000001
    case ExecEvent => 0x00000002
    case UidEvent => 0x00000004
    case GidEvent => 0x00000040
    case SidEvent => 0x00000080
    case PtraceEvent => 0x00000100
    case CommEvent => 0x00000200
    case CoredumpEvent => 0x40000000
    case ExitEvent => 0x80000000
  }

  const PROC_EVENT_EXEC: u32 := KindValue(ExecEvent)
  const PROC_EVENT_EXIT: u32 := KindValue(ExitEvent)

  /** The kind named by a `what` value, if it names one. */
  function KindOf(what: u32): (k: Option<EventKind>)
    ensures k.Some? ==> KindValue(k.value) == what
  {
    if what == 0x00000000 then Some(NoEvent)
    else if what == 0x00000001 then Some(ForkEvent)
    else if what == 0x00000002 then Some(ExecEvent)
    else if what == 0x00000004 then Some(UidEvent)
    else if what == 0x00000040 then Some(GidEvent)
    else if what == 0x00000080 then Some(SidEvent)
    else if what == 0x00000100 then Some(PtraceEvent)
    else if what == 0x00000200 then Some(CommEvent)
    else if what == 0x40000000 then Some(CoredumpEvent)
    else if what == 0x80000000 then Some(ExitEvent)
    else None
  }

  /** Every kind is recovered from its value, so no two kinds share one. */
  lemma KindOfValue(k: EventKind)
    ensures KindOf(KindValue(k)) == Some(k)
  {
  }

  /** The `what` value of a kind as a 32-bit word (BitIsKindValue). */
  function Bit(k: EventKind): bv32
  {
    match k
    case NoEvent => 0x00000000
    case ForkEvent => 0x00000001
    case ExecEvent => 0x00000002
    case UidEvent => 0x00000004
    case GidEvent => 0x00000040
    case SidEvent => 0x00000080
    case PtraceEvent => 0x00000100
    case CommEvent => 0x00000200
    case CoredumpEvent => 0x40000000
    case ExitEvent => 0x80000000
  }

  /** The word of a kind is its `what` value. */
  lemma BitIsKindValue(k: EventKind)
    ensures Bit(k) as int == KindValue(k)
  {
  }

  predicate IsSingleBit(v: bv32)
  {
    v != 0 && v & (v - 1) == 0
  }

  /** NONE is zero and every other kind is a single bit. */
  lemma KindsAreSingleBits(k: EventKind)
    ensures k == NoEvent <==> Bit(k) == 0
    ensures k != NoEvent ==> IsSingleBit(Bit(k))
  {
  }

  /**
   * EXIT is the last kind and COREDUMP the next to last: they take the top
   * two bits of the word, and every other kind lies below 0x400, the value
   * the next kind would take.
   */
  lemma CoredumpAndExitAreTopBits()
    ensures Bit(ExitEvent) == 1 << 31 && Bit(CoredumpEvent) == 1 << 30
    ensures forall k: EventKind | k != CoredumpEvent && k != ExitEvent :: Bit(k) < 0x400
  {
  }

  /** Distinct kinds have no bit in common. */
  lemma KindBitsDisjoint(a: EventKind, b: EventKind)
    requires a != b
    ensures Bit(a) & Bit(b) == 0
  {
  }

  /** The set of kinds, OR-ed together into one word. */
  function KindMask(ks: seq<EventKind>): bv32
  {
    if ks == [] then 0 else Bit(ks[0]) | KindMask(ks[1..])
  }

  /** A kind other than NONE is in an OR-ed set exactly when its bit is set. */
  lemma {:induction false} KindMaskMembership(ks: seq<EventKind>, k: EventKind)
    requires k != NoEvent
    ensures (KindMask(ks) & Bit(k) != 0) <==> k in ks
  {
    KindsAreSingleBits(k);
    if ks != [] {
      KindMaskMembership(ks[1..], k);
      var m := KindMask(ks[1..]);
      var h := Bit(ks[0]);
      assert KindMask(ks) & Bit(k) == (h & Bit(k)) | (m & Bit(k));
      if ks[0] == k {
        assert h & Bit(k) == Bit(k);
      } else {
        KindBitsDisjoint(ks[0], k);
      }
      assert k in ks <==> ks[0] == k || k in ks[1..];
    }
  }

  // ---------------------------------------------------------------------
  // Records
  // ---------------------------------------------------------------------

  /** struct sockaddr_nl (syscall.SockaddrNetlink): family, port id, multicast group mask. */
  datatype SockaddrNl = SockaddrNl(family: u16, pid: u32, groups: u32)

  /** struct nlmsghdr (unix.NlMsghdr). */
  datatype NlMsgHdr = NlMsgHdr(len: u32, typ: u16, flags: u16, sequence: u32, pid: u32)

  /** struct cb_id. */
  datatype CbId = CbId(idx: u32, val: u32)

  /** struct cn_msg, without its flexible data member. */
  datatype CnMsg = CnMsg(id: CbId, sequence: u32, ack: u32, len: u16, flags: u16)

  /**
   * nlConnectorMsg: an envelope followed by a connector header.  The packed
   * variant nlConnectorMsgPacked declares the same fields in the same order
   * with the inner records written inline, so this one datatype is both.
   */
  datatype NlConnectorMsg = NlConnectorMsg(header: NlMsgHdr, msg: CnMsg)

  /** procEventHeader. */
  datatype ProcEventHeader = ProcEventHeader(what: u32, cpu: u32, timestampNs: u64)

  datatype PidAndTgid = PidAndTgid(pid: u32, tgid: u32)

  /** A command name: a fixed 16-byte buffer. */
  type CommName = s: seq<u8> | |s| == 16
    witness [0, 0, 0, 0, 0, 0, 0, 0, 0, 0, 0, 0, 0, 0, 0, 0]

  /** The kind-specific payloads that may follow a proc_event header. */
  datatype ProcEventData =
    | AckProc(err: u32)
    | ForkProc(parent: PidAndTgid, child: PidAndTgid)
    | ExecProc(process: PidAndTgid)
    | IdProc(process: PidAndTgid, r: u32, e: u32)
    | SidProc(process: PidAndTgid)
    | PtraceProc(process: PidAndTgid, tracer: PidAndTgid)
    | CommProc(process: PidAndTgid, comm: CommName)
    | CoredumpProc(process: PidAndTgid, parent: PidAndTgid)
    | ExitProc(process: PidAndTgid, exitCode: u32, exitSignal: u32, parent: PidAndTgid)

  /** The width of each payload record, field by field. */
  function PayloadWidth(d: ProcEventData): nat
  {
    match d
    case AckProc(_) => U32_WIDTH
    case ForkProc(_, _) => PID_TGID_WIDTH + PID_TGID_WIDTH
    case ExecProc(_) => PID_TGID_WIDTH
    case IdProc(_, _, _) => PID_TGID_WIDTH + U32_WIDTH + U32_WIDTH
    case SidProc(_) => PID_TGID_WIDTH
    case PtraceProc(_, _) => PID_TGID_WIDTH + PID_TGID_WIDTH
    case CommProc(_, _) => PID_TGID_WIDTH + 16
    case CoredumpProc(_, _) => PID_TGID_WIDTH + PID_TGID_WIDTH
    case ExitProc(_, _, _, _) => PID_TGID_WIDTH + U32_WIDTH + U32_WIDTH + PID_TGID_WIDTH
  }

  /** The kinds whose `what` value announces a payload of this shape. */
  predicate Announces(k: EventKind, d: ProcEventData)
  {
    match d
    case AckProc(_) => k == NoEvent
    case ForkProc(_, _) => k == ForkEvent
    case ExecProc(_) => k == ExecEvent
    case IdProc(_, _, _) => k == UidEvent || k == GidEvent
    case SidProc(_) => k == SidEvent
    case PtraceProc(_, _) => k == PtraceEvent
    case CommProc(_, _) => k == CommEvent
    case CoredumpProc(_, _) => k == CoredumpEvent
    case ExitProc(_, _, _, _) => k == ExitEvent
  }

  // ---------------------------------------------------------------------
  // Encoders
  // ---------------------------------------------------------------------

  function EncodeNlMsgHdr(o: ByteOrder, h: NlMsgHdr): (b: seq<u8>)
    ensures |b| == NLMSG_HDRLEN
  {
    Encode(o, h.len, 4) + Encode(o, h.typ, 2) + Encode(o, h.flags, 2)
      + Encode(o, h.sequence, 4) + Encode(o, h.pid, 4)
  }

  function EncodeCnMsg(o: ByteOrder, c: CnMsg): (b: seq<u8>)
    ensures |b| == CN_MSG_LEN
  {
    Encode(o, c.id.idx, 4) + Encode(o, c.id.val, 4) + Encode(o, c.sequence, 4)
      + Encode(o, c.ack, 4) + Encode(o, c.len, 2) + Encode(o, c.flags, 2)
  }

  /** The envelope and connector header: NLC_MSG_LEN bytes, after which the proc_event header starts. */
  function EncodeNlConnectorMsg(o: ByteOrder, m: NlConnectorMsg): (b: seq<u8>)
    ensures |b| == NLC_MSG_LEN == NLMSGHDR_WIDTH + CNMSG_WIDTH
    ensures DecodeNlMsgHdr(o, b, 0) == m.header
    ensures DecodeCnMsg(o, b, NLMSG_HDRLEN) == m.msg
  {
    var b := EncodeNlMsgHdr(o, m.header) + EncodeCnMsg(o, m.msg);
    assert b[0..16] == EncodeNlMsgHdr(o, m.header);
    assert b[16..36] == EncodeCnMsg(o, m.msg);
    NlMsgHdrAt(o, b, 0, m.header);
    CnMsgAt(o, b, 16, m.msg);
    b
  }

  function EncodeProcEventHeader(o: ByteOrder, e: ProcEventHeader): (b: seq<u8>)
    ensures |b| == PROC_HDR_LEN == PROC_HEADER_WIDTH
  {
    Encode(o, e.what, 4) + Encode(o, e.cpu, 4) + Encode(o, e.timestampNs, 8)
  }

  function EncodePidAndTgid(o: ByteOrder, p: PidAndTgid): (b: seq<u8>)
    ensures |b| == PID_TGID_WIDTH
  {
    Encode(o, p.pid, 4) + Encode(o, p.tgid, 4)
  }

  function EncodePayload(o: ByteOrder, d: ProcEventData): (b: seq<u8>)
    ensures |b| == PayloadWidth(d)
  {
    match d
    case AckProc(err) => Encode(o, err, 4)
    case ForkProc(parent, child) => EncodePidAndTgid(o, parent) + EncodePidAndTgid(o, child)
    case ExecProc(process) => EncodePidAndTgid(o, process)
    case IdProc(process, r, e) => EncodePidAndTgid(o, process) + Encode(o, r, 4) + Encode(o, e, 4)
    case SidProc(process) => EncodePidAndTgid(o, process)
    case PtraceProc(process, tracer) => EncodePidAndTgid(o, process) + EncodePidAndTgid(o, tracer)
    case CommProc(process, comm) => EncodePidAndTgid(o, process) + comm
    case CoredumpProc(process, parent) => EncodePidAndTgid(o, process) + EncodePidAndTgid(o, parent)
    case ExitProc(process, code, signal, parent) =>
      EncodePidAndTgid(o, process) + Encode(o, code, 4) + Encode(o, signal, 4) + EncodePidAndTgid(o, parent)
  }

  /**
   * Every payload fits in the PROC_EVENT_LEN - PROC_HDR_LEN bytes after the
   * proc_event header, and exactly the comm and exit payloads fill them.
   */
  lemma PayloadsFitEventUnion(d: ProcEventData)
    ensures PayloadWidth(d) <= PROC_EVENT_LEN - PROC_HDR_LEN == PROC_UNION_WIDTH
    ensures PayloadWidth(d) == PROC_EVENT_LEN - PROC_HDR_LEN <==> d.CommProc? || d.ExitProc?
  {
  }

  /**
   * The *_LEN constants are the summed widths of the records they measure:
   * the envelope is 16 bytes and needs no padding, cn_msg is 4+4+4+4+2+2,
   * the proc_event header 4+4+8, and NLC_MSG_LEN is the offset of that header.
   */
  lemma LengthConstantsMatchWidths()
    ensures NLMSG_HDRLEN == NLMSGHDR_WIDTH == 16
    ensures CN_MSG_LEN == CNMSG_WIDTH == 20
    ensures NLC_MSG_LEN == NLMSGHDR_WIDTH + CNMSG_WIDTH == 36
    ensures PROC_HDR_LEN == PROC_HEADER_WIDTH == 16
    ensures PROC_EVENT_LEN == PROC_HDR_LEN + PROC_UNION_WIDTH
  {
  }

  /** The widths of the payload records of every kind. */
  lemma PayloadWidths(p: PidAndTgid, q: PidAndTgid, x: u32, y: u32, comm: CommName)
    ensures PayloadWidth(ForkProc(p, q)) == 16 && PayloadWidth(ExecProc(p)) == 8
    ensures PayloadWidth(IdProc(p, x, y)) == 16 && PayloadWidth(SidProc(p)) == 8
    ensures PayloadWidth(PtraceProc(p, q)) == 16 && PayloadWidth(CommProc(p, comm)) == 24
    ensures PayloadWidth(CoredumpProc(p, q)) == 16 && PayloadWidth(ExitProc(p, x, y, q)) == 24
    ensures PayloadWidth(AckProc(x)) == 4
  {
  }

  // ---------------------------------------------------------------------
  // Decoders at fixed offsets
  // ---------------------------------------------------------------------

  function DecodeNlMsgHdr(o: ByteOrder, b: seq<u8>, off: nat): NlMsgHdr
    requires off + NLMSG_HDRLEN <= |b|
  {
    NlMsgHdr(ReadUint(o, b, off, 4), ReadUint(o, b, off + 4, 2), ReadUint(o, b, off + 6, 2),
             ReadUint(o, b, off + 8, 4), ReadUint(o, b, off + 12, 4))
  }

  function DecodeCnMsg(o: ByteOrder, b: seq<u8>, off: nat): CnMsg
    requires off + CN_MSG_LEN <= |b|
  {
    CnMsg(CbId(ReadUint(o, b, off, 4), ReadUint(o, b, off + 4, 4)), ReadUint(o, b, off + 8, 4),
          ReadUint(o, b, off + 12, 4), ReadUint(o, b, off + 16, 2), ReadUint(o, b, off + 18, 2))
  }

  function DecodeProcEventHeader(o: ByteOrder, b: seq<u8>, off: nat): ProcEventHeader
    requires off + PROC_HDR_LEN <= |b|
  {
    ProcEventHeader(ReadUint(o, b, off, 4), ReadUint(o, b, off + 4, 4), ReadUint(o, b, off + 8, 8))
  }

  function DecodePidAndTgid(o: ByteOrder, b: seq<u8>, off: nat): PidAndTgid
    requires off + PID_TGID_WIDTH <= |b|
  {
    PidAndTgid(ReadUint(o, b, off, 4), ReadUint(o, b, off + 4, 4))
  }

  /** A part of a record that was placed at offset off of a buffer. */
  lemma SliceWithin(b: seq<u8>, off: nat, e: seq<u8>, i: nat, j: nat)
    requires off + |e| <= |b| && b[off..off + |e|] == e
    requires i <= j <= |e|
    ensures b[off + i..off + j] == e[i..j]
  {
    forall k | 0 <= k < j - i
      ensures b[off + i..off + j][k] == e[i..j][k]
    {
      assert b[off + i + k] == b[off..off + |e|][i + k];
    }
  }

  /** The envelope is recovered from its encoding wherever in a buffer it was placed. */
  lemma NlMsgHdrAt(o: ByteOrder, b: seq<u8>, off: nat, h: NlMsgHdr)
    requires off + NLMSG_HDRLEN <= |b| && b[off..off + NLMSG_HDRLEN] == EncodeNlMsgHdr(o, h)
    ensures DecodeNlMsgHdr(o, b, off) == h
  {
    var e := EncodeNlMsgHdr(o, h);
    assert e[0..4] == Encode(o, h.len, 4);
    assert e[4..6] == Encode(o, h.typ, 2);
    assert e[6..8] == Encode(o, h.flags, 2);
    assert e[8..12] == Encode(o, h.sequence, 4);
    assert e[12..16] == Encode(o, h.pid, 4);
    SliceWithin(b, off, e, 0, 4);
    SliceWithin(b, off, e, 4, 6);
    SliceWithin(b, off, e, 6, 8);
    SliceWithin(b, off, e, 8, 12);
    SliceWithin(b, off, e, 12, 16);
    ReadEncodedAt(o, b, off, h.len, 4);
    ReadEncodedAt(o, b, off + 4, h.typ, 2);
    ReadEncodedAt(o, b, off + 6, h.flags, 2);
    ReadEncodedAt(o, b, off + 8, h.sequence, 4);
    ReadEncodedAt(o, b, off + 12, h.pid, 4);
  }

  lemma CnMsgAt(o: ByteOrder, b: seq<u8>, off: nat, c: CnMsg)
    requires off + CN_MSG_LEN <= |b| && b[off..off + CN_MSG_LEN] == EncodeCnMsg(o, c)
    ensures DecodeCnMsg(o, b, off) == c
  {
    var e := EncodeCnMsg(o, c);
    assert e[0..4] == Encode(o, c.id.idx, 4);
    assert e[4..8] == Encode(o, c.id.val, 4);
    assert e[8..12] == Encode(o, c.sequence, 4);
    assert e[12..16] == Encode(o, c.ack, 4);
    assert e[16..18] == Encode(o, c.len, 2);
    assert e[18..20] == Encode(o, c.flags, 2);
    SliceWithin(b, off, e, 0, 4);
    SliceWithin(b, off, e, 4, 8);
    SliceWithin(b, off, e, 8, 12);
    SliceWithin(b, off, e, 12, 16);
    SliceWithin(b, off, e, 16, 18);
    SliceWithin(b, off, e, 18, 20);
    ReadEncodedAt(o, b, off, c.id.idx, 4);
    ReadEncodedAt(o, b, off + 4, c.id.val, 4);
    ReadEncodedAt(o, b, off + 8, c.sequence, 4);
    ReadEncodedAt(o, b, off + 12, c.ack, 4);
    ReadEncodedAt(o, b, off + 16, c.len, 2);
    ReadEncodedAt(o, b, off + 18, c.flags, 2);
  }

  lemma ProcEventHeaderAt(o: ByteOrder, b: seq<u8>, off: nat, h: ProcEventHeader)
    requires off + PROC_HDR_LEN <= |b| && b[off..off + PROC_HDR_LEN] == EncodeProcEventHeader(o, h)
    ensures DecodeProcEventHeader(o, b, off) == h
  {
    var e := EncodeProcEventHeader(o, h);
    assert e[0..4] == Encode(o, h.what, 4);
    assert e[4..8] == Encode(o, h.cpu, 4);
    assert e[8..16] == Encode(o, h.timestampNs, 8);
    SliceWithin(b, off, e, 0, 4);
    SliceWithin(b, off, e, 4, 8);
    SliceWithin(b, off, e, 8, 16);
    ReadEncodedAt(o, b, off, h.what, 4);
    ReadEncodedAt(o, b, off + 4, h.cpu, 4);
    ReadEncodedAt(o, b, off + 8, h.timestampNs, 8);
  }

  lemma PidAndTgidAt(o: ByteOrder, b: seq<u8>, off: nat, p: PidAndTgid)
    requires off + PID_TGID_WIDTH <= |b| && b[off..off + PID_TGID_WIDTH] == EncodePidAndTgid(o, p)
    ensures DecodePidAndTgid(o, b, off) == p
  {
    var e := EncodePidAndTgid(o, p);
    assert e[0..4] == Encode(o, p.pid, 4);
    assert e[4..8] == Encode(o, p.tgid, 4);
    SliceWithin(b, off, e, 0, 4);
    SliceWithin(b, off, e, 4, 8);
    ReadEncodedAt(o, b, off, p.pid, 4);
    ReadEncodedAt(o, b, off + 4, p.tgid, 4);
  }

  // ---------------------------------------------------------------------
  // Payload dispatch on the event kind
  // ---------------------------------------------------------------------

  /** The payload a proc_event of kind k carries at offset off. */
  function DecodePayload(o: ByteOrder, k: EventKind, b: seq<u8>, off: nat): (d: ProcEventData)
    requires off + PROC_EVENT_LEN - PROC_HDR_LEN <= |b|
    ensures Announces(k, d)
  {
    match k
    case NoEvent => AckProc(ReadUint(o, b, off, 4))
    case ForkEvent => ForkProc(DecodePidAndTgid(o, b, off), DecodePidAndTgid(o, b, off + 8))
    case ExecEvent => ExecProc(DecodePidAndTgid(o, b, off))
    case UidEvent => IdProc(DecodePidAndTgid(o, b, off), ReadUint(o, b, off + 8, 4), ReadUint(o, b, off + 12, 4))
    case GidEvent => IdProc(DecodePidAndTgid(o, b, off), ReadUint(o, b, off + 8, 4), ReadUint(o, b, off + 12, 4))
    case SidEvent => SidProc(DecodePidAndTgid(o, b, off))
    case PtraceEvent => PtraceProc(DecodePidAndTgid(o, b, off), DecodePidAndTgid(o, b, off + 8))
    case CommEvent => CommProc(DecodePidAndTgid(o, b, off), b[off + 8..off + 24])
    case CoredumpEvent => CoredumpProc(DecodePidAndTgid(o, b, off), DecodePidAndTgid(o, b, off + 8))
    case ExitEvent =>
      ExitProc(DecodePidAndTgid(o, b, off), ReadUint(o, b, off + 8, 4), ReadUint(o, b, off + 12, 4),
               DecodePidAndTgid(o, b, off + 16))
  }

  /** Dispatching on the announced kind recovers every payload shape from its encoding. */
  lemma PayloadAt(o: ByteOrder, k: EventKind, b: seq<u8>, off: nat, d: ProcEventData)
    requires Announces(k, d)
    requires off + PROC_EVENT_LEN - PROC_HDR_LEN <= |b|
    requires b[off..off + PayloadWidth(d)] == EncodePayload(o, d)
    ensures DecodePayload(o, k, b, off) == d
  {
    var e := EncodePayload(o, d);
    match d
    case AckProc(err) =>
      ReadEncodedAt(o, b, off, err, 4);
    case ForkProc(parent, child) =>
      PairsAt(o, b, off, e, parent, child);
    case ExecProc(process) =>
      PidAndTgidAt(o, b, off, process);
    case IdProc(process, r, x) =>
      PairAndWordsAt(o, b, off, e, process, r, x);
    case SidProc(process) =>
      PidAndTgidAt(o, b, off, process);
    case PtraceProc(process, tracer) =>
      PairsAt(o, b, off, e, process, tracer);
    case CommProc(process, comm) =>
      assert e[0..8] == EncodePidAndTgid(o, process);
      assert e[8..24] == comm;
      SliceWithin(b, off, e, 0, 8);
      SliceWithin(b, off, e, 8, 24);
      PidAndTgidAt(o, b, off, process);
    case CoredumpProc(process, parent) =>
      PairsAt(o, b, off, e, process, parent);
    case ExitProc(process, code, signal, parent) =>
      var f := EncodePidAndTgid(o, process) + Encode(o, code, 4) + Encode(o, signal, 4);
      assert e == f + EncodePidAndTgid(o, parent);
      assert e[0..16] == f && e[16..24] == EncodePidAndTgid(o, parent);
      SliceWithin(b, off, e, 0, 16);
      SliceWithin(b, off, e, 16, 24);
      PairAndWordsAt(o, b, off, f, process, code, signal);
      PidAndTgidAt(o, b, off + 16, parent);
  }

  /** A (pid, tgid) pair followed by two words, as in the id and exit payloads. */
  lemma PairAndWordsAt(o: ByteOrder, b: seq<u8>, off: nat, e: seq<u8>, p: PidAndTgid, x: u32, y: u32)
    requires e == EncodePidAndTgid(o, p) + Encode(o, x, 4) + Encode(o, y, 4)
    requires off + |e| <= |b| && b[off..off + |e|] == e
    ensures DecodePidAndTgid(o, b, off) == p
    ensures ReadUint(o, b, off + 8, 4) == x && ReadUint(o, b, off + 12, 4) == y
  {
    assert e[0..8] == EncodePidAndTgid(o, p);
    assert e[8..12] == Encode(o, x, 4);
    assert e[12..16] == Encode(o, y, 4);
    SliceWithin(b, off, e, 0, 8);
    SliceWithin(b, off, e, 8, 12);
    SliceWithin(b, off, e, 12, 16);
    PidAndTgidAt(o, b, off, p);
    ReadEncodedAt(o, b, off + 8, x, 4);
    ReadEncodedAt(o, b, off + 12, y, 4);
  }

  /** Two (pid, tgid) pairs placed one after the other. */
  lemma PairsAt(o: ByteOrder, b: seq<u8>, off: nat, e: seq<u8>, p: PidAndTgid, q: PidAndTgid)
    requires e == EncodePidAndTgid(o, p) + EncodePidAndTgid(o, q)
    requires off + |e| <= |b| && b[off..off + |e|] == e
    ensures DecodePidAndTgid(o, b, off) == p && DecodePidAndTgid(o, b, off + 8) == q
  {
    assert e[0..8] == EncodePidAndTgid(o, p);
    assert e[8..16] == EncodePidAndTgid(o, q);
    SliceWithin(b, off, e, 0, 8);
    SliceWithin(b, off, e, 8, 16);
    PidAndTgidAt(o, b, off, p);
    PidAndTgidAt(o, b, off + 8, q);
  }

  // ---------------------------------------------------------------------
  // Whole messages
  // ---------------------------------------------------------------------

  /** A user-to-kernel control message: envelope, connector header and multicast opcode. */
  datatype ControlMsg = ControlMsg(header: NlMsgHdr, msg: CnMsg, op: u32)

  /** The size of a control message on the wire. */
  const CONTROL_MSG_LEN: nat := NLMSGHDR_WIDTH + CNMSG_WIDTH + MCAST_OP_WIDTH

  function EncodeControlMsg(o: ByteOrder, m: ControlMsg): (b: seq<u8>)
    ensures |b| == CONTROL_MSG_LEN == NlmsgSpace(CN_MSG_LEN + MCAST_OP_WIDTH)
  {
    EncodeNlMsgHdr(o, m.header) + EncodeCnMsg(o, m.msg) + Encode(o, m.op, 4)
  }

  /** Reads a control message back from its fixed offsets; only a buffer of the exact size is one. */
  function DecodeControlMsg(o: ByteOrder, b: seq<u8>): Option<ControlMsg>
  {
    if |b| != CONTROL_MSG_LEN then None
    else Some(ControlMsg(DecodeNlMsgHdr(o, b, 0), DecodeCnMsg(o, b, NLMSG_HDRLEN), ReadUint(o, b, NLC_MSG_LEN, 4)))
  }

  /** Every field of a control message is read back from the offset it was written at. */
  lemma ControlMsgRoundTrip(o: ByteOrder, m: ControlMsg)
    ensures DecodeControlMsg(o, EncodeControlMsg(o, m)) == Some(m)
  {
    var b := EncodeControlMsg(o, m);
    assert b[0..16] == EncodeNlMsgHdr(o, m.header);
    assert b[16..36] == EncodeCnMsg(o, m.msg);
    assert b[36..40] == Encode(o, m.op, 4);
    NlMsgHdrAt(o, b, 0, m.header);
    CnMsgAt(o, b, 16, m.msg);
    ReadEncodedAt(o, b, 36, m.op, 4);
  }

  /** Re-encoding a field read at offset i gives back the bytes it was read from. */
  lemma EncodeRead(o: ByteOrder, b: seq<u8>, i: nat, w: nat)
    requires i + w <= |b|
    ensures Encode(o, ReadUint(o, b, i, w), w) == b[i..i + w]
  {
    EncodeDecode(o, b[i..i + w]);
  }

  lemma EncodeDecodedNlMsgHdr(o: ByteOrder, b: seq<u8>, off: nat)
    requires off + NLMSG_HDRLEN <= |b|
    ensures EncodeNlMsgHdr(o, DecodeNlMsgHdr(o, b, off)) == b[off..off + NLMSG_HDRLEN]
  {
    EncodeRead(o, b, off, 4);
    EncodeRead(o, b, off + 4, 2);
    EncodeRead(o, b, off + 6, 2);
    EncodeRead(o, b, off + 8, 4);
    EncodeRead(o, b, off + 12, 4);
    assert b[off..off + 16] == b[off..off + 4] + b[off + 4..off + 6] + b[off + 6..off + 8]
      + b[off + 8..off + 12] + b[off + 12..off + 16];
  }

  lemma EncodeDecodedCnMsg(o: ByteOrder, b: seq<u8>, off: nat)
    requires off + CN_MSG_LEN <= |b|
    ensures EncodeCnMsg(o, DecodeCnMsg(o, b, off)) == b[off..off + CN_MSG_LEN]
  {
    EncodeRead(o, b, off, 4);
    EncodeRead(o, b, off + 4, 4);
    EncodeRead(o, b, off + 8, 4);
    EncodeRead(o, b, off + 12, 4);
    EncodeRead(o, b, off + 16, 2);
    EncodeRead(o, b, off + 18, 2);
    assert b[off..off + 20] == b[off..off + 4] + b[off + 4..off + 8] + b[off + 8..off + 12]
      + b[off + 12..off + 16] + b[off + 16..off + 18] + b[off + 18..off + 20];
  }

  /** A buffer that decodes as a control message is exactly that message's encoding. */
  lemma ControlMsgDecodeExact(o: ByteOrder, b: seq<u8>)
    requires DecodeControlMsg(o, b).Some?
    ensures EncodeControlMsg(o, DecodeControlMsg(o, b).value) == b
  {
    EncodeDecodedNlMsgHdr(o, b, 0);
    EncodeDecodedCnMsg(o, b, 16);
    EncodeRead(o, b, 36, 4);
    assert b == b[0..16] + b[16..36] + b[36..40];
  }

  /**
   * A kernel-to-user process-event message: envelope, connector header,
   * proc_event header and payload, the payload padded with zeros to the
   * width of the proc_event union.
   */
  datatype EventMsg = EventMsg(envelope: NlConnectorMsg, event: ProcEventHeader, data: ProcEventData)

  /** The size of an event message on the wire. */
  const EVENT_MSG_LEN: nat := NLC_MSG_LEN + PROC_EVENT_LEN

  function EncodeEventMsg(o: ByteOrder, m: EventMsg): (b: seq<u8>)
    ensures |b| == EVENT_MSG_LEN == NlmsgSpace(CN_MSG_LEN + PROC_EVENT_LEN)
  {
    PayloadsFitEventUnion(m.data);
    EncodeNlConnectorMsg(o, m.envelope) + EncodeProcEventHeader(o, m.event)
      + EncodePayload(o, m.data) + seq(PROC_UNION_WIDTH - PayloadWidth(m.data), _ => 0)
  }

  /** The kind in the proc_event header is a known one and announces the payload that follows. */
  predicate WellFormedEvent(m: EventMsg)
  {
    KindOf(m.event.what).Some? && Announces(KindOf(m.event.what).value, m.data)
  }

  /** The offset of the payload inside an event message. */
  const PAYLOAD_OFFSET: nat := NLC_MSG_LEN + PROC_HDR_LEN

  /** In an encoded event, the proc_event header sits at NLC_MSG_LEN and the payload right after it. */
  lemma EventMsgFields(o: ByteOrder, m: EventMsg)
    requires WellFormedEvent(m)
    ensures DecodeNlMsgHdr(o, EncodeEventMsg(o, m), 0) == m.envelope.header
    ensures DecodeCnMsg(o, EncodeEventMsg(o, m), NLMSG_HDRLEN) == m.envelope.msg
    ensures DecodeProcEventHeader(o, EncodeEventMsg(o, m), NLC_MSG_LEN) == m.event
    ensures DecodePayload(o, KindOf(m.event.what).value, EncodeEventMsg(o, m), PAYLOAD_OFFSET) == m.data
  {
    var b := EncodeEventMsg(o, m);
    var w := PayloadWidth(m.data);
    PayloadsFitEventUnion(m.data);
    assert b[0..16] == EncodeNlMsgHdr(o, m.envelope.header);
    assert b[16..36] == EncodeCnMsg(o, m.envelope.msg);
    assert b[36..52] == EncodeProcEventHeader(o, m.event);
    assert b[52..52 + w] == EncodePayload(o, m.data);
    NlMsgHdrAt(o, b, 0, m.envelope.header);
    CnMsgAt(o, b, 16, m.envelope.msg);
    ProcEventHeaderAt(o, b, 36, m.event);
    PayloadAt(o, KindOf(m.event.what).value, b, 52, m.data);
  }
}
