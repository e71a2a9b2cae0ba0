/**
 * The Go client of the process-events connector (main.go).
 *
 * getSendMsg builds the "start listening" control message with
 * encoding/binary and a package-level sequence counter; initNladdr builds
 * the source and destination netlink addresses; main's receive loop
 * forwards the data of every parsed message whose type is NLMSG_DONE.
 * Socket calls, syscall.ParseNetlinkMessage and logging are not modelled:
 * the parsed messages and the process id are parameters.
 *
 * main.go's constants are untyped, so procCnMCastListen reaches
 * encoding/binary as a Go `int`, a type that package does not encode:
 * binary.Size yields -1 for it and binary.Write fails without writing.
 * The model follows those semantics (BinarySize, BinaryWrite).
 */
module GoMonitor {

  import opened Bytes
  import opened Wrappers
  import opened WireLayout

  /** The untyped constant procCnMCastListen, which becomes a Go int when passed as a value. */
  const PROC_CN_MCAST_LISTEN_UNTYPED: int := 1

  /** nlMsgHdrSize. */
  const NL_MSG_HDR_SIZE: nat := 0x10

  /** The values getSendMsg hands to encoding/binary. */
  datatype GoValue =
    | GoInt(i: int)
    | GoUint32(u: u32)
    | GoNlMsgHdr(h: NlMsgHdr)
    | GoCnMsg(c: CnMsg)

  /** binary.Size: the encoded size of a fixed-size value, -1 for a platform-sized int. */
  function BinarySize(v: GoValue): (n: int)
    ensures n == -1 <==> v.GoInt?
  {
    match v
    case GoInt(_) => -1
    case GoUint32(_) => U32_WIDTH
    case GoNlMsgHdr(_) => NLMSG_HDRLEN
    case GoCnMsg(_) => CN_MSG_LEN
  }

  /** The bytes binary.Write emits for a fixed-size value in binary.LittleEndian order. */
  function LittleEndianBytes(v: GoValue): (b: seq<u8>)
    requires !v.GoInt?
    ensures |b| == BinarySize(v)
  {
    match v
    case GoUint32(u) => Encode(LittleEndian, u, 4)
    case GoNlMsgHdr(h) => EncodeNlMsgHdr(LittleEndian, h)
    case GoCnMsg(c) => EncodeCnMsg(LittleEndian, c)
  }

  /**
   * binary.Write(buf, binary.LittleEndian, v): the buffer afterwards and
   * whether an error was returned.  A value that is not fixed-size is an
   * error, and nothing is written.
   */
  function BinaryWrite(buf: seq<u8>, v: GoValue): (r: (seq<u8>, bool))
    ensures r.1 <==> BinarySize(v) < 0
    ensures r.1 ==> r.0 == buf
    ensures !r.1 ==> |r.0| == |buf| + BinarySize(v) && r.0[..|buf|] == buf
  {
    if v.GoInt? then (buf, true) else (buf + LittleEndianBytes(v), false)
  }

  /** The connector header getSendMsg builds when the opcode is the value op: only ID and Len are set. */
  function SendCnMsg(op: GoValue): CnMsg
  {
    CnMsg(CbId(CN_IDX_PROC, CN_VAL_PROC), 0, 0, ToU16(BinarySize(op)), 0)
  }

  /** The envelope getSendMsg builds for sequence number s when the opcode is the value op. */
  function SendHeader(op: GoValue, s: u32, pid: u32): NlMsgHdr
  {
    var len := ToU32(NL_MSG_HDR_SIZE + ToU32(BinarySize(GoCnMsg(SendCnMsg(op))) + BinarySize(op)));
    NlMsgHdr(len, NLMSG_DONE, 0, s, pid)
  }

  /**
   * The buffer getSendMsg returns: the envelope, the connector header and
   * the opcode written one after the other, each write's error ignored.
   */
  function SendMsg(op: GoValue, s: u32, pid: u32): seq<u8>
  {
    var w1 := BinaryWrite([], GoNlMsgHdr(SendHeader(op, s, pid)));
    var w2 := BinaryWrite(w1.0, GoCnMsg(SendCnMsg(op)));
    BinaryWrite(w2.0, op).0
  }

  /**
   * As written, with an int opcode: Len is uint16(-1) = 0xFFFF, nlmsg_len
   * is 16 + (20 - 1) = 35, the opcode is never written, and the buffer is
   * the 36 bytes of the two headers, which is not a control message.
   * ID is (1, 1); Seq, Ack and Flags stay 0; the envelope carries s.
   */
  lemma SendMsgAsWritten(s: u32, pid: u32)
    ensures var b := SendMsg(GoInt(PROC_CN_MCAST_LISTEN_UNTYPED), s, pid);
      && |b| == 36 == NLC_MSG_LEN
      && DecodeNlMsgHdr(LittleEndian, b, 0) == NlMsgHdr(35, NLMSG_DONE, 0, s, pid)
      && DecodeCnMsg(LittleEndian, b, NLMSG_HDRLEN) == CnMsg(CbId(1, 1), 0, 0, 0xFFFF, 0)
      && DecodeControlMsg(LittleEndian, b) == None
  {
    var op := GoInt(PROC_CN_MCAST_LISTEN_UNTYPED);
    var h := SendHeader(op, s, pid);
    var c := SendCnMsg(op);
    assert h == NlMsgHdr(35, NLMSG_DONE, 0, s, pid);
    assert c == CnMsg(CbId(1, 1), 0, 0, 0xFFFF, 0);
    var b := SendMsg(op, s, pid);
    assert b == EncodeNlMsgHdr(LittleEndian, h) + EncodeCnMsg(LittleEndian, c);
    NlMsgHdrAt(LittleEndian, b, 0, h);
    CnMsgAt(LittleEndian, b, NLMSG_HDRLEN, c);
  }

  /** The control message getSendMsg evidently means to send for sequence number s. */
  function IntendedControlMsg(s: u32, pid: u32): ControlMsg
  {
    ControlMsg(
      NlMsgHdr(NlmsgSpace(CN_MSG_LEN + MCAST_OP_WIDTH), NLMSG_DONE, 0, s, pid),
      CnMsg(CbId(CN_IDX_PROC, CN_VAL_PROC), 0, 0, MCAST_OP_WIDTH, 0),
      PROC_CN_MCAST_LISTEN)
  }

  /**
   * With the opcode typed uint32, as connector/types.go declares it, the
   * same code builds the intended 40-byte message, and every field reads
   * back from its offset: nlmsg_len 40, Len 4 and the LISTEN opcode.
   */
  lemma IntendedSendMsgRoundTrip(s: u32, pid: u32)
    ensures SendMsg(GoUint32(PROC_CN_MCAST_LISTEN), s, pid) == EncodeControlMsg(LittleEndian, IntendedControlMsg(s, pid))
    ensures DecodeControlMsg(LittleEndian, SendMsg(GoUint32(PROC_CN_MCAST_LISTEN), s, pid))
      == Some(IntendedControlMsg(s, pid))
  {
    var op := GoUint32(PROC_CN_MCAST_LISTEN);
    assert SendHeader(op, s, pid) == IntendedControlMsg(s, pid).header;
    assert SendCnMsg(op) == IntendedControlMsg(s, pid).msg;
    ControlMsgRoundTrip(LittleEndian, IntendedControlMsg(s, pid));
  }

  /** The package-level state of main.go: `var seq uint32`. */
  class Monitor {
    var sequence: u32

    constructor ()
      ensures sequence == 0
    {
      sequence := 0;
    }

    /**
     * getSendMsg: increments seq (wrapping at 2^32) before building the
     * message and stamps the envelope with the new value.
     */
    method GetSendMsg(pid: u32) returns (msg: seq<u8>)
      modifies this
      ensures sequence == ToU32(old(sequence) + 1)
      ensures msg == SendMsg(GoInt(PROC_CN_MCAST_LISTEN_UNTYPED), sequence, pid)
      ensures |msg| == 36
      ensures DecodeNlMsgHdr(LittleEndian, msg, 0) == NlMsgHdr(35, NLMSG_DONE, 0, sequence, pid)
      ensures DecodeCnMsg(LittleEndian, msg, NLMSG_HDRLEN) == CnMsg(CbId(1, 1), 0, 0, 0xFFFF, 0)
    {
      sequence := ToU32(sequence + 1);
      var op := GoInt(PROC_CN_MCAST_LISTEN_UNTYPED);
      var d := CnMsg(CbId(CN_IDX_PROC, CN_VAL_PROC), 0, 0, ToU16(BinarySize(op)), 0);
      var h := NlMsgHdr(ToU32(NL_MSG_HDR_SIZE + ToU32(BinarySize(GoCnMsg(d)) + BinarySize(op))),
                        NLMSG_DONE, 0, sequence, pid);
      var buf: seq<u8> := [];
      var w1 := BinaryWrite(buf, GoNlMsgHdr(h));
      buf := w1.0;
      var w2 := BinaryWrite(buf, GoCnMsg(d));
      buf := w2.0;
      var w3 := BinaryWrite(buf, op);
      buf := w3.0;
      msg := buf;
      SendMsgAsWritten(sequence, pid);
    }
  }

  /** initNladdr: the source address joins group CN_IDX_PROC as pid; the destination sets only the family. */
  function InitNladdr(pid: u32): (addrs: (SockaddrNl, SockaddrNl))
  {
    (SockaddrNl(AF_NETLINK, pid, CN_IDX_PROC), SockaddrNl(AF_NETLINK, 0, 0))
  }

  /** One element of syscall.ParseNetlinkMessage's result: a header and the data after it. */
  datatype NetlinkMessage = NetlinkMessage(header: NlMsgHdr, data: seq<u8>)

  /** The data main's receive loop forwards from one parsed datagram: that of every NLMSG_DONE message. */
  function Forwarded(msgs: seq<NetlinkMessage>): (out: seq<seq<u8>>)
    ensures |out| <= |msgs|
  {
    if msgs == [] then []
    else (if msgs[0].header.typ == NLMSG_DONE then [msgs[0].data] else []) + Forwarded(msgs[1..])
  }

  /** Forwarding keeps arrival order: the forwarded data of two runs follow one another. */
  lemma {:induction false} ForwardedAppend(a: seq<NetlinkMessage>, b: seq<NetlinkMessage>)
    ensures Forwarded(a + b) == Forwarded(a) + Forwarded(b)
  {
    if a == [] {
      assert a + b == b;
    } else {
      var head := if a[0].header.typ == NLMSG_DONE then [a[0].data] else [];
      assert (a + b)[0] == a[0];
      assert (a + b)[1..] == a[1..] + b;
      assert Forwarded(a + b) == head + Forwarded(a[1..] + b);
      ForwardedAppend(a[1..], b);
      assert Forwarded(a) == head + Forwarded(a[1..]);
    }
  }

  /** Exactly the data of the NLMSG_DONE messages is forwarded. */
  lemma {:induction false} ForwardedExactly(msgs: seq<NetlinkMessage>, x: seq<u8>)
    ensures x in Forwarded(msgs) <==>
      exists i | 0 <= i < |msgs| :: msgs[i].header.typ == NLMSG_DONE && msgs[i].data == x
  {
    if msgs != [] {
      ForwardedExactly(msgs[1..], x);
      if x in Forwarded(msgs[1..]) {
        var i :| 0 <= i < |msgs[1..]| && msgs[1..][i].header.typ == NLMSG_DONE && msgs[1..][i].data == x;
        assert msgs[i + 1] == msgs[1..][i];
      }
      if exists i | 0 <= i < |msgs| :: msgs[i].header.typ == NLMSG_DONE && msgs[i].data == x {
        var i :| 0 <= i < |msgs| && msgs[i].header.typ == NLMSG_DONE && msgs[i].data == x;
        if i > 0 {
          assert msgs[1..][i - 1] == msgs[i];
        }
      }
    }
  }

  /** When every message is NLMSG_DONE, all of their data is forwarded, in order. */
  lemma {:induction false} ForwardedAllDone(msgs: seq<NetlinkMessage>, i: nat)
    requires forall j | 0 <= j < |msgs| :: msgs[j].header.typ == NLMSG_DONE
    requires i < |msgs|
    ensures |Forwarded(msgs)| == |msgs| && Forwarded(msgs)[i] == msgs[i].data
  {
    if i == 0 {
      if |msgs| > 1 {
        ForwardedAllDone(msgs[1..], 0);
      }
    } else {
      ForwardedAllDone(msgs[1..], i - 1);
    }
  }
}
