/**
 * The C client of the process-events connector (connector/connector.c).
 *
 * The program binds a NETLINK_CONNECTOR socket to the process-events group,
 * sends one PROC_CN_MCAST_LISTEN control message, and then prints one
 * event per received datagram until a receive fails.  Socket calls are
 * not modelled; their results (the descriptor, bind's status, send's and
 * recv's byte counts and the received bytes) are parameters.  The C code
 * builds its frames by overlaying structs on one another and writes past
 * their ends; the model builds the bytes it evidently means to send and
 * states the overruns separately (ControlOverlayAccesses).
 */
module CConnector {

  import opened Bytes
  import opened Wrappers
  import opened WireLayout

  const INT_MAX: int := 0x7fff_ffff

  /** sizeof(struct cn_msg), sizeof(enum proc_cn_mcast_op), sizeof(struct proc_event). */
  const CNMSG_LEN: nat := CNMSG_WIDTH
  const CNMCASTOP_LEN: nat := MCAST_OP_WIDTH
  const PROCEVENT_LEN: nat := PROC_HEADER_WIDTH + PROC_UNION_WIDTH

  /** The receive buffer length of handle_received_event: NLMSG_SPACE(CNMSG_LEN + PROCEVENT_LEN). */
  const RECV_LEN: nat := NlmsgSpace(CNMSG_LEN + PROCEVENT_LEN)

  // ---------------------------------------------------------------------
  // create_connect
  // ---------------------------------------------------------------------

  /** The local address create_connect binds: the process-events group mask 1 and the caller's pid. */
  function BindAddress(pid: u32): (a: SockaddrNl)
    ensures a.family == AF_NETLINK && a.groups == 1 && a.pid == pid
  {
    SockaddrNl(AF_NETLINK, pid, 1)
  }

  /**
   * create_connect: the descriptor on success, -1 when socket or bind
   * fails.  `bound` is the address handed to bind (None when socket failed
   * first) and `closed` says whether the socket was closed again.
   */
  method CreateConnect(pid: u32, socketRet: int, bindRet: int)
    returns (s: int, bound: Option<SockaddrNl>, closed: bool)
    requires socketRet >= -1
    ensures s == -1 <==> socketRet == -1 || bindRet != 0
    ensures s != -1 ==> s == socketRet
    ensures bound == if socketRet == -1 then None else Some(BindAddress(pid))
    ensures closed <==> socketRet != -1 && bindRet != 0
  {
    bound, closed := None, false;
    s := socketRet;
    if s == -1 {
      return;
    }
    var local := SockaddrNl(AF_NETLINK, 0, 0);
    local := local.(groups := 1);
    local := local.(pid := pid);
    bound := Some(local);
    if bindRet != 0 {
      closed := true;
      s := -1;
    }
  }

  // ---------------------------------------------------------------------
  // control_event_listenning
  // ---------------------------------------------------------------------

  /**
   * The control message control_event_listenning sends for sequence
   * number s: the envelope and the connector header both carry s.
   */
  function ControlMessage(s: u32, pid: u32, op: u32): ControlMsg
  {
    ControlMsg(
      NlMsgHdr(NlmsgSpace(CNMSG_LEN + CNMCASTOP_LEN), NLMSG_DONE, 0, s, pid),
      CnMsg(CbId(CN_IDX_PROC, CN_VAL_PROC), s, 0, CNMCASTOP_LEN, 0),
      op)
  }

  /**
   * The frame of a control message reads back, at the fixed offsets, as:
   * a 40-byte message (16 + 20 + 4 = NLMSG_SPACE(CNMSG_LEN + CNMCASTOP_LEN))
   * whose nlmsg_len is that length, type NLMSG_DONE, flags 0, the sequence
   * number in both headers, the caller's pid, connector id (1, 1), payload
   * length 4, ack and flags 0, and the opcode as payload.
   */
  lemma ControlFrameFields(host: ByteOrder, s: u32, pid: u32, op: u32)
    ensures var b := EncodeControlMsg(host, ControlMessage(s, pid, op));
      && |b| == 40 == NLMSGHDR_WIDTH + CNMSG_LEN + CNMCASTOP_LEN
      && DecodeControlMsg(host, b).Some?
      && var m := DecodeControlMsg(host, b).value;
      && m.header == NlMsgHdr(|b|, NLMSG_DONE, 0, s, pid)
      && m.msg == CnMsg(CbId(1, 1), s, 0, 4, 0)
      && m.op == op
  {
    ControlMsgRoundTrip(host, ControlMessage(s, pid, op));
  }

  /** One memory access of the C code: an object of some size, touched at an offset for a length. */
  datatype Access = Access(objectSize: nat, offset: nat, length: nat)

  predicate InBounds(a: Access)
  {
    a.offset + a.length <= a.objectSize
  }

  /**
   * The accesses control_event_listenning makes through its 16-byte
   * nlmsghdr and 20-byte cn_msg locals, as written: memset(&nlh, 0, msg_len),
   * memset(&cn, CNMSG_LEN, 0) (arguments swapped), the store of the opcode
   * at cn.data, both sides of memcpy(NLMSG_DATA(&nlh), &cn, CNMSG_LEN + cn.len),
   * and send(sd, &nlh, nlh.nlmsg_len, 0).
   */
  function ControlOverlayAccesses(): seq<Access>
  {
    var msgLen := NlmsgSpace(CNMSG_LEN + CNMCASTOP_LEN);
    [ Access(NLMSGHDR_WIDTH, 0, msgLen),
      Access(CNMSG_LEN, 0, 0),
      Access(CNMSG_LEN, CNMSG_LEN, CNMCASTOP_LEN),
      Access(NLMSGHDR_WIDTH, NLMSG_HDRLEN, CNMSG_LEN + CNMCASTOP_LEN),
      Access(CNMSG_LEN, 0, CNMSG_LEN + CNMCASTOP_LEN),
      Access(NLMSGHDR_WIDTH, 0, msgLen) ]
  }

  /**
   * Every access of control_event_listenning that touches any byte runs
   * past the end of its object; the one that stays inside (the swapped
   * memset) touches nothing.
   */
  lemma ControlOverlayOverruns()
    ensures forall a | a in ControlOverlayAccesses() :: a.length > 0 <==> !InBounds(a)
    ensures exists a | a in ControlOverlayAccesses() :: a.length == 0
  {
    assert ControlOverlayAccesses()[1].length == 0;
  }

  // ---------------------------------------------------------------------
  // handle_received_event
  // ---------------------------------------------------------------------

  /** What handle_received_event prints for one datagram. */
  datatype Report =
    | ExecReport(timestampNs: u64, pid: u32, tgid: u32)
    | ExitReport(timestampNs: u64, pid: u32, tgid: u32, exitCode: u32)
    | OtherReport(what: u32)
    | TruncatedReport(length: nat)

  /** The return value of handle_received_event and the report it printed, if any. */
  datatype Handled = Handled(ret: int, report: Option<Report>)

  /** The `what` field of a datagram's proc_event header. */
  function What(host: ByteOrder, d: seq<u8>): u32
    requires NLC_MSG_LEN + U32_WIDTH <= |d|
  {
    ReadUint(host, d, NLC_MSG_LEN, 4)
  }

  /**
   * Every byte handle_received_event reads lies inside the datagram: the
   * `what` field always; the timestamp and (pid, tgid) for EXEC; those and
   * the exit code for EXIT.
   */
  predicate ReadsWithin(host: ByteOrder, d: seq<u8>)
  {
    && NLC_MSG_LEN + U32_WIDTH <= |d|
    && (What(host, d) == PROC_EVENT_EXEC ==> PAYLOAD_OFFSET + PID_TGID_WIDTH <= |d|)
    && (What(host, d) == PROC_EVENT_EXIT ==> PAYLOAD_OFFSET + PID_TGID_WIDTH + U32_WIDTH <= |d|)
  }

  /**
   * handle_received_event after recv(2) returned ret and delivered the
   * bytes d.  The code never checks the length, so the model requires that
   * every byte it reads was received (see HandleReceivedEventChecked).
   */
  function HandleReceivedEvent(host: ByteOrder, ret: int, d: seq<u8>): (h: Handled)
    requires ret >= -1
    requires ret > 0 ==> ret == |d| && ReadsWithin(host, d)
    ensures h.ret == (if ret == -1 then -1 else 0)
    ensures h.report.Some? <==> ret > 0
    ensures h.report.Some? ==> !h.report.value.TruncatedReport?
    ensures ret > 0 ==>
      && (h.report.value.ExecReport? <==> What(host, d) == PROC_EVENT_EXEC)
      && (h.report.value.ExitReport? <==> What(host, d) == PROC_EVENT_EXIT)
      && (h.report.value.OtherReport? ==> h.report.value.what == What(host, d))
    ensures ret > 0 && KindOf(What(host, d)).None? ==> h.report == Some(OtherReport(What(host, d)))
  {
    if ret == 0 then Handled(0, None)
    else if ret == -1 then Handled(-1, None)
    else
      var what := What(host, d);
      if what == PROC_EVENT_EXEC then
        var p := DecodePidAndTgid(host, d, PAYLOAD_OFFSET);
        Handled(0, Some(ExecReport(ReadUint(host, d, NLC_MSG_LEN + 8, 8), p.pid, p.tgid)))
      else if what == PROC_EVENT_EXIT then
        var p := DecodePidAndTgid(host, d, PAYLOAD_OFFSET);
        Handled(0, Some(ExitReport(ReadUint(host, d, NLC_MSG_LEN + 8, 8), p.pid, p.tgid,
                                   ReadUint(host, d, PAYLOAD_OFFSET + PID_TGID_WIDTH, 4))))
      else
        Handled(0, Some(OtherReport(what)))
  }

  /** The report an event message calls for, read off its typed fields. */
  function ReportOf(m: EventMsg): Report
  {
    match m.data
    case ExecProc(p) => ExecReport(m.event.timestampNs, p.pid, p.tgid)
    case ExitProc(p, code, _, _) => ExitReport(m.event.timestampNs, p.pid, p.tgid, code)
    case _ => OtherReport(m.event.what)
  }

  /**
   * Receiving a whole event message as the kernel encodes it, the decoder
   * reads only received bytes and prints exactly the report the message
   * calls for: (time, pid, tgid) for EXEC, with the exit code for EXIT,
   * and the raw `what` for any other kind; it returns 0 in all cases.
   */
  lemma HandlesKernelEvent(host: ByteOrder, m: EventMsg)
    requires WellFormedEvent(m)
    ensures ReadsWithin(host, EncodeEventMsg(host, m))
    ensures var d := EncodeEventMsg(host, m);
      HandleReceivedEvent(host, |d|, d) == Handled(0, Some(ReportOf(m)))
  {
    EventMsgFields(host, m);
    var k := KindOf(m.event.what).value;
    KindOfValue(k);
  }

  /** A field that lies within the first n bytes of a buffer reads the same from that prefix. */
  lemma ReadWithinPrefix(host: ByteOrder, b: seq<u8>, n: nat, off: nat, w: nat)
    requires off + w <= n <= |b|
    ensures ReadUint(host, b[..n], off, w) == ReadUint(host, b, off, w)
  {
    assert b[..n][off..off + w] == b[off..off + w];
  }

  /**
   * A kernel event cut short by the receive still yields the message's
   * report, as long as every field the handler reads arrived: the bytes
   * past the last field read play no part.
   */
  lemma HandlesKernelEventPrefix(host: ByteOrder, m: EventMsg, n: nat)
    requires WellFormedEvent(m)
    requires 0 < n <= EVENT_MSG_LEN
    requires ReadsWithin(host, EncodeEventMsg(host, m)[..n])
    ensures HandleReceivedEvent(host, n, EncodeEventMsg(host, m)[..n]) == Handled(0, Some(ReportOf(m)))
  {
    var b := EncodeEventMsg(host, m);
    var d := b[..n];
    HandlesKernelEvent(host, m);
    ReadWithinPrefix(host, b, n, NLC_MSG_LEN, U32_WIDTH);
    assert What(host, d) == What(host, b);
    if What(host, d) == PROC_EVENT_EXEC || What(host, d) == PROC_EVENT_EXIT {
      ReadWithinPrefix(host, b, n, NLC_MSG_LEN + 8, U64_WIDTH);
      ReadWithinPrefix(host, b, n, PAYLOAD_OFFSET, U32_WIDTH);
      ReadWithinPrefix(host, b, n, PAYLOAD_OFFSET + 4, U32_WIDTH);
      assert DecodePidAndTgid(host, d, PAYLOAD_OFFSET) == DecodePidAndTgid(host, b, PAYLOAD_OFFSET);
      if What(host, d) == PROC_EVENT_EXIT {
        ReadWithinPrefix(host, b, n, PAYLOAD_OFFSET + PID_TGID_WIDTH, U32_WIDTH);
      }
    }
  }

  /** The byte count memcpy receives for `ret - NLMSG_HDRLEN`, converted to a 64-bit size_t. */
  function CopyLength(ret: int): (n: nat)
    ensures n < 0x1_0000_0000_0000_0000
  {
    (ret - NLMSG_HDRLEN) % 0x1_0000_0000_0000_0000
  }

  /**
   * As written, a positive receive shorter than the envelope makes memcpy
   * copy nearly 2^64 bytes, and a whole event copies 60 bytes into the
   * 20-byte cn_msg.
   */
  lemma ReceiveCopyOverruns(ret: int)
    requires 0 < ret < NLMSG_HDRLEN
    ensures CopyLength(ret) >= 0x1_0000_0000_0000_0000 - NLMSG_HDRLEN
    ensures CopyLength(ret) > RECV_LEN
    ensures CopyLength(RECV_LEN) == NLC_MSG_LEN + PROC_EVENT_LEN - NLMSG_HDRLEN > CNMSG_LEN
  {
  }

  /**
   * handle_received_event with the length check the code lacks: a
   * datagram too short for the fields the kind needs is reported as
   * truncated instead of being read past its end.
   */
  function HandleReceivedEventChecked(host: ByteOrder, ret: int, d: seq<u8>): (h: Handled)
    requires ret >= -1
    requires ret >= 0 ==> ret == |d|
    ensures ret <= 0 || ReadsWithin(host, d) ==> h == HandleReceivedEvent(host, ret, d)
    ensures ret > 0 && !ReadsWithin(host, d) ==> h == Handled(0, Some(TruncatedReport(ret)))
    ensures h.ret == (if ret == -1 then -1 else 0)
  {
    if ret > 0 && !ReadsWithin(host, d) then Handled(0, Some(TruncatedReport(ret)))
    else HandleReceivedEvent(host, ret, d)
  }

  // ---------------------------------------------------------------------
  // main's receive loop
  // ---------------------------------------------------------------------

  /** One recv(2) outcome: its return value and the bytes it delivered. */
  datatype Received = Received(ret: int, bytes: seq<u8>)

  predicate ValidReceive(r: Received)
  {
    r.ret >= -1 && (r.ret >= 0 ==> r.ret == |r.bytes|) && |r.bytes| <= RECV_LEN
  }

  /** The reports printed for a run of receives, in arrival order. */
  function ReportsOf(host: ByteOrder, rs: seq<Received>): (reports: seq<Report>)
    requires forall i | 0 <= i < |rs| :: ValidReceive(rs[i])
    ensures |reports| <= |rs|
  {
    if rs == [] then []
    else
      assert ValidReceive(rs[0]);
      var h := HandleReceivedEventChecked(host, rs[0].ret, rs[0].bytes);
      (if h.report.Some? then [h.report.value] else []) + ReportsOf(host, rs[1..])
  }

  /** Reports of consecutive runs of receives follow one another. */
  lemma {:induction false} ReportsOfAppend(host: ByteOrder, a: seq<Received>, b: seq<Received>)
    requires forall i | 0 <= i < |a| :: ValidReceive(a[i])
    requires forall i | 0 <= i < |b| :: ValidReceive(b[i])
    ensures forall i | 0 <= i < |a + b| :: ValidReceive((a + b)[i])
    ensures ReportsOf(host, a + b) == ReportsOf(host, a) + ReportsOf(host, b)
  {
    if a == [] {
      assert a + b == b;
    } else {
      assert (a + b)[0] == a[0];
      assert (a + b)[1..] == a[1..] + b;
      ReportsOfAppend(host, a[1..], b);
      var h := HandleReceivedEventChecked(host, a[0].ret, a[0].bytes);
      var first := if h.report.Some? then [h.report.value] else [];
      assert ReportsOf(host, a + b) == first + ReportsOf(host, a[1..] + b);
      assert ReportsOf(host, a) == first + ReportsOf(host, a[1..]);
    }
  }

  /** When every receive delivered bytes, the i-th report is the i-th datagram's. */
  lemma {:induction false} ReportsOfDatagrams(host: ByteOrder, rs: seq<Received>, i: nat)
    requires forall j | 0 <= j < |rs| :: ValidReceive(rs[j]) && rs[j].ret > 0
    requires i < |rs|
    ensures |ReportsOf(host, rs)| == |rs|
    ensures Some(ReportsOf(host, rs)[i]) == HandleReceivedEventChecked(host, rs[i].ret, rs[i].bytes).report
  {
    if i == 0 {
      if |rs| > 1 {
        ReportsOfDatagrams(host, rs[1..], 0);
      }
    } else {
      ReportsOfDatagrams(host, rs[1..], i - 1);
    }
  }

  /** The position of the first failed receive, if any. */
  function FirstFailure(rs: seq<Received>): (k: Option<nat>)
    ensures k.Some? ==> k.value < |rs| && rs[k.value].ret == -1
    ensures k.Some? ==> forall j | 0 <= j < k.value :: rs[j].ret != -1
    ensures k.None? ==> forall j | 0 <= j < |rs| :: rs[j].ret != -1
  {
    if rs == [] then None
    else if rs[0].ret == -1 then Some(0)
    else match FirstFailure(rs[1..])
      case None => None
      case Some(k) => Some(k + 1)
  }

  /**
   * main's `while (1)` loop over a finite run of receive outcomes: one
   * report per datagram, in arrival order, until the first failed receive
   * ends the loop.
   */
  method EventLoop(host: ByteOrder, rs: seq<Received>) returns (failed: bool, reports: seq<Report>)
    requires forall i | 0 <= i < |rs| :: ValidReceive(rs[i])
    ensures failed <==> FirstFailure(rs).Some?
    ensures reports == match FirstFailure(rs)
      case Some(k) => ReportsOf(host, rs[..k])
      case None => ReportsOf(host, rs)
  {
    reports := [];
    var i := 0;
    while i < |rs|
      invariant 0 <= i <= |rs|
      invariant forall j | 0 <= j < i :: rs[j].ret != -1
      invariant reports == ReportsOf(host, rs[..i])
    {
      var h := HandleReceivedEventChecked(host, rs[i].ret, rs[i].bytes);
      if h.ret == -1 {
        FirstFailureAt(rs, i);
        return true, reports;
      }
      ReportsOfAppend(host, rs[..i], [rs[i]]);
      assert rs[..i + 1] == rs[..i] + [rs[i]];
      if h.report.Some? {
        reports := reports + [h.report.value];
      }
      i := i + 1;
    }
    assert rs[..i] == rs;
    return false, reports;
  }

  /** A failed receive preceded only by successful ones is the first failure. */
  lemma {:induction false} FirstFailureAt(rs: seq<Received>, k: nat)
    requires k < |rs| && rs[k].ret == -1
    requires forall j | 0 <= j < k :: rs[j].ret != -1
    ensures FirstFailure(rs) == Some(k)
  {
    if k > 0 {
      FirstFailureAt(rs[1..], k - 1);
    }
  }

  /** How main ends: with its return value, or still waiting for the next datagram. */
  datatype MainOutcome =
    | Exited(code: int, sent: seq<seq<u8>>, reports: seq<Report>)
    | Receiving(sent: seq<seq<u8>>, reports: seq<Report>)

  /** The program's global state: `int seq`, the sequence counter of control messages. */
  class Connector {
    var sequence: int

    ghost predicate Valid()
      reads this
    {
      0 <= sequence <= INT_MAX
    }

    /** `int seq = 0;` */
    constructor ()
      ensures Valid() && sequence == 0
    {
      sequence := 0;
    }

    /**
     * control_event_listenning(sd, op): builds the frame for the counter's
     * value on entry, advances the counter by one whatever send returns,
     * and returns send's result.  sendRet is what send(2) returned.
     */
    method ControlEventListening(host: ByteOrder, pid: u32, op: u32, sendRet: int)
      returns (ret: int, frame: seq<u8>)
      requires Valid() && sequence < INT_MAX
      requires sendRet >= -1
      modifies this
      ensures Valid() && sequence == old(sequence) + 1
      ensures frame == EncodeControlMsg(host, ControlMessage(old(sequence), pid, op))
      ensures ret == sendRet
    {
      var msgLen := NlmsgSpace(CNMSG_LEN + CNMCASTOP_LEN);
      var nlh := NlMsgHdr(0, 0, 0, 0, 0);
      nlh := nlh.(len := msgLen);
      nlh := nlh.(typ := NLMSG_DONE);
      nlh := nlh.(flags := 0);
      nlh := nlh.(sequence := sequence);
      nlh := nlh.(pid := pid);

      var cn := CnMsg(CbId(0, 0), 0, 0, 0, 0);
      cn := cn.(id := CbId(CN_IDX_PROC, CN_VAL_PROC));
      cn := cn.(len := CNMCASTOP_LEN);
      cn := cn.(sequence := sequence);
      sequence := sequence + 1;
      cn := cn.(ack := 0);

      frame := EncodeNlMsgHdr(host, nlh) + EncodeCnMsg(host, cn) + Encode(host, op, CNMCASTOP_LEN);
      ret := sendRet;
    }


    /**
     * main: connect, register with PROC_CN_MCAST_LISTEN, then handle one
     * datagram per receive until a receive fails.  rs is the finite run of
     * receive outcomes the kernel delivers; the real loop never ends on
     * its own, so a run without a failure leaves main receiving.
     */
    method RunMain(host: ByteOrder, pid: u32, socketRet: int, bindRet: int, sendRet: int, rs: seq<Received>)
      returns (out: MainOutcome)
      requires Valid() && sequence < INT_MAX
      requires socketRet >= -1 && sendRet >= -1
      requires forall i | 0 <= i < |rs| :: ValidReceive(rs[i])
      modifies this
      ensures Valid()
      ensures socketRet == -1 || bindRet != 0 ==> out == Exited(-1, [], []) && sequence == old(sequence)
      ensures socketRet != -1 && bindRet == 0 ==>
        && sequence == old(sequence) + 1
        && out.sent == [EncodeControlMsg(host, ControlMessage(old(sequence), pid, PROC_CN_MCAST_LISTEN))]
      ensures socketRet != -1 && bindRet == 0 && sendRet == -1 ==> out.Exited? && out.code == -1 && out.reports == []
      ensures socketRet != -1 && bindRet == 0 && sendRet != -1 ==>
        match FirstFailure(rs)
        case Some(k) => out.Exited? && out.code == -1 && out.reports == ReportsOf(host, rs[..k])
        case None => out.Receiving? && out.reports == ReportsOf(host, rs)
    {
      var sd, bound, closed := CreateConnect(pid, socketRet, bindRet);
      if sd == -1 {
        return Exited(-1, [], []);
      }
      var ret, frame := ControlEventListening(host, pid, PROC_CN_MCAST_LISTEN, sendRet);
      if ret == -1 {
        return Exited(-1, [frame], []);
      }
      var failed, reports := EventLoop(host, rs);
      if failed {
        return Exited(-1, [frame], reports);
      }
      out := Receiving([frame], reports);
    }
  }
}
