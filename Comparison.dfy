/**
 * The two clients side by side: the C program (connector/connector.c) and
 * the Go program (main.go) talk to the same kernel connector, so they bind
 * the same address and send the same registration request, up to the
 * differences stated here.
 */
module Comparison {

  import opened Bytes
  import opened Wrappers
  import opened WireLayout
  import CConnector
  import GoMonitor

  /**
   * Both clients bind AF_NETLINK with their own pid and group CN_IDX_PROC;
   * the Go client's destination is the kernel (pid 0, no groups).
   */
  lemma BindAddressesAgree(pid: u32)
    ensures GoMonitor.InitNladdr(pid).0 == CConnector.BindAddress(pid)
    ensures GoMonitor.InitNladdr(pid).1 == SockaddrNl(AF_NETLINK, 0, 0)
  {
  }

  /**
   * The first registration each client sends: C's counter starts at 0 and
   * is read before it is advanced, Go's starts at 0 and is advanced first,
   * so the envelope of C's first frame carries 0 and Go's carries 1.  C's
   * frame is the full 40-byte control message; Go's is 36 bytes.
   */
  method FirstRegistrations(host: ByteOrder, pid: u32)
    returns (cSequence: nat, goSequence: nat, cLength: nat, goLength: nat)
    ensures cSequence == 0 && goSequence == 1
    ensures cLength == CONTROL_MSG_LEN && goLength == CONTROL_MSG_LEN - MCAST_OP_WIDTH
  {
    var c := new CConnector.Connector();
    var ret, cFrame := c.ControlEventListening(host, pid, PROC_CN_MCAST_LISTEN, 0);
    var m := new GoMonitor.Monitor();
    var goFrame := m.GetSendMsg(pid);
    CConnector.ControlFrameFields(host, 0, pid, PROC_CN_MCAST_LISTEN);
    cSequence := DecodeControlMsg(host, cFrame).value.header.sequence;
    goSequence := DecodeNlMsgHdr(LittleEndian, goFrame, 0).sequence;
    cLength := |cFrame|;
    goLength := |goFrame|;
  }

  /**
   * With the opcode typed uint32, the Go message is the C frame of a
   * little-endian host for the same sequence number, except that the
   * connector header's seq stays 0 where C copies the counter into it.
   */
  lemma IntendedGoFrameIsCFrame(s: u32, pid: u32)
    ensures GoMonitor.SendMsg(GoMonitor.GoUint32(PROC_CN_MCAST_LISTEN), s, pid)
      == EncodeControlMsg(LittleEndian, CConnector.ControlMessage(s, pid, PROC_CN_MCAST_LISTEN).(
           msg := CConnector.ControlMessage(s, pid, PROC_CN_MCAST_LISTEN).msg.(sequence := 0)))
    ensures s == 0 ==>
      GoMonitor.SendMsg(GoMonitor.GoUint32(PROC_CN_MCAST_LISTEN), s, pid)
        == EncodeControlMsg(LittleEndian, CConnector.ControlMessage(s, pid, PROC_CN_MCAST_LISTEN))
  {
    GoMonitor.IntendedSendMsgRoundTrip(s, pid);
  }
}
