# netlink-monitor: a Dafny model of the process-events connector clients

netlink-monitor listens to the Linux process-events connector. This is netlink over `NETLINK_CONNECTOR`, using the `CN_IDX_PROC`/`CN_VAL_PROC` channel and the `cn_proc` event records. The repository has two clients:

- `connector/connector.c` binds a netlink socket and sends a "start listening" control message. It then decodes one `proc_event` per received datagram, reporting exec and exit events.
- `main.go` binds the same socket and builds the control message with `encoding/binary`. It then forwards the data of every parsed `NLMSG_DONE` message.

`connector/types.go` gives the event kinds, the opcodes, the `*_LEN` constants and the header and payload layouts. `tools/binary.go` probes the host byte order once at start-up.

The model is split into modules:

- **`Bytes`** holds fixed-width unsigned integers and their little- and big-endian encodings, with both round trips.
- **`WireLayout`** holds the netlink macros (`NLMSG_ALIGN`, `NLMSG_HDRLEN`, `NLMSG_SPACE`), the constants and records of `types.go` (as datatypes with widths), and the event-kind bit set. It also has:
  - the encoders and decoders at fixed offsets;
  - the 40-byte control message with its exact round trip;
  - the 76-byte event message, whose every field reads back.
- **`ByteOrderProbe`** is the `tools` byte-order probe. It takes the host's order and the width of Go's `int` as parameters. A class holds the package variable `Order`; `init` assigns it while it is still unset, and nothing else assigns it.
- **`CConnector`** models the C program:
  - `create_connect`.
  - `control_event_listenning`: a class holding the global `seq`, with a method that builds the explicit 40-byte frame.
  - `handle_received_event`: a pure function of the receive result and the bytes received.
  - `main`: a method that runs the receive loop over a finite run of receive outcomes.
- **`GoMonitor`** models `main.go`:
  - the `binary.Size`/`binary.Write` semantics;
  - a class holding the package `seq`, with `getSendMsg`;
  - `initNladdr`;
  - the `NLMSG_DONE` filter of the receive loop.
- **`Comparison`** relates the two clients: the same bind address, the first sequence number each sends, and the frames they build.

The kernel is outside the model. The results of `socket`, `bind`, `send` and `recv` are parameters, and so are the received bytes, the process id, the host byte order and the width of Go's `int`.

## Model

| member | source | states |
|---|---|---|
| Bytes.DecodeEncode | main.go:109-111 | reading back the little- (or big-) endian bytes of a value that fits in w bytes gives the value |
| Bytes.EncodeDecode | main.go:109-111 | re-encoding the value read from any byte string gives the same bytes, so the encoding is onto |
| Bytes.ReadEncodedAt | connector/types.go:43-56 | a field stored at a fixed offset of a larger buffer reads back from that offset |
| WireLayout.NlmsgAlign | connector/connector.c:54 | NLMSG_ALIGN rounds up to the next multiple of 4 and adds less than 4 |
| WireLayout.NlmsgSpace | connector/connector.c:54 | NLMSG_SPACE is 4-aligned and at most 3 bytes longer than header plus payload |
| WireLayout.KindOf | connector/types.go:21-33 | a `what` value names a kind only when that kind's value equals it |
| WireLayout.KindOfValue | connector/types.go:21-33 | every kind is recovered from its value, so the ten values are distinct |
| WireLayout.BitIsKindValue | connector/types.go:21-33 | the 32-bit word used for bit-set reasoning about a kind is that kind's `what` value |
| WireLayout.KindsAreSingleBits | connector/types.go:18-33 | NONE is 0, and every other kind is a single bit |
| WireLayout.CoredumpAndExitAreTopBits | connector/types.go:29-33 | EXIT is bit 31 ("last"), COREDUMP bit 30 ("next to last"), and every other kind lies below 0x400, the "next" value |
| WireLayout.KindBitsDisjoint | connector/types.go:18-33 | two distinct kinds share no bit |
| WireLayout.KindMaskMembership | connector/types.go:18-20 | when kinds are OR-ed into a set, a kind other than NONE is in the set iff its bit is set |
| WireLayout.LengthConstantsMatchWidths | connector/types.go:35-38 | CN_MSG_LEN = 20 = 4+4+4+4+2+2; NLC_MSG_LEN = 16 + 20 = 36; PROC_HDR_LEN = 16 = 4+4+8; PROC_EVENT_LEN = header + 24-byte union |
| WireLayout.EncodeNlConnectorMsg | connector/types.go:58-79 | envelope then connector header is NLC_MSG_LEN = 16 + 20 bytes, and both headers read back from offsets 0 and 16 (the plain and packed structs share this one layout, which every event message begins with) |
| WireLayout.EncodeProcEventHeader | connector/types.go:82-86 | the proc_event header is PROC_HDR_LEN bytes |
| WireLayout.EncodePayload | connector/types.go:88-130 | each payload's bytes have the record's width |
| WireLayout.PayloadWidths | connector/types.go:88-130 | fork 16, exec 8, id 16, sid 8, ptrace 16, comm 24, coredump 16, exit 24, ack 4 bytes |
| WireLayout.PayloadsFitEventUnion | connector/types.go:37-38 | every payload fits in PROC_EVENT_LEN - PROC_HDR_LEN = 24 bytes, and exactly comm and exit fill it |
| WireLayout.NlMsgHdrAt | main.go:63-69 | an encoded nlmsghdr reads back field by field from its offset |
| WireLayout.CnMsgAt | connector/types.go:49-56 | an encoded cn_msg reads back field by field from its offset |
| WireLayout.ProcEventHeaderAt | connector/types.go:82-86 | an encoded proc_event header (what, cpu, timestamp) reads back from its offset |
| WireLayout.PidAndTgidAt | connector/types.go:88-90 | an encoded (pid, tgid) pair reads back from its offset |
| WireLayout.DecodePayload | connector/types.go:92-130 | the payload read for a kind always has the shape that kind announces |
| WireLayout.PayloadAt | connector/types.go:92-130 | a payload of the announced shape, encoded at an offset, reads back unchanged |
| WireLayout.EncodeControlMsg | connector/connector.c:54 | a control message is NLMSG_SPACE(CNMSG_LEN + CNMCASTOP_LEN) = 40 bytes |
| WireLayout.ControlMsgRoundTrip | connector/connector.c:54-71 | decoding an encoded control message gives back the same header, connector header and opcode |
| WireLayout.ControlMsgDecodeExact | connector/connector.c:54-71 | every byte string that decodes as a control message is the encoding of what it decodes to |
| WireLayout.EncodeEventMsg | connector/connector.c:90 | an event message is NLMSG_SPACE(CNMSG_LEN + PROCEVENT_LEN) = 76 bytes |
| WireLayout.EventMsgFields | connector/connector.c:105-106 | in a well-formed event message the envelope, cn_msg, proc_event header (at 36) and payload (at 52) all read back |
| ByteOrderProbe.FirstProbeByte | tools/binary.go:11-12 | first in-memory byte of 0x1001: 0x01 on a little-endian host; on a big-endian host 0x10 for a 2-byte integer and 0x00 for anything wider |
| ByteOrderProbe.ProbeBigEndianOnlyForTwoBytes | tools/binary.go:11-16 | the probe picks BigEndian iff the host is big-endian and the integer is exactly 2 bytes wide |
| ByteOrderProbe.ProbeOnLittleEndianHost | tools/binary.go:11-15 | on a little-endian host the first byte is 0x01 and the probe picks LittleEndian |
| ByteOrderProbe.ProbeWithGoInt | tools/binary.go:11-12 | with Go's 4- or 8-byte int the probe picks LittleEndian on either host; on a big-endian host the byte it reads is 0x00 |
| ByteOrderProbe.IntendedProbeOrder | tools/binary.go:10-17 | testing the first byte for the low byte 0x01 gives the host's order for every integer width of 2 or more |
| ByteOrderProbe.Tools.constructor | tools/binary.go:8 | `Order` starts unset |
| ByteOrderProbe.Tools.Init | tools/binary.go:10-17 | init, run once on an unset `Order`, assigns it the probe's answer, which with Go's int is LittleEndian |
| CConnector.BindAddress | connector/connector.c:32-34 | the bind address is AF_NETLINK, group 1, the caller's pid |
| CConnector.CreateConnect | connector/connector.c:18-43 | returns -1 iff socket fails or bind fails, and otherwise the socket; binds the address above; closes the socket exactly when bind fails |
| CConnector.ControlFrameFields | connector/connector.c:54-69 | the frame is 40 = 16+20+4 bytes; it reads back as nlmsg_len 40, NLMSG_DONE, flags 0, seq in both headers, the pid, id (1,1), len 4, ack and flags 0, and the opcode |
| CConnector.ControlOverlayOverruns | connector/connector.c:55-73 | of the six accesses to `nlh` and `cn`, each writes or reads outside its object exactly when it touches any byte; only the swapped memset is in bounds, because it touches none |
| CConnector.Connector.constructor | connector/connector.c:15 | the global seq starts at 0 |
| CConnector.Connector.ControlEventListening | connector/connector.c:46-79 | sends the 40-byte frame for the counter's value on entry; the counter rises by exactly 1 whatever send returns; returns send's result |
| CConnector.HandleReceivedEvent | connector/connector.c:82-127 | returns -1 when recv fails and 0 otherwise; a report exists exactly when bytes arrived; it is an exec report iff `what` is EXEC and an exit report iff `what` is EXIT; any other report carries the raw `what`, and a `what` outside the ten kinds is always reported raw (contents of exec and exit reports: HandlesKernelEvent, HandlesKernelEventPrefix) |
| CConnector.HandlesKernelEvent | connector/connector.c:105-126 | for every well-formed event message the kernel sends, the handler returns 0 with that message's report |
| CConnector.HandlesKernelEventPrefix | connector/connector.c:105-126 | a kernel event cut short by the receive still gives that message's report, as long as every field the handler reads arrived |
| CConnector.ReceiveCopyOverruns | connector/connector.c:105 | for 0 < ret < 16 the copy length `ret - NLMSG_HDRLEN`, as a size_t, is at least 2^64 - 16; even a full datagram copies 60 bytes into the 20-byte `cn` |
| CConnector.HandleReceivedEventChecked | connector/connector.c:93-126 | agrees with the handler on every datagram long enough to read, and reports a truncated datagram instead of reading past it |
| CConnector.ReportsOf | connector/connector.c:151-160 | the loop reports at most one event per datagram |
| CConnector.ReportsOfAppend | connector/connector.c:151-160 | reports of consecutive runs of datagrams follow one another in arrival order |
| CConnector.ReportsOfDatagrams | connector/connector.c:151-160 | when every receive returns data, the i-th report is the i-th datagram's |
| CConnector.FirstFailure | connector/connector.c:153-159 | finds the first failed receive, and only that one |
| CConnector.FirstFailureAt | connector/connector.c:153-159 | a failed receive with none before it is the first failure |
| CConnector.EventLoop | connector/connector.c:151-160 | the loop stops iff some receive fails, with the reports of the datagrams before the first failure, and otherwise keeps receiving with the reports of all of them |
| CConnector.Connector.RunMain | connector/connector.c:129-165 | returns -1 without sending if connecting fails; otherwise sends one LISTEN frame; returns -1 if the send fails; then receives until the first failed receive and returns -1 |
| GoMonitor.BinarySize | main.go:99-102 | binary.Size is -1 exactly for a platform-sized int |
| GoMonitor.LittleEndianBytes | main.go:109-111 | a fixed-size value is written as exactly binary.Size bytes |
| GoMonitor.BinaryWrite | main.go:109-111 | binary.Write fails exactly for a value with no fixed size, and then leaves the buffer unchanged; otherwise it appends binary.Size bytes |
| GoMonitor.SendMsgAsWritten | main.go:99-112 | with the untyped opcode the buffer is the 36 bytes of the two headers: nlmsg_len 35, Len 0xFFFF, id (1,1), Seq/Ack/Flags 0; it is not a control message |
| GoMonitor.IntendedSendMsgRoundTrip | main.go:93-113 | with a uint32 opcode the same steps build the 40-byte control message with nlmsg_len 40, Len 4 and the LISTEN opcode, and it decodes back |
| GoMonitor.Monitor.constructor | main.go:26 | the package seq starts at 0 |
| GoMonitor.Monitor.GetSendMsg | main.go:93-113 | raises seq by 1 (mod 2^32) first and stamps the envelope with the new value; the message is the 36-byte buffer above, always for LISTEN |
| GoMonitor.Forwarded | main.go:149-154 | no more data is forwarded than messages parsed |
| GoMonitor.ForwardedAppend | main.go:149-154 | forwarding keeps arrival order across consecutive runs of messages |
| GoMonitor.ForwardedExactly | main.go:149-154 | data is forwarded iff some NLMSG_DONE message carries it |
| GoMonitor.ForwardedAllDone | main.go:149-154 | when every message is NLMSG_DONE, all of their data is forwarded, in order |
| Comparison.BindAddressesAgree | main.go:51-61 | initNladdr's source address is the C bind address (AF_NETLINK, pid, group 1); the destination has pid 0 and no groups |
| Comparison.FirstRegistrations | main.go:94-105 | C's first frame carries seq 0 and is 40 bytes; Go's first carries seq 1 and is 36 bytes |
| Comparison.IntendedGoFrameIsCFrame | main.go:95-100 | the intended Go message is C's little-endian frame for the same seq, except that cn_msg seq stays 0 |

## Left out

- System calls (`socket`, `bind`, `send`/`sendto`, `recv`/`recvfrom`, `close`, `getpid`) are kernel I/O. Only their results are modelled, as parameters.
- `socket.Close`, `getSocket` and `Fd` in main.go are socket plumbing around those calls.
- `syscall.ParseNetlinkMessage` is library code. Its result is taken as a given list of (header, data) pairs.
- In Go's main, a failed receive or parse is `log.Fatal`, which ends the process; only the forwarding filter is modelled.
- `printf`, `perror`, `log` and `fmt` output is not modelled. The C handler's printed line is modelled as a `Report` value.
- `nlMsgHdr.Marshal` (main.go:86-91) copies the struct's memory through `unsafe.Pointer` and is never called. connector/connector.go, connector/monitor.go and tools/netlink.go are not part of this model: they redeclare constants, call functions defined nowhere, or wrap `syscall.Socket`.
- The C struct overlays are not reproduced byte for byte. This covers the 40-byte memset and memcpy into the 16-byte `nlh`, the opcode store past the 20-byte `cn`, and the receive into `hdr`. The frame is an explicit 40-byte sequence, and the out-of-bounds accesses are listed separately.
- The code decodes one message per datagram; it has no multi-message cursor, buffer pool or concurrent decoding, and neither has the model.
- CConnector.Connector.ControlEventListening: requires the counter below INT_MAX, because the C `seq++` on a signed int overflows (undefined behaviour) past it.
- CConnector.HandleReceivedEvent: requires the received datagram to reach the end of every field the handler reads. The C code never checks this. HandleReceivedEventChecked covers short datagrams, and the receive loop uses it.
- CConnector.HandleReceivedEvent: takes `ret` to be the length of the bytes received. recv truncates a longer datagram to the 76-byte buffer, so each receive delivers at most 76 bytes (`ValidReceive`).
- CConnector.CopyLength: assumes a 64-bit `size_t`. `pid_t` and the C `int` fields are modelled as unsigned 32-bit words, as types.go declares them.
- CConnector.Connector.RunMain: takes a finite run of receive outcomes. The C loop runs forever, so a run with no failure ends with main still receiving.
- The C frame is encoded in the host's byte order, which is a parameter. The Go frame is always little-endian, as main.go asks for.

## Findings

| source | as written | input that shows it | evidently intended | confidence | as-written member | corrected member |
|---|---|---|---|---|---|---|
| main.go:99-102 | `binary.Size(procCnMCastListen)` measures an untyped constant, which is a Go `int`, so it is -1; `Len` becomes 0xFFFF and `len` becomes 16 + 19 = 35 | the first `getSendMsg` call (seq 1) | Len 4 and len 40, as for a uint32 opcode | not executed | GoMonitor.SendMsgAsWritten | GoMonitor.IntendedSendMsgRoundTrip |
| main.go:111 | `binary.Write` of the `int` opcode fails, the error is ignored, and the opcode is never written: the message is 36 bytes | any `getSendMsg` call | a 40-byte message ending with the LISTEN opcode | not executed | GoMonitor.SendMsgAsWritten | GoMonitor.IntendedSendMsgRoundTrip |
| connector/connector.c:105 | `ret - NLMSG_HDRLEN` becomes a huge size_t when fewer than 16 bytes arrive, and even a full datagram copies 60 bytes into the 20-byte `cn` | recv returns 8 | copy only what arrived, into a buffer large enough, and reject short datagrams | not executed | CConnector.ReceiveCopyOverruns | CConnector.HandleReceivedEventChecked |
| connector/connector.c:55-71 | the 40-byte frame is written through a 16-byte `nlmsghdr` and a 20-byte `cn_msg`, and `memset(&cn, CNMSG_LEN, 0)` has its last two arguments swapped | any call of `control_event_listenning` | one 40-byte buffer holding envelope, connector header and opcode | not executed | CConnector.ControlOverlayOverruns | CConnector.Connector.ControlEventListening |
| tools/binary.go:11-12 | the probe value is a 4- or 8-byte `int`, whose first byte on a big-endian host is 0x00, never 0x10 | big-endian host, 8-byte int | `Order` equal to the host's byte order | not executed | ByteOrderProbe.ProbeWithGoInt | ByteOrderProbe.IntendedProbeOrder |
