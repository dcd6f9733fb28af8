/**
 * The transmit side of the XDMA sample: the echo responder that turns a
 * received frame into its reply in the same buffer, the length check and
 * counters of the transmit call, and one turn of the transmit loop.
 *
 * The received buffer starts with the 10-byte receive metadata; the
 * transmit view is placed so that its 32-byte metadata ends where the
 * receive metadata ends, so both views share the frame bytes and the reply
 * is written over the request.
 */
module SenderThread {
  import opened Common
  import opened BufferHandler
  import opened ReceiverThread

  // Header constants (Ethernet, RFC 826, RFC 791, RFC 792, RFC 768).
  const ETH_HLEN: nat := 14
  const ETH_TYPE_IPv4: u16 := 0x0800
  const ETH_TYPE_ARP: u16 := 0x0806
  const ARP_HLEN: nat := 28
  const ARP_OPCODE_ARP_REQUEST: u16 := 1
  const ARP_OPCODE_ARP_REPLY: u16 := 2
  const IP_PROTO_ICMP: byte := 1
  const IP_PROTO_UDP: byte := 17
  const ICMP_TYPE_ECHO_REPLY: byte := 0
  const ICMP_TYPE_ECHO_REQUEST: byte := 8
  /** The port the responder echoes (the echo service of RFC 862). */
  const UDP_ECHO_PORT: u16 := 7

  const XST_SUCCESS: int := 0
  const XST_FAILURE: int := 1

  /** `sizeof(struct rx_metadata)` with `ONE_QUEUE_TSN`: timestamp and frame length. */
  const RX_METADATA_SIZE: nat := 8 + 2
  /** `sizeof(struct tx_metadata)` with `ONE_QUEUE_TSN`: four tick counts, lengths, policy, reserved words. */
  const TX_METADATA_SIZE: nat := 4 * 4 + 2 + 2 + 1 + 3 + 4 + 4

  type Mac = s: seq<byte> | |s| == 6 witness [0, 0, 0, 0, 0, 0]
  type IpAddr = s: seq<byte> | |s| == 4 witness [0, 0, 0, 0]

  /** `myMAC`: 00:11:22:33:44:55. */
  const MY_MAC: Mac := [0x00, 0x11, 0x22, 0x33, 0x44, 0x55]

  /**
   * Where the transmit view of a received buffer at `rx` starts: its frame
   * bytes are the received frame bytes, its metadata begins
   * `TX_METADATA_SIZE - RX_METADATA_SIZE` bytes before the buffer.
   */
  function TxView(rx: int): (tx: int)
    ensures tx + TX_METADATA_SIZE == rx + RX_METADATA_SIZE
    ensures tx == rx - 22
  {
    rx + RX_METADATA_SIZE - TX_METADATA_SIZE
  }

  datatype EthHeader = EthHeader(dmac: Mac, smac: Mac, etype: u16)

  datatype ArpHeader = ArpHeader(
    hwType: u16, protoType: u16, hwSize: byte, protoSize: byte, opcode: u16,
    senderHw: Mac, senderProto: IpAddr, targetHw: Mac, targetProto: IpAddr)

  /** The IPv4 header fields the responder reads or writes; `ihl` counts 32-bit words. */
  datatype Ipv4Header = Ipv4Header(ihl: byte, totalLength: u16, proto: byte, src: u32, dst: u32)

  datatype IcmpHeader = IcmpHeader(icmpType: byte, code: byte, checksum: u16)

  datatype UdpHeader = UdpHeader(srcport: u16, dstport: u16, length: u16, checksum: u16)

  /** The transmit metadata fields the responder writes. */
  datatype TxMetadata = TxMetadata(frameLength: u16, timestampId: u16)

  /** A frame as the responder sees it, each header through its own view. */
  datatype FrameValue = FrameValue(
    txMeta: TxMetadata, eth: EthHeader, arp: ArpHeader, ipv4: Ipv4Header, icmp: IcmpHeader, udp: UdpHeader)

  /** `IPv4_HLEN`: the header length in bytes. */
  function Ipv4HeaderLength(ip: Ipv4Header): nat
  {
    4 * ip.ihl
  }

  /** `IPv4_BODY_LEN`: the bytes after the header. */
  function Ipv4BodyLength(ip: Ipv4Header): int
  {
    ip.totalLength - Ipv4HeaderLength(ip)
  }

  /** The checksum `icmp_checksum` computes over `len` bytes of an ICMP message; not modelled further. */
  type IcmpChecksum = (IcmpHeader, int) -> u16

  /**
   * What `process_send_packet` does to the frame: the outcome, the frame
   * afterwards, and, for a reply, the frame length written to the transmit
   * metadata (the C `int` sum stored in a 16-bit field).
   */
  datatype Reply = Reply(status: int, frame: FrameValue, sent: bool)

  /**
   * The reply rules: the Ethernet addresses are rewritten first, then an
   * ARP request, an ICMP echo request or a UDP datagram to port 7 is turned
   * into its answer; anything else fails and keeps what was rewritten so far.
   */
  function ReplyTo(f: FrameValue, cks: IcmpChecksum): Reply
  {
    var f1 := f.(txMeta := f.txMeta.(timestampId := 0), eth := f.eth.(dmac := f.eth.smac, smac := MY_MAC));
    if f.eth.etype == ETH_TYPE_ARP then
      var a := f.arp;
      if a.opcode != ARP_OPCODE_ARP_REQUEST then Reply(XST_FAILURE, f1, false)
      else
        var a' := a.(opcode := ARP_OPCODE_ARP_REPLY, targetHw := a.senderHw, senderHw := MY_MAC,
                     senderProto := a.targetProto, targetProto := a.senderProto);
        Reply(XST_SUCCESS, f1.(arp := a', txMeta := f1.txMeta.(frameLength := (ETH_HLEN + ARP_HLEN) % 0x1_0000)), true)
    else if f.eth.etype == ETH_TYPE_IPv4 then
      var ip := f.ipv4;
      var f2 := f1.(ipv4 := ip.(src := ip.dst, dst := ip.src));
      var len := ETH_HLEN + Ipv4HeaderLength(ip);
      if ip.proto == IP_PROTO_ICMP then
        if f.icmp.icmpType != ICMP_TYPE_ECHO_REQUEST then Reply(XST_FAILURE, f2, false)
        else
          var bodyLen := Ipv4BodyLength(ip);
          var m := f.icmp.(icmpType := ICMP_TYPE_ECHO_REPLY);
          Reply(XST_SUCCESS, f2.(icmp := m.(checksum := cks(m, bodyLen)),
                                 txMeta := f2.txMeta.(frameLength := (len + bodyLen) % 0x1_0000)), true)
      else if ip.proto == IP_PROTO_UDP then
        var u := f.udp;
        if u.dstport != UDP_ECHO_PORT then Reply(XST_FAILURE, f2, false)
        else
          Reply(XST_SUCCESS, f2.(udp := u.(srcport := u.dstport, dstport := u.srcport, checksum := 0),
                                 txMeta := f2.txMeta.(frameLength := (len + u.length) % 0x1_0000)), true)
      else Reply(XST_FAILURE, f2, false)
    else Reply(XST_FAILURE, f1, false)
  }

  /** Every reply, and every rejected frame, is addressed back to its sender from `myMAC`. */
  lemma ReplyEthernet(f: FrameValue, cks: IcmpChecksum)
    ensures ReplyTo(f, cks).frame.eth == EthHeader(f.eth.smac, MY_MAC, f.eth.etype)
    ensures ReplyTo(f, cks).frame.txMeta.timestampId == 0
    ensures ReplyTo(f, cks).sent <==> ReplyTo(f, cks).status == XST_SUCCESS
    ensures ReplyTo(f, cks).status == XST_SUCCESS || ReplyTo(f, cks).status == XST_FAILURE
  {
  }

  /**
   * ARP (RFC 826, "Packet Reception"): only a request is answered, with the
   * reply opcode, the requester as target, `myMAC` as sender and the two
   * protocol addresses exchanged; the reply is 42 bytes long.
   */
  lemma ReplyArp(f: FrameValue, cks: IcmpChecksum)
    requires f.eth.etype == ETH_TYPE_ARP
    ensures var r := ReplyTo(f, cks);
            && (r.status == XST_SUCCESS <==> f.arp.opcode == ARP_OPCODE_ARP_REQUEST)
            && (r.sent ==> r.frame.arp == f.arp.(opcode := ARP_OPCODE_ARP_REPLY, targetHw := f.arp.senderHw, senderHw := MY_MAC,
                                                   senderProto := f.arp.targetProto, targetProto := f.arp.senderProto)
                           && r.frame.txMeta.frameLength == 42)
            && (!r.sent ==> r.frame.arp == f.arp)
            && r.frame.ipv4 == f.ipv4 && r.frame.icmp == f.icmp && r.frame.udp == f.udp
  {
  }

  /** Every IPv4 frame has its source and destination exchanged, whether it is answered or not. */
  lemma ReplyIpv4Addresses(f: FrameValue, cks: IcmpChecksum)
    requires f.eth.etype == ETH_TYPE_IPv4
    ensures ReplyTo(f, cks).frame.ipv4 == f.ipv4.(src := f.ipv4.dst, dst := f.ipv4.src)
    ensures ReplyTo(f, cks).frame.arp == f.arp
    ensures !(f.ipv4.proto == IP_PROTO_ICMP || f.ipv4.proto == IP_PROTO_UDP) ==> ReplyTo(f, cks).status == XST_FAILURE
  {
  }

  /**
   * ICMP (RFC 792, Echo): only an echo request is answered, as an echo reply
   * with a fresh checksum and the IPv4 body as its length.
   */
  lemma ReplyIcmp(f: FrameValue, cks: IcmpChecksum)
    requires f.eth.etype == ETH_TYPE_IPv4 && f.ipv4.proto == IP_PROTO_ICMP
    ensures var r := ReplyTo(f, cks);
            && (r.status == XST_SUCCESS <==> f.icmp.icmpType == ICMP_TYPE_ECHO_REQUEST)
            && (r.sent ==> r.frame.icmp.icmpType == ICMP_TYPE_ECHO_REPLY && r.frame.icmp.code == f.icmp.code
                           && r.frame.icmp.checksum == cks(f.icmp.(icmpType := ICMP_TYPE_ECHO_REPLY), f.ipv4.totalLength - 4 * f.ipv4.ihl)
                           && r.frame.txMeta.frameLength == (ETH_HLEN + f.ipv4.totalLength) % 0x1_0000)
            && (!r.sent ==> r.frame.icmp == f.icmp)
            && r.frame.udp == f.udp
  {
  }

  /**
   * UDP: only a datagram to port 7 is answered (RFC 862), with the ports
   * exchanged, the checksum cleared and the UDP length, header included.
   */
  lemma ReplyUdp(f: FrameValue, cks: IcmpChecksum)
    requires f.eth.etype == ETH_TYPE_IPv4 && f.ipv4.proto == IP_PROTO_UDP
    ensures var r := ReplyTo(f, cks);
            && (r.status == XST_SUCCESS <==> f.udp.dstport == UDP_ECHO_PORT)
            && (r.sent ==> r.frame.udp == UdpHeader(UDP_ECHO_PORT, f.udp.srcport, f.udp.length, 0)
                           && r.frame.txMeta.frameLength == (ETH_HLEN + 4 * f.ipv4.ihl + f.udp.length) % 0x1_0000)
            && (!r.sent ==> r.frame.udp == f.udp)
            && r.frame.icmp == f.icmp
  {
  }

  /** Any other ethertype is rejected with only the Ethernet addresses and the timestamp id rewritten. */
  lemma ReplyOther(f: FrameValue, cks: IcmpChecksum)
    requires f.eth.etype != ETH_TYPE_ARP && f.eth.etype != ETH_TYPE_IPv4
    ensures ReplyTo(f, cks) == Reply(XST_FAILURE, f.(txMeta := f.txMeta.(timestampId := 0), eth := EthHeader(f.eth.smac, MY_MAC, f.eth.etype)), false)
  {
  }

  /** Answering the answer of a UDP echo gives back the original ports and addresses. */
  lemma UdpReplyTwice(f: FrameValue, cks: IcmpChecksum)
    requires f.eth.etype == ETH_TYPE_IPv4 && f.ipv4.proto == IP_PROTO_UDP && f.udp.dstport == UDP_ECHO_PORT
    requires f.udp.srcport == UDP_ECHO_PORT
    ensures var g := ReplyTo(ReplyTo(f, cks).frame, cks).frame;
            g.udp.srcport == f.udp.srcport && g.udp.dstport == f.udp.dstport && g.ipv4 == f.ipv4
  {
  }

  /** A frame in a received buffer, rewritten in place into its reply. */
  class Frame {
    var txMeta: TxMetadata
    var eth: EthHeader
    var arp: ArpHeader
    var ipv4: Ipv4Header
    var icmp: IcmpHeader
    var udp: UdpHeader

    ghost function Value(): FrameValue
      reads this
    {
      FrameValue(txMeta, eth, arp, ipv4, icmp, udp)
    }
  }

  /** The counters after a transmit call; a frame too long for a buffer changes nothing. */
  function TxCounters(c: Counters, frameLength: int, writeStatus: int, bytesTr: u64): (r: Counters)
    ensures TX_METADATA_SIZE + frameLength >= MAX_BUFFER_LENGTH ==> r == c
    ensures r.(txPackets := c.txPackets, txBytes := c.txBytes, txErrors := c.txErrors) == c
  {
    if TX_METADATA_SIZE + frameLength >= MAX_BUFFER_LENGTH then c
    else if writeStatus != XST_SUCCESS then c.(txErrors := U64(c.txErrors + 1))
    else c.(txPackets := U64(c.txPackets + 1), txBytes := U64(c.txBytes + bytesTr))
  }

  /** A transmit call counts exactly one of `txPackets` and `txErrors`, unless the length check refuses it. */
  lemma TxCountsOnce(c: Counters, frameLength: int, writeStatus: int, bytesTr: u64)
    requires TX_METADATA_SIZE + frameLength < MAX_BUFFER_LENGTH
    ensures var r := TxCounters(c, frameLength, writeStatus, bytesTr);
            U64(r.txPackets + r.txErrors) == U64(c.txPackets + c.txErrors + 1)
            && (writeStatus == XST_SUCCESS ==> r.txBytes == U64(c.txBytes + bytesTr))
  {
    if writeStatus != XST_SUCCESS {
      U64AddMod(c.txErrors + 1, c.txPackets);
    } else {
      U64AddMod(c.txPackets + 1, c.txErrors);
    }
  }

  /**
   * `transmit_tsn_packet_no_free(packet, port)`: refuses a frame whose
   * metadata and bytes reach `MAX_BUFFER_LENGTH`; otherwise issues the
   * write of `mem_len` bytes, whose outcome `writeStatus`/`bytesTr` comes
   * from the device, counts it and returns its status.
   */
  method TransmitTsnPacketNoFree(frame: Frame, stats: Stats, writeStatus: int, bytesTr: u64) returns (status: int, written: Option<nat>)
    modifies stats
    ensures var memLen := TX_METADATA_SIZE + frame.txMeta.frameLength;
            && (memLen >= MAX_BUFFER_LENGTH ==> status == XST_FAILURE && written == None)
            && (memLen < MAX_BUFFER_LENGTH ==> status == writeStatus && written == Some(memLen))
    ensures stats.Value() == TxCounters(old(stats.Value()), frame.txMeta.frameLength, writeStatus, bytesTr)
  {
    var memLen := TX_METADATA_SIZE + frame.txMeta.frameLength;
    if memLen >= MAX_BUFFER_LENGTH {
      return XST_FAILURE, None;
    }
    status := writeStatus;
    written := Some(memLen);
    if status != XST_SUCCESS {
      stats.txErrors := U64(stats.txErrors + 1);
    } else {
      stats.txPackets := U64(stats.txPackets + 1);
      stats.txBytes := U64(stats.txBytes + bytesTr);
    }
  }

  /** The ARP answer written over the request. */
  function ArpAnswer(a: ArpHeader): ArpHeader
  {
    a.(opcode := ARP_OPCODE_ARP_REPLY, targetHw := a.senderHw, senderHw := MY_MAC,
       senderProto := a.targetProto, targetProto := a.senderProto)
  }

  /** The Ethernet part of every answer: back to the sender, from `myMAC`, untimestamped. */
  method RewriteEthernet(frame: Frame)
    modifies frame
    ensures frame.Value() == old(frame.Value()).(txMeta := old(frame.txMeta).(timestampId := 0),
                                                 eth := old(frame.eth).(dmac := old(frame.eth.smac), smac := MY_MAC))
  {
    frame.txMeta := frame.txMeta.(timestampId := 0);
    frame.eth := frame.eth.(dmac := frame.eth.smac);
    frame.eth := frame.eth.(smac := MY_MAC);
  }

  /** The ARP header turned into the reply, field by field. */
  method RewriteArp(frame: Frame)
    modifies frame
    ensures frame.Value() == old(frame.Value()).(arp := ArpAnswer(old(frame.arp)))
  {
    frame.arp := frame.arp.(opcode := ARP_OPCODE_ARP_REPLY);
    frame.arp := frame.arp.(targetHw := frame.arp.senderHw);
    frame.arp := frame.arp.(senderHw := MY_MAC);
    var senderProto := frame.arp.senderProto;
    frame.arp := frame.arp.(senderProto := frame.arp.targetProto);
    frame.arp := frame.arp.(targetProto := senderProto);
  }

  /** The IPv4 source and destination exchanged. */
  method RewriteIpv4(frame: Frame)
    modifies frame
    ensures frame.Value() == old(frame.Value()).(ipv4 := old(frame.ipv4).(src := old(frame.ipv4.dst), dst := old(frame.ipv4.src)))
  {
    var src := frame.ipv4.dst;
    frame.ipv4 := frame.ipv4.(dst := frame.ipv4.src);
    frame.ipv4 := frame.ipv4.(src := src);
  }

  /** The echo request turned into the reply, with the checksum over `icmpLen` bytes. */
  method RewriteIcmp(frame: Frame, cks: IcmpChecksum, icmpLen: int)
    modifies frame
    ensures var m := old(frame.icmp).(icmpType := ICMP_TYPE_ECHO_REPLY);
            frame.Value() == old(frame.Value()).(icmp := m.(checksum := cks(m, icmpLen)))
  {
    frame.icmp := frame.icmp.(icmpType := ICMP_TYPE_ECHO_REPLY);
    frame.icmp := frame.icmp.(checksum := cks(frame.icmp, icmpLen));
  }

  /** The UDP ports exchanged and the checksum cleared. */
  method RewriteUdp(frame: Frame)
    modifies frame
    ensures frame.Value() == old(frame.Value()).(udp := old(frame.udp).(srcport := old(frame.udp.dstport), dstport := old(frame.udp.srcport), checksum := 0))
  {
    var srcport := frame.udp.dstport;
    frame.udp := frame.udp.(dstport := frame.udp.srcport);
    frame.udp := frame.udp.(srcport := srcport);
    frame.udp := frame.udp.(checksum := 0);
  }

  /**
   * The rewriting part of `process_send_packet`: the frame afterwards is
   * `ReplyTo`'s, and for an answer the length handed to the transmit call
   * is the one `ReplyTo` puts in the metadata.
   */
  method RewriteReply(frame: Frame, cks: IcmpChecksum) returns (status: int)
    modifies frame
    ensures status == ReplyTo(old(frame.Value()), cks).status
    ensures frame.Value() == ReplyTo(old(frame.Value()), cks).frame
  {
    ghost var f := frame.Value();
    RewriteEthernet(frame);
    var txLen: int := ETH_HLEN;
    if frame.eth.etype == ETH_TYPE_ARP {
      if frame.arp.opcode != ARP_OPCODE_ARP_REQUEST {
        return XST_FAILURE;
      }
      RewriteArp(frame);
      txLen := txLen + ARP_HLEN;
    } else if frame.eth.etype == ETH_TYPE_IPv4 {
      RewriteIpv4(frame);
      txLen := txLen + Ipv4HeaderLength(frame.ipv4);
      if frame.ipv4.proto == IP_PROTO_ICMP {
        if frame.icmp.icmpType != ICMP_TYPE_ECHO_REQUEST {
          return XST_FAILURE;
        }
        var icmpLen := Ipv4BodyLength(frame.ipv4);
        RewriteIcmp(frame, cks, icmpLen);
        txLen := txLen + icmpLen;
      } else if frame.ipv4.proto == IP_PROTO_UDP {
        if frame.udp.dstport != UDP_ECHO_PORT {
          return XST_FAILURE;
        }
        RewriteUdp(frame);
        txLen := txLen + frame.udp.length;
      } else {
        return XST_FAILURE;
      }
    } else {
      return XST_FAILURE;
    }
    frame.txMeta := frame.txMeta.(frameLength := txLen % 0x1_0000);
    status := XST_SUCCESS;
  }

  /**
   * `process_send_packet(rx, port)` (the build without the HAT module): the
   * frame is rewritten in place by `ReplyTo`; an answer is handed to the
   * transmit call, whose own result is not passed on.
   */
  method ProcessSendPacket(frame: Frame, stats: Stats, cks: IcmpChecksum, writeStatus: int, bytesTr: u64)
    returns (status: int, written: Option<nat>)
    modifies frame, stats
    ensures var r := ReplyTo(old(frame.Value()), cks);
            && status == r.status && frame.Value() == r.frame
            && (r.sent ==> stats.Value() == TxCounters(old(stats.Value()), r.frame.txMeta.frameLength, writeStatus, bytesTr)
                           && written == (if TX_METADATA_SIZE + r.frame.txMeta.frameLength < MAX_BUFFER_LENGTH
                                          then Some(TX_METADATA_SIZE + r.frame.txMeta.frameLength) else None))
            && (!r.sent ==> stats.Value() == old(stats.Value()) && written == None)
  {
    ghost var f := frame.Value();
    ReplyEthernet(f, cks);
    status := RewriteReply(frame, cks);
    if status != XST_SUCCESS {
      return status, None;
    }
    var _, w := TransmitTsnPacketNoFree(frame, stats, writeStatus, bytesTr);
    written := w;
  }

  /**
   * The counters after the transmit loop has handled the frame `f`: an
   * answer is counted by the transmit call, a rejected frame in `txFiltered`.
   */
  function SenderCounters(c: Counters, a: Reply, writeStatus: int, bytesTr: u64): (r: Counters)
    requires (a.sent <==> a.status == XST_SUCCESS) && (a.status == XST_SUCCESS || a.status == XST_FAILURE)
    ensures a.sent ==> r == TxCounters(c, a.frame.txMeta.frameLength, writeStatus, bytesTr)
    ensures !a.sent ==> r == c.(txFiltered := U64(c.txFiltered + 1))
  {
    if a.status == XST_FAILURE then c.(txFiltered := U64(c.txFiltered + 1))
    else TxCounters(c, a.frame.txMeta.frameLength, writeStatus, bytesTr)
  }

  /** Every frame the loop handles is counted exactly once: as sent, as a transmit error or as filtered. */
  lemma SenderCountsOnce(c: Counters, a: Reply, writeStatus: int, bytesTr: u64)
    requires (a.sent <==> a.status == XST_SUCCESS) && (a.status == XST_SUCCESS || a.status == XST_FAILURE)
    requires TX_METADATA_SIZE + a.frame.txMeta.frameLength < MAX_BUFFER_LENGTH
    ensures var r := SenderCounters(c, a, writeStatus, bytesTr);
            U64(r.txPackets + r.txErrors + r.txFiltered) == U64(c.txPackets + c.txErrors + c.txFiltered + 1)
  {
    var r := SenderCounters(c, a, writeStatus, bytesTr);
    SenderCountersFields(c, a, writeStatus, bytesTr);
    OneOfThreeMore(c.txPackets, c.txErrors, c.txFiltered, r.txPackets, r.txErrors, r.txFiltered);
  }

  /** The three outcome counters after the loop has handled a frame. */
  lemma SenderCountersFields(c: Counters, a: Reply, writeStatus: int, bytesTr: u64)
    requires (a.sent <==> a.status == XST_SUCCESS) && (a.status == XST_SUCCESS || a.status == XST_FAILURE)
    requires TX_METADATA_SIZE + a.frame.txMeta.frameLength < MAX_BUFFER_LENGTH
    ensures var r := SenderCounters(c, a, writeStatus, bytesTr);
            (r.txPackets == U64(c.txPackets + 1) && r.txErrors == c.txErrors && r.txFiltered == c.txFiltered)
            || (r.txPackets == c.txPackets && r.txErrors == U64(c.txErrors + 1) && r.txFiltered == c.txFiltered)
            || (r.txPackets == c.txPackets && r.txErrors == c.txErrors && r.txFiltered == U64(c.txFiltered + 1))
  {
  }

  /** Adding one, modulo 2^64, to one of three counters adds one to their sum. */
  lemma OneOfThreeMore(p: int, e: int, f: int, p': int, e': int, f': int)
    requires (p' == U64(p + 1) && e' == e && f' == f)
             || (p' == p && e' == U64(e + 1) && f' == f)
             || (p' == p && e' == e && f' == U64(f + 1))
    ensures U64(p' + e' + f') == U64(p + e + f + 1)
  {
    if p' == U64(p + 1) && e' == e && f' == f {
      U64AddMod(p + 1, e + f);
      assert p' + e' + f' == U64(p + 1) + (e + f);
    } else if p' == p && e' == U64(e + 1) && f' == f {
      U64AddMod(e + 1, p + f);
      assert p' + e' + f' == U64(e + 1) + (p + f);
    } else {
      U64AddMod(f + 1, p + e);
      assert p' + e' + f' == U64(f + 1) + (p + e);
    }
  }

  /** The part of one loop turn that handles a dequeued buffer's frame. */
  method AnswerPacket(frame: Frame, stats: Stats, cks: IcmpChecksum, writeStatus: int, bytesTr: u64)
    modifies frame, stats
    ensures frame.Value() == ReplyTo(old(frame.Value()), cks).frame
    ensures ReplyTo(old(frame.Value()), cks).sent <==> ReplyTo(old(frame.Value()), cks).status == XST_SUCCESS
    ensures stats.Value() == SenderCounters(old(stats.Value()), ReplyTo(old(frame.Value()), cks), writeStatus, bytesTr)
  {
    ghost var f := frame.Value();
    ReplyEthernet(f, cks);
    var status, _ := ProcessSendPacket(frame, stats, cks, writeStatus, bytesTr);
    if status == XST_FAILURE {
      stats.txFiltered := U64(stats.txFiltered + 1);
    }
  }

  /**
   * One turn of `sender_in_normal_mode` for port `port`: nothing happens when
   * the queue is empty; otherwise the dequeued buffer's frame (`frame`) is
   * answered and the buffer goes back to the port's pool in every case.
   */
  method SenderStep(queue: CircularQueue, pool: BufferPool, port: int, stats: Stats, frame: Frame,
                    cks: IcmpChecksum, writeStatus: int, bytesTr: u64) returns (buffer: Ptr)
    requires queue.Valid() && pool.Valid() && 0 <= port < |pool.stacks|
    requires queue.elements !in pool.Repr && queue !in pool.Repr && frame !in pool.Repr && stats !in pool.Repr
    modifies queue, frame, stats, pool.stacks[port], pool.stacks[port].elements
    ensures queue.Valid() && pool.Valid()
    ensures (buffer, queue.Contents()) == QueueDequeue(old(queue.Contents()))
    ensures buffer == NULL ==> frame.Value() == old(frame.Value()) && stats.Value() == old(stats.Value())
                               && pool.Contents(port) == old(pool.Contents(port))
    ensures buffer != NULL ==> frame.Value() == ReplyTo(old(frame.Value()), cks).frame
                               && stats.Value() == SenderCounters(old(stats.Value()), ReplyTo(old(frame.Value()), cks), writeStatus, bytesTr)
                               && pool.Contents(port) == StackFree(old(pool.Contents(port)), buffer).1
    ensures forall q :: 0 <= q < |pool.stacks| && q != port ==> pool.Contents(q) == old(pool.Contents(q))
  {
    buffer := queue.Dequeue();
    if buffer == NULL {
      return;
    }
    AnswerPacket(frame, stats, cks, writeStatus, bytesTr);
    assert pool.Valid() && pool.Contents(port) == old(pool.Contents(port));
    assert forall q :: 0 <= q < |pool.stacks| ==> pool.Contents(q) == old(pool.Contents(q));
    var _ := pool.Free(port, buffer);
  }
}
