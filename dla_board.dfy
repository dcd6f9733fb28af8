/**
 * Message layouts of the DLA board protocol spoken over the FTDI
 * USB-serial link: a 4-byte header followed by a block-specific body.
 *
 * The C structs are packed and use bit-fields. The wire bytes follow the
 * layout GCC gives packed bit-fields on a little-endian target: the first
 * field declared in a byte occupies its least significant bits.
 */
module DlaBoard {
  import opened Common

  type nibble = x: int | 0 <= x < 0x10
  type bits2 = x: int | 0 <= x < 4
  type bits6 = x: int | 0 <= x < 0x40

  /** Start-of-data marker bytes. */
  const SOD_LOW_BYTE: byte := 0xCA
  const SOD_HIGH_BYTE: byte := 0xBA

  /** Size of the header record `bdMsgHdr_t`. */
  const HDR_SIZE: nat := 4
  /** The largest value of the 12-bit length field. */
  const MAX_BD_MSG_LEN: nat := 4095
  const MAX_BD_DATA_LEN: nat := MAX_BD_MSG_LEN - HDR_SIZE
  /** Memory messages carry one op byte and four address bytes before the data. */
  const MIB_PREFIX_LEN: nat := 5
  const MAX_MIB_DATA_LEN: nat := MAX_BD_DATA_LEN - MIB_PREFIX_LEN
  const MAX_SCMB_DATAWORD_LEN: nat := 950
  const MAX_DLAB_TX_MSG_LEN: nat := 120
  const MAX_DLAB_RX_MSG_LEN: nat := 16
  /** `sizeof(cfrbMsg_t)`: header plus four body bytes. */
  const REG_MSG_SIZE: nat := HDR_SIZE + 4

  /** Destination block of a message (`enum data_dest`). */
  datatype Dest = CFRB | MFDB | SMCB | MFRB | MIB | DLA | DPIB

  function DestCode(d: Dest): (c: nat)
    ensures c < 0x10
    ensures d == CFRB ==> c == 0x0
    ensures d == MFRB ==> c == 0x8
  {
    match d
    case CFRB => 0x0
    case MFDB => 0x1
    case SMCB => 0x2
    case MFRB => 0x8
    case MIB => 0x9
    case DLA => 0xA
    case DPIB => 0xB
  }

  /** Read and write opcodes (`enum operate`). */
  const OPR_RD: nat := 0x0
  const OPR_WR: nat := 0x3

  /** `bdMsgHdr_t`: two SOD bytes, a 4-bit destination and a 12-bit length split 4+8. */
  datatype Header = Header(sodL: byte, sodH: byte, dst: nibble, lenL: nibble, lenH: byte)

  const ZeroHeader := Header(0, 0, 0, 0, 0)

  /** The message length the header announces. */
  function Length(h: Header): (l: nat)
    ensures l <= MAX_BD_MSG_LEN
  {
    h.lenH * 0x10 + h.lenL
  }

  /** The four header bytes as they leave the host. */
  function HeaderBytes(h: Header): (bs: seq<byte>)
    ensures |bs| == HDR_SIZE
    ensures bs[0] == h.sodL && bs[1] == h.sodH
  {
    [h.sodL, h.sodH, h.dst + 0x10 * h.lenL, h.lenH]
  }

  function ParseHeader(bs: seq<byte>): (h: Header)
    requires |bs| >= HDR_SIZE
  {
    Header(bs[0], bs[1], bs[2] % 0x10, bs[2] / 0x10, bs[3])
  }

  lemma HeaderBytesRoundTrip(h: Header)
    ensures ParseHeader(HeaderBytes(h)) == h
  {
  }

  lemma ParseHeaderBytes(bs: seq<byte>)
    requires |bs| >= HDR_SIZE
    ensures HeaderBytes(ParseHeader(bs)) == bs[..HDR_SIZE]
  {
  }

  /** `cfrbMsg_t` (also `mfrbMsg_t`): 2-bit op, 14-bit address split 6+8, 16-bit data split 8+8. */
  datatype RegMsg = RegMsg(hdr: Header, op: bits2, rAddrL: bits6, rAddrH: byte, rDataL: byte, rDataH: byte)

  const ZeroRegMsg := RegMsg(ZeroHeader, 0, 0, 0, 0, 0)

  function RegMsgBytes(m: RegMsg): (bs: seq<byte>)
    ensures |bs| == REG_MSG_SIZE
  {
    HeaderBytes(m.hdr) + [m.op + 4 * m.rAddrL, m.rAddrH, m.rDataL, m.rDataH]
  }

  function ParseRegMsg(bs: seq<byte>): RegMsg
    requires |bs| >= REG_MSG_SIZE
  {
    RegMsg(ParseHeader(bs), bs[4] % 4, bs[4] / 4, bs[5], bs[6], bs[7])
  }

  lemma RegMsgBytesRoundTrip(m: RegMsg)
    ensures ParseRegMsg(RegMsgBytes(m)) == m
  {
    HeaderBytesRoundTrip(m.hdr);
  }

  /** `mib_message`: op, reserved bits, a 32-bit address in four bytes (low first), data. */
  datatype MibMsg = MibMsg(hdr: Header, op: bits2, rsv: bits6,
                           mAddrL: byte, mAddrM: byte, mAddrH: byte, mAddrT: byte,
                           data: seq<byte>)

  const ZeroMibMsg := MibMsg(ZeroHeader, 0, 0, 0, 0, 0, 0, Repeat(0, MAX_MIB_DATA_LEN))

  /** A memory message as the C struct holds it: a full 4086-byte data area. */
  type MibFrame = m: MibMsg | |m.data| == MAX_MIB_DATA_LEN witness ZeroMibMsg

  /** `smcb_message`: header followed by configuration words. */
  datatype SmcbMsg = SmcbMsg(hdr: Header, data: seq<u32>)

  const ZeroSmcbMsg := SmcbMsg(ZeroHeader, Repeat(0, MAX_SCMB_DATAWORD_LEN))

  /** `dlab_tx_message` and `dlab_rx_message`: header followed by engine bytes. */
  datatype DlabMsg = DlabMsg(hdr: Header, data: seq<byte>)

  const ZeroDlabTxMsg := DlabMsg(ZeroHeader, Repeat(0, MAX_DLAB_TX_MSG_LEN))

  /** An engine reply as the C struct holds it: 16 data bytes. */
  type DlabRxFrame = m: DlabMsg | |m.data| == MAX_DLAB_RX_MSG_LEN
    witness DlabMsg(ZeroHeader, Repeat(0, MAX_DLAB_RX_MSG_LEN))

  /** The bytes a successful register transceive got back: exactly one message. */
  type RegReply = o: Option<seq<byte>> | o.Some? ==> |o.value| == REG_MSG_SIZE witness None

  /** Access type of a register table entry (`enum reg_type`). */
  datatype RegType = RO | RW

  /** `regInfo_t`: address, last value seen, name and access type. */
  datatype RegInfo = RegInfo(a: u16, d: u16, name: string, rw: RegType)
}
