/**
 * The network-device side of the XDMA driver: the DMA alignment check, the
 * mapping of a kernel buffer to a scatter-gather list, the descriptor the
 * transmit path fills in and the transmit path itself.
 */
module XdmaNetdev {
  import opened Common
  import opened XdmaThread

  /** `2^e`. */
  function Pow2(e: nat): (r: nat)
    ensures r >= 1
  {
    if e == 0 then 1 else 2 * Pow2(e - 1)
  }

  /** `x & (2^e - 1)` on a non-negative or two's-complement value is its remainder modulo `2^e`. */
  function LowBits(x: int, e: nat): (r: nat)
    ensures r < Pow2(e)
  {
    x % Pow2(e)
  }

  /**
   * The alignment fields of an engine: `addr_align` is `2^alignShift` and
   * `len_granularity` is `2^granShift`. The shifts stay below 32, so the
   * `int` casts of the C code keep every bit the masks look at.
   */
  type Shift = s: nat | s < 32

  datatype DmaEngine = DmaEngine(nonIncrAddr: bool, alignShift: Shift, granShift: Shift)

  /**
   * `check_transfer_align_packet(engine, buf, count, pos, sync)`: 0 when the
   * transfer may go ahead, -EINVAL otherwise.
   */
  function CheckTransferAlign(engine: Option<DmaEngine>, buf: nat, count: nat, pos: int, sync: bool): (rc: int)
    ensures rc == 0 || rc == -EINVAL
    ensures engine == None ==> rc == -EINVAL
  {
    if engine == None then -EINVAL
    else
      var e := engine.value;
      if e.nonIncrAddr then
        if LowBits(buf, e.alignShift) != 0 then -EINVAL
        else if LowBits(pos, e.alignShift) != 0 && sync then -EINVAL
        else if LowBits(count, e.granShift) != 0 then -EINVAL
        else 0
      else if LowBits(buf, e.alignShift) != LowBits(pos, e.alignShift) then -EINVAL
      else 0
  }

  /**
   * The transfers the check lets through: in non-incremental mode (AXI
   * stream, or memory-mapped at a fixed address) an aligned buffer, a
   * length that is a whole number of granules and, for a synchronous
   * transfer, an aligned card address; in incremental mode a buffer and card
   * address with the same offset within an alignment unit.
   */
  predicate AlignedTransfer(e: DmaEngine, buf: nat, count: nat, pos: int, sync: bool)
  {
    if e.nonIncrAddr then
      buf % Pow2(e.alignShift) == 0 && count % Pow2(e.granShift) == 0 &&
      (sync ==> pos % Pow2(e.alignShift) == 0)
    else
      buf % Pow2(e.alignShift) == pos % Pow2(e.alignShift)
  }

  /** The check accepts exactly the aligned transfers of an engine. */
  lemma CheckTransferAlignAccepts(e: DmaEngine, buf: nat, count: nat, pos: int, sync: bool)
    ensures CheckTransferAlign(Some(e), buf, count, pos, sync) == 0 <==> AlignedTransfer(e, buf, count, pos, sync)
  {
  }

  /** Without `sync`, a non-incremental transfer may start anywhere on the card. */
  lemma NonIncrementalIgnoresPosition(e: DmaEngine, buf: nat, count: nat, pos: int, pos': int)
    requires e.nonIncrAddr
    ensures CheckTransferAlign(Some(e), buf, count, pos, false) == CheckTransferAlign(Some(e), buf, count, pos', false)
  {
  }

  /** In incremental mode only the relative offset counts: moving buffer and card address together, or changing the length, keeps the verdict. */
  lemma IncrementalShiftInvariant(e: DmaEngine, buf: nat, count: nat, count': nat, pos: int, d: nat, sync: bool)
    requires !e.nonIncrAddr
    ensures CheckTransferAlign(Some(e), buf + d, count', pos + d, sync) == CheckTransferAlign(Some(e), buf, count, pos, sync)
  {
    var a := Pow2(e.alignShift);
    ShiftMod(buf, d, a);
    ShiftMod(pos, d, a);
    ShiftMod(buf + d, -(d as int), a);
    ShiftMod(pos + d, -(d as int), a);
  }

  /** `(x + d) mod a` is determined by `x mod a`. */
  lemma ShiftMod(x: int, d: int, a: nat)
    requires a >= 1
    ensures (x + d) % a == (x % a + d % a) % a
  {
    var q, r := x / a, x % a;
    var dq, dr := d / a, d % a;
    var s := (r + dr) / a;
    var t := (r + dr) % a;
    assert x == a * q + r && d == a * dq + dr && r + dr == a * s + t;
    assert a * q + a * dq + a * s == a * (q + dq + s);
    DivModUnique(x + d, a, q + dq + s, t);
  }

  // ---------------------------------------------------------------------
  // Kernel buffer to scatter-gather list
  // ---------------------------------------------------------------------

  /**
   * `char_sgdma_map_kernel_buf_to_sgl`: the user-buffer mapping with kernel
   * pages, except that the segment loop also stops where the scatter-gather
   * list ends (`sgLen` entries).
   */
  method MapKernelBufToSgl(buf: u64, len: u64, sgOk: bool, pagesOk: bool, pinRv: int, pinned: seq<nat>, sgLen: nat)
    returns (rc: int, entries: seq<SgEntry>)
    requires pinRv >= 0 ==> |pinned| == pinRv
    ensures var n := PagesNr(buf, len);
            && (n == 0 ==> rc == -EINVAL)
            && (n > 0 && !(sgOk && pagesOk) ==> rc == -ENOMEM)
            && (n > 0 && sgOk && pagesOk && pinRv < 0 ==> rc == pinRv)
            && (n > 0 && sgOk && pagesOk && pinRv >= 0 && pinRv != n ==> rc == -EFAULT)
            && (n > 0 && sgOk && pagesOk && pinRv == n && HasAdjacentDuplicate(pinned) ==> rc == -EFAULT)
            && (n > 0 && sgOk && pagesOk && pinRv == n && !HasAdjacentDuplicate(pinned) ==>
                  entries == SgEntries(buf, len, pinned[..Min(sgLen, n)])
                  && (rc == 0 <==> Total(entries) == len)
                  && (rc != 0 ==> rc == -EINVAL))
    ensures rc == 0 ==> Total(entries) == len
  {
    entries := [];
    var n := PagesNr(buf, len);
    if n == 0 {
      return -EINVAL, [];
    }
    if !sgOk || !pagesOk {
      return -ENOMEM, [];
    }
    if pinRv < 0 {
      return pinRv, [];
    }
    if pinRv != n {
      return -EFAULT, [];
    }
    var dup := FindAdjacentDuplicate(pinned);
    if dup {
      return -EFAULT, [];
    }
    var rest;
    entries, rest := SgMapPages(buf, len, pinned[..Min(sgLen, n)]);
    if rest != 0 {
      return -EINVAL, entries;
    }
    rc := 0;
  }

  /** A list shorter than the page count leaves bytes unmapped, so the mapping fails. */
  lemma ShortSgListFails(buf: u64, len: u64, pinned: seq<nat>, sgLen: nat)
    requires 0 < len < TWO_32
    requires buf % PAGE_SIZE + len + PAGE_SIZE - 1 < TWO_64
    requires |pinned| == PagesNr(buf, len) && sgLen < |pinned|
    ensures Total(SgEntries(buf, len, pinned[..sgLen])) < len
  {
    PagesNrSpan(buf, len);
    var es := SgEntries(buf, len, pinned);
    SgEntriesTotal(buf, len, pinned);
    SgEntriesAligned(buf, len, pinned);
    SgEntriesPrefix(buf, len, pinned, sgLen);
    TotalPrefixBelow(es, sgLen);
  }

  /** The entries for a prefix of the pages are the prefix of the entries. */
  lemma {:induction false} SgEntriesPrefix(buf: nat, len: nat, pages: seq<nat>, m: nat)
    requires m <= |pages|
    ensures SgEntries(buf, len, pages[..m]) == SgEntries(buf, len, pages)[..m]
    decreases m
  {
    if m > 0 {
      var n := SgStepLen(buf, len);
      assert pages[..m][1..] == pages[1..][..m - 1];
      SgEntriesPrefix(buf + n, len - n, pages[1..], m - 1);
    }
  }

  /** Leaving out non-empty entries at the end maps fewer bytes. */
  lemma {:induction false} TotalPrefixBelow(es: seq<SgEntry>, m: nat)
    requires m < |es| && forall k :: 0 <= k < |es| ==> es[k].length > 0
    ensures Total(es[..m]) < Total(es)
    decreases |es| - m
  {
    var init := es[..|es| - 1];
    assert es[..m] == init[..m];
    if m < |init| {
      TotalPrefixBelow(init, m);
    } else {
      assert init[..m] == init;
    }
  }

  // ---------------------------------------------------------------------
  // The transmit descriptor
  // ---------------------------------------------------------------------

  // Descriptor and engine-control bits of the Xilinx XDMA IP (libxdma.h).
  const DESC_MAGIC: bv32 := 0xAD4B0000
  const LS_BYTE_MASK: bv32 := 0xFF
  const XDMA_DESC_STOPPED: bv32 := 1 << 0
  const XDMA_DESC_COMPLETED: bv32 := 1 << 1
  const XDMA_DESC_EOP: bv32 := 1 << 4

  const XDMA_CTRL_RUN_STOP: bv32 := 1 << 0
  const XDMA_CTRL_IE_DESC_STOPPED: bv32 := 1 << 1
  const XDMA_CTRL_IE_DESC_COMPLETED: bv32 := 1 << 2
  const XDMA_CTRL_IE_DESC_ALIGN_MISMATCH: bv32 := 1 << 3
  const XDMA_CTRL_IE_MAGIC_STOPPED: bv32 := 1 << 4
  const XDMA_CTRL_IE_READ_ERROR: bv32 := 0x1F << 9
  const XDMA_CTRL_IE_DESC_ERROR: bv32 := 0x1F << 19

  /** `DMA_ENGINE_START` of xdma_netdev.h. */
  const DMA_ENGINE_START: int := 16268831

  /** The control word `desc_set` writes: `DESC_MAGIC` with its low byte replaced by STOPPED, EOP and COMPLETED. */
  function DescControl(): (r: u32)
    ensures r / 0x100 == DESC_MAGIC as int / 0x100
    ensures r % 0x100 == 0x13
  {
    ((DESC_MAGIC & !LS_BYTE_MASK) | (XDMA_DESC_STOPPED | XDMA_DESC_EOP | XDMA_DESC_COMPLETED)) as int
  }

  /** The word `start_xmit` writes to the engine's control register: run, with every interrupt the transmit path needs. */
  function EngineControl(): (r: u32)
    ensures r == DMA_ENGINE_START
  {
    (XDMA_CTRL_RUN_STOP | XDMA_CTRL_IE_READ_ERROR | XDMA_CTRL_IE_DESC_ERROR | XDMA_CTRL_IE_DESC_ALIGN_MISMATCH
     | XDMA_CTRL_IE_MAGIC_STOPPED | XDMA_CTRL_IE_DESC_STOPPED | XDMA_CTRL_IE_DESC_COMPLETED) as int
  }

  /** A hardware descriptor (`xdma_desc`), its fields in host order on a little-endian host. */
  class XdmaDesc {
    var control: u32
    var bytes: u32
    var srcAddrLo: u32
    var srcAddrHi: u32
    var dstAddrLo: u32
    var dstAddrHi: u32
    var nextLo: u32
    var nextHi: u32

    constructor()
    {
      control, bytes, srcAddrLo, srcAddrHi := 0, 0, 0, 0;
      dstAddrLo, dstAddrHi, nextLo, nextHi := 0, 0, 0, 0;
    }

    /**
     * `desc_set(desc, addr, len)`: a single stopped end-of-packet descriptor
     * reading `len` bytes from `addr`, split by `PCI_DMA_L` and `PCI_DMA_H`.
     */
    method DescSet(addr: u64, len: u32)
      modifies this
      ensures control == DescControl()
      ensures Join64(srcAddrHi, srcAddrLo) == addr
      ensures srcAddrLo == Lo32(addr) && srcAddrHi == Hi32(addr) && bytes == len
      ensures dstAddrLo == old(dstAddrLo) && dstAddrHi == old(dstAddrHi)
      ensures nextLo == old(nextLo) && nextHi == old(nextHi)
    {
      var c := DESC_MAGIC;
      control := c as int;
      var controlField := XDMA_DESC_STOPPED;
      controlField := controlField | XDMA_DESC_EOP;
      controlField := controlField | XDMA_DESC_COMPLETED;
      c := c & !LS_BYTE_MASK;
      c := c | controlField;
      control := c as int;
      srcAddrLo := Lo32(addr);
      srcAddrHi := Hi32(addr);
      SplitJoin(addr, 0, 0);
      bytes := len;
    }
  }

  // ---------------------------------------------------------------------
  // Transmit
  // ---------------------------------------------------------------------

  /** The shortest Ethernet frame without its check sequence (IEEE 802.3 clause 4.4.2). */
  const ETH_ZLEN: nat := 60
  /** `sizeof(struct tx_metadata)` of xdma_netdev.h: four tick counts, two 16-bit fields, a policy byte and 11 reserved bytes. */
  const TX_METADATA_SIZE: nat := 4 * 4 + 2 + 2 + 1 + 3 + 4 + 4
  const NETDEV_TX_OK: int := 0
  const NETDEV_TX_BUSY: int := 0x10

  /** A socket buffer: `data` holds the bytes from `skb->data` to the end of the buffer, of which the first `len` are the frame. */
  class Skb {
    var data: seq<byte>
    var len: nat

    ghost predicate Valid()
      reads this
    {
      len <= |data|
    }

    constructor(data: seq<byte>, len: nat)
      requires len <= |data|
      ensures Valid() && this.data == data && this.len == len
    {
      this.data := data;
      this.len := len;
    }
  }

  /** A register write of the transmit path: to BAR 1 at an offset, or to the transmit engine's control register. */
  datatype RegWrite = Bar1Write(offset: nat, value: u32) | EngineControlWrite(value: u32)

  /** The driver's private state of the network device (`xdma_private`), as the transmit path uses it. */
  class XdmaPrivate {
    var queueStopped: bool
    var skb: Skb?
    var dmaAddr: u64
    const desc: XdmaDesc
    /** The bus address of `desc`. */
    const busAddr: u64
    /** `SGDMA_OFFSET_FROM_CHANNEL`: where the descriptor registers of the transmit channel start in BAR 1. */
    const sgdmaOffset: nat

    constructor(desc: XdmaDesc, busAddr: u64, sgdmaOffset: nat)
      ensures this.desc == desc && this.busAddr == busAddr && this.sgdmaOffset == sgdmaOffset && skb == null
    {
      this.desc := desc;
      this.busAddr := busAddr;
      this.sgdmaOffset := sgdmaOffset;
      queueStopped := false;
      skb := null;
      dmaAddr := 0;
    }
  }

  /** The frame length after padding, and the frame `start_xmit` hands to the card after the metadata. */
  function PaddedLength(len: nat): (r: nat)
    ensures r >= ETH_ZLEN && r >= len
    ensures len >= ETH_ZLEN ==> r == len
  {
    if len < ETH_ZLEN then ETH_ZLEN else len
  }

  /**
   * The frame as written: the length is raised to 60 before `skb_padto` is
   * asked for that same length, so nothing is padded and the frame ends in
   * whatever bytes followed the packet in its buffer.
   */
  function PaddedFrameAsWritten(data: seq<byte>, len: nat): (r: seq<byte>)
    requires PaddedLength(len) <= |data|
    ensures |r| == PaddedLength(len) && r[..len] == data[..len]
  {
    data[..PaddedLength(len)]
  }

  /** A 59-byte frame followed by a stale 0xFF goes out ending in 0xFF instead of a zero pad byte. */
  lemma PaddingLeaksStaleByte()
    ensures var data := Repeat(0, 59) + [0xFF];
            PaddedFrameAsWritten(data, 59)[59] == 0xFF
  {
  }

  /** The frame as intended: short frames padded with zero bytes up to 60. */
  function PaddedFrame(data: seq<byte>, len: nat): (r: seq<byte>)
    requires len <= |data|
    ensures |r| == PaddedLength(len) && r[..len] == data[..len]
    ensures forall i :: len <= i < |r| ==> r[i] == 0
  {
    data[..len] + Repeat(0, PaddedLength(len) - len)
  }

  /** Frames of 60 bytes or more go out unchanged. */
  lemma LongFrameUnpadded(data: seq<byte>, len: nat)
    requires ETH_ZLEN <= len <= |data|
    ensures PaddedFrame(data, len) == data[..len]
  {
  }

  /** The 32 zero bytes of transmit metadata. */
  function ZeroMetadata(): (r: seq<byte>)
    ensures |r| == TX_METADATA_SIZE && forall i :: 0 <= i < |r| ==> r[i] == 0
  {
    Repeat(0, TX_METADATA_SIZE)
  }

  /** The padding step of `start_xmit`, zero-filled: a frame shorter than 60 bytes grows to 60. */
  method PadShortFrame(skb: Skb)
    requires skb.Valid()
    modifies skb
    ensures skb.Valid() && skb.len == PaddedLength(old(skb.len))
    ensures skb.data[..skb.len] == PaddedFrame(old(skb.data), old(skb.len))
  {
    var padding := if skb.len < ETH_ZLEN then ETH_ZLEN - skb.len else 0;
    var padded := PaddedFrame(skb.data, skb.len);
    skb.data := padded + (if |padded| <= |skb.data| then skb.data[|padded|..] else []);
    skb.len := skb.len + padding;
    assert skb.data[..skb.len] == padded;
  }

  /** `skb_push` of the metadata and its `memset`: 32 zero bytes in front of the frame. */
  method PushMetadata(skb: Skb)
    requires skb.Valid()
    modifies skb
    ensures skb.Valid() && skb.len == old(skb.len) + TX_METADATA_SIZE
    ensures skb.data[..skb.len] == ZeroMetadata() + old(skb.data)[..old(skb.len)]
  {
    skb.data := ZeroMetadata() + skb.data;
    skb.len := skb.len + TX_METADATA_SIZE;
    assert skb.data[..skb.len] == ZeroMetadata() + old(skb.data)[..old(skb.len)];
  }

  /** The register writes that hand the descriptor to the engine and start it. */
  method StartEngine(priv: XdmaPrivate) returns (writes: seq<RegWrite>)
    ensures writes == [Bar1Write(priv.sgdmaOffset + 0x80, Lo32(priv.busAddr)),
                       Bar1Write(priv.sgdmaOffset + 0x84, Hi32(priv.busAddr)),
                       Bar1Write(priv.sgdmaOffset + 0x84 + 4, 0),
                       EngineControlWrite(DMA_ENGINE_START)]
  {
    writes := [Bar1Write(priv.sgdmaOffset + 0x80, Lo32(priv.busAddr))];
    writes := writes + [Bar1Write(priv.sgdmaOffset + 0x84, Hi32(priv.busAddr))];
    writes := writes + [Bar1Write(priv.sgdmaOffset + 0x84 + 4, 0)];
    var w := XDMA_CTRL_RUN_STOP;
    w := w | XDMA_CTRL_IE_READ_ERROR;
    w := w | XDMA_CTRL_IE_DESC_ERROR;
    w := w | XDMA_CTRL_IE_DESC_ALIGN_MISMATCH;
    w := w | XDMA_CTRL_IE_MAGIC_STOPPED;
    w := w | XDMA_CTRL_IE_DESC_STOPPED;
    w := w | XDMA_CTRL_IE_DESC_COMPLETED;
    assert w as int == EngineControl();
    writes := writes + [EngineControlWrite(w as int)];
  }

  /**
   * `xdma_netdev_start_xmit(skb, ndev)` with the padding zero-filled: stops
   * the queue, pads a short frame to 60 bytes, drops a frame longer than the
   * DMA buffer (`bufferSize`, `XDMA_BUFFER_SIZE`) or one whose headroom
   * cannot be grown (`expandOk`), prepends 32 zero bytes of metadata, maps
   * the buffer (`dmaOk`, bus address `dmaAddr`), fills the descriptor and
   * starts the engine. `freed` says whether the buffer was released.
   */
  method StartXmit(priv: XdmaPrivate, skb: Skb, bufferSize: nat, expandOk: bool, dmaOk: bool, dmaAddr: u64)
    returns (rc: int, freed: bool, writes: seq<RegWrite>)
    requires skb.Valid()
    modifies priv, priv.desc, skb
    ensures priv.queueStopped && skb.Valid()
    ensures var padded := PaddedLength(old(skb.len));
            if padded > bufferSize || !expandOk then
              && rc == NETDEV_TX_OK && freed && writes == [] && priv.skb == old(priv.skb)
              && priv.dmaAddr == old(priv.dmaAddr) && unchanged(priv.desc)
            else
              && skb.len == TX_METADATA_SIZE + padded
              && skb.data[..skb.len] == ZeroMetadata() + PaddedFrame(old(skb.data), old(skb.len))
              && !freed
              && (!dmaOk ==>
                    && rc == NETDEV_TX_BUSY && writes == [] && priv.skb == old(priv.skb)
                    && priv.dmaAddr == old(priv.dmaAddr) && unchanged(priv.desc))
              && (dmaOk ==>
                    && rc == NETDEV_TX_OK && priv.skb == skb && priv.dmaAddr == dmaAddr
                    && priv.desc.control == DescControl() && priv.desc.bytes == U32(skb.len)
                    && priv.desc.srcAddrLo == Lo32(dmaAddr) && priv.desc.srcAddrHi == Hi32(dmaAddr)
                    && writes == [Bar1Write(priv.sgdmaOffset + 0x80, Lo32(priv.busAddr)),
                                  Bar1Write(priv.sgdmaOffset + 0x84, Hi32(priv.busAddr)),
                                  Bar1Write(priv.sgdmaOffset + 0x84 + 4, 0),
                                  EngineControlWrite(DMA_ENGINE_START)])
  {
    priv.queueStopped := true;
    PadShortFrame(skb);
    if skb.len > bufferSize {
      return NETDEV_TX_OK, true, [];
    }
    if !expandOk {
      return NETDEV_TX_OK, true, [];
    }
    PushMetadata(skb);
    if !dmaOk {
      return NETDEV_TX_BUSY, false, [];
    }
    priv.dmaAddr := dmaAddr;
    priv.skb := skb;
    priv.desc.DescSet(dmaAddr, U32(skb.len));
    writes := StartEngine(priv);
    freed := false;
    rc := NETDEV_TX_OK;
  }
}
