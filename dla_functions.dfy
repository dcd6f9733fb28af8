/**
 * Host side of the DLA board protocol: message encoders, the register
 * reply decoder, the USB transfer wrappers seen from their callers, the
 * segmentation loops that cut payloads into maximum-size messages, and the
 * register-group walks.
 *
 * Every USB call (`transfer_data_to_dla_board`,
 * `transceive_data_with_dla_board`, `FT_Write`) is represented by the
 * outcome the board link produced for it, passed in as a sequence with one
 * entry per call. The loops then return the messages they handed to the
 * link, so that their contracts can say exactly what was sent.
 */
module DlaFunctions {
  import opened Common
  import opened DlaBoard

  // ---------------------------------------------------------------------
  // Encoders. Each `fill_*` writes some fields of a caller's record; the
  // model returns the updated record and keeps every other field.
  // ---------------------------------------------------------------------

  /** `fill_board_message_header`: SOD bytes and destination; the length is kept. */
  function FillHeader(h: Header, d: Dest): (r: Header)
    ensures StartsWithSod(r) && HeaderBytes(r)[..2] == [SOD_LOW_BYTE, SOD_HIGH_BYTE]
    ensures r.dst == DestCode(d)
    ensures r.lenL == h.lenL && r.lenH == h.lenH
  {
    h.(sodL := SOD_LOW_BYTE, sodH := SOD_HIGH_BYTE, dst := DestCode(d))
  }

  /**
   * `fill_board_message_length`: the argument is an `unsigned short`; its low
   * nibble and next byte are stored, so bits above the twelfth are dropped.
   */
  function FillLength(h: Header, l: int): (r: Header)
    ensures r.sodL == h.sodL && r.sodH == h.sodH && r.dst == h.dst
  {
    var u := l % 0x1_0000;
    h.(lenL := u % 0x10, lenH := (u / 0x10) % 0x100)
  }

  /** The header announces the length modulo 2^12, and exactly any length that fits. */
  lemma FillLengthEncodes(h: Header, l: int)
    ensures Length(FillLength(h, l)) == l % 0x1000
    ensures 0 <= l <= MAX_BD_MSG_LEN ==> Length(FillLength(h, l)) == l
  {
    var q, u := l / 0x1_0000, l % 0x1_0000;
    var hi, lo := u / 0x10, u % 0x10;
    var t, h8 := hi / 0x100, hi % 0x100;
    DivModUnique(l, 0x1000, 0x10 * q + t, 0x10 * h8 + lo);
    if 0 <= l <= MAX_BD_MSG_LEN {
      DivModUnique(l, 0x1000, 0, l);
    }
  }

  /** A header whose first two bytes are the start-of-data marker. */
  predicate StartsWithSod(h: Header)
  {
    h.sodL == SOD_LOW_BYTE && h.sodH == SOD_HIGH_BYTE
  }

  /** Opcode chosen by the `o` flag of the register and memory encoders. */
  function OpFor(o: int): (op: bits2)
    ensures op == (if o != 0 then OPR_WR else OPR_RD)
  {
    if o != 0 then OPR_WR else OPR_RD
  }

  /**
   * `fill_registerVariable`: main-FPGA (MFRB) or control-FPGA (CFRB)
   * destination, length 8, op, the address cut 6+8 and, for a write only, the
   * data cut 8+8.
   */
  function FillRegister(v: RegMsg, o: int, f: int, a: int, d: int): (r: RegMsg)
    ensures StartsWithSod(r.hdr)
    ensures r.hdr.dst == (if f != 0 then DestCode(MFRB) else DestCode(CFRB))
    ensures r.op == OpFor(o)
    ensures o == 0 ==> r.rDataL == v.rDataL && r.rDataH == v.rDataH
  {
    var hdr := FillLength(FillHeader(v.hdr, if f != 0 then MFRB else CFRB), REG_MSG_SIZE);
    var r := v.(hdr := hdr, op := OpFor(o), rAddrL := a % 0x40, rAddrH := (a / 0x40) % 0x100);
    if o != 0 then r.(rDataL := d % 0x100, rDataH := (d / 0x100) % 0x100) else r
  }

  /**
   * What the board reads back from a filled register message: length 8, the
   * address modulo 2^14 and, for a write, the data modulo 2^16.
   */
  lemma FillRegisterEncodes(v: RegMsg, o: int, f: int, a: int, d: int)
    ensures Length(FillRegister(v, o, f, a, d).hdr) == REG_MSG_SIZE
    ensures DecodeAddress(FillRegister(v, o, f, a, d)) == a % 0x4000
    ensures o != 0 ==> DecodeData(FillRegister(v, o, f, a, d)) == d % 0x1_0000
  {
    FillLengthEncodes(FillHeader(v.hdr, if f != 0 then MFRB else CFRB), REG_MSG_SIZE);
    var r := FillRegister(v, o, f, a, d);
    SplitAddress(r, a);
    if o != 0 {
      SplitData(r, d);
    }
  }

  lemma SplitAddress(m: RegMsg, a: int)
    requires m.rAddrL == a % 0x40 && m.rAddrH == (a / 0x40) % 0x100
    ensures DecodeAddress(m) == a % 0x4000
  {
    var q, lo := a / 0x40, a % 0x40;
    var t, h := q / 0x100, q % 0x100;
    DivModUnique(h * 0x40, 0x4000, 0, h * 0x40);
    DivModUnique(lo, 0x40, 0, lo);
    DivModUnique(a, 0x4000, t, h * 0x40 + lo);
  }

  lemma SplitData(m: RegMsg, d: int)
    requires m.rDataL == d % 0x100 && m.rDataH == (d / 0x100) % 0x100
    ensures DecodeData(m) == d % 0x1_0000
  {
    var q, lo := d / 0x100, d % 0x100;
    var t, h := q / 0x100, q % 0x100;
    DivModUnique(h * 0x100, 0x1_0000, 0, h * 0x100);
    DivModUnique(lo, 0x100, 0, lo);
    DivModUnique(d, 0x1_0000, t, h * 0x100 + lo);
  }

  /** The decode in `read_register`: `((rAddrH << 6) & 0x3FC0) + (rAddrL & 0x3F)`. */
  function DecodeAddress(m: RegMsg): (a: nat)
    ensures a < 0x4000
  {
    ((m.rAddrH * 0x40) % 0x4000) + m.rAddrL % 0x40
  }

  /** The decode in `read_register`: `((rDataH << 8) & 0xFF00) + (rDataL & 0xFF)`. */
  function DecodeData(m: RegMsg): (d: nat)
    ensures d < 0x1_0000
  {
    ((m.rDataH * 0x100) % 0x1_0000) + m.rDataL % 0x100
  }

  /**
   * `fill_memoryVariable`: MIB destination, op, the 32-bit address in four
   * bytes, the payload copied only for a write, and length 4 + 5 + len.
   */
  function FillMemory(v: MibMsg, o: int, a: int, len: int, buf: seq<byte>): (r: MibMsg)
    requires o != 0 ==> 0 <= len <= |buf| && len <= |v.data|
    ensures StartsWithSod(r.hdr) && r.hdr.dst == DestCode(MIB)
    ensures r.op == OpFor(o) && r.rsv == v.rsv
    ensures o != 0 ==> r.data == buf[..len] + v.data[len..]
    ensures o == 0 ==> r.data == v.data
  {
    var hdr := FillLength(FillHeader(v.hdr, MIB), HDR_SIZE + MIB_PREFIX_LEN + len);
    var r := v.(hdr := hdr, op := OpFor(o),
                mAddrL := ByteOf(a, 0), mAddrM := ByteOf(a, 1),
                mAddrH := ByteOf(a, 2), mAddrT := ByteOf(a, 3));
    if o != 0 then r.(data := buf[..len] + v.data[len..]) else r
  }

  /** A memory message carries the address modulo 2^32 and announces 4 + 5 + len bytes. */
  lemma FillMemoryEncodes(v: MibMsg, o: int, a: int, len: int, buf: seq<byte>)
    requires o != 0 ==> 0 <= len <= |buf| && len <= |v.data|
    ensures MemoryAddress(FillMemory(v, o, a, len, buf)) == a % TWO_32
    ensures Length(FillMemory(v, o, a, len, buf).hdr) == (HDR_SIZE + MIB_PREFIX_LEN + len) % 0x1000
    ensures 0 <= len <= MAX_MIB_DATA_LEN ==> Length(FillMemory(v, o, a, len, buf).hdr) == HDR_SIZE + MIB_PREFIX_LEN + len
  {
    SplitWord(a);
    FillLengthEncodes(FillHeader(v.hdr, MIB), HDR_SIZE + MIB_PREFIX_LEN + len);
  }

  /** The 32-bit address a memory message carries, low byte first. */
  function MemoryAddress(m: MibMsg): (a: nat)
    ensures a < TWO_32
  {
    m.mAddrL + 0x100 * m.mAddrM + 0x1_0000 * m.mAddrH + 0x100_0000 * m.mAddrT
  }

  lemma SplitWord(a: int)
    ensures ByteOf(a, 0) + 0x100 * ByteOf(a, 1) + 0x1_0000 * ByteOf(a, 2) + 0x100_0000 * ByteOf(a, 3)
            == a % TWO_32
  {
    var q1, r0 := a / 0x100, a % 0x100;
    var q2, r1 := q1 / 0x100, q1 % 0x100;
    var q3, r2 := q2 / 0x100, q2 % 0x100;
    var q4, r3 := q3 / 0x100, q3 % 0x100;
    assert ByteOf(a, 1) == ByteOf(q1, 0) == r1;
    assert ByteOf(a, 2) == ByteOf(q1, 1) == ByteOf(q2, 0) == r2;
    assert ByteOf(a, 3) == ByteOf(q1, 2) == ByteOf(q2, 1) == ByteOf(q3, 0) == r3;
    DivModUnique(a, TWO_32, q4, 0x100_0000 * r3 + 0x1_0000 * r2 + 0x100 * r1 + r0);
  }

  /** `fill_engineVariable`: DLA destination, `len` payload bytes, and always length 4 + 120. */
  function FillEngine(v: DlabMsg, len: int, buf: seq<byte>): (r: DlabMsg)
    requires 0 <= len <= |buf| && len <= |v.data|
    ensures StartsWithSod(r.hdr) && r.hdr.dst == DestCode(DLA)
    ensures r.data == buf[..len] + v.data[len..]
  {
    v.(hdr := FillLength(FillHeader(v.hdr, DLA), HDR_SIZE + MAX_DLAB_TX_MSG_LEN),
       data := buf[..len] + v.data[len..])
  }

  /** An engine message always announces a full 4 + 120 bytes, however short the payload. */
  lemma FillEngineEncodes(v: DlabMsg, len: int, buf: seq<byte>)
    requires 0 <= len <= |buf| && len <= |v.data|
    ensures Length(FillEngine(v, len, buf).hdr) == HDR_SIZE + MAX_DLAB_TX_MSG_LEN
  {
    FillLengthEncodes(FillHeader(v.hdr, DLA), HDR_SIZE + MAX_DLAB_TX_MSG_LEN);
  }

  /** `fill_scmbVariable`: SMCB destination, `len` words, length 4 + 4 * len. */
  function FillScmb(v: SmcbMsg, len: int, buf: seq<u32>): (r: SmcbMsg)
    requires 0 <= len <= |buf| && len <= |v.data|
    ensures StartsWithSod(r.hdr) && r.hdr.dst == DestCode(SMCB)
    ensures r.data == buf[..len] + v.data[len..]
  {
    v.(hdr := FillLength(FillHeader(v.hdr, SMCB), HDR_SIZE + 4 * len),
       data := buf[..len] + v.data[len..])
  }

  /** A configuration message announces 4 + 4 * len bytes modulo 2^12. */
  lemma FillScmbEncodes(v: SmcbMsg, len: int, buf: seq<u32>)
    requires 0 <= len <= |buf| && len <= |v.data|
    ensures Length(FillScmb(v, len, buf).hdr) == (HDR_SIZE + 4 * len) % 0x1000
  {
    FillLengthEncodes(FillHeader(v.hdr, SMCB), HDR_SIZE + 4 * len);
  }

  // ---------------------------------------------------------------------
  // Segmentation. `do_memory`, `do_engine`, `preTransferConfigData` and
  // `transferConfigData` all run `while (l > 0) { seg = l >= MAX ? MAX : l;
  // ...; l -= seg; }`. Chunk `k` of that loop starts `k * max` units into
  // the payload and is `ChunkLen(total, max, k)` units long.
  // ---------------------------------------------------------------------

  /** Number of turns of the chunk loop: ceil(total / max) for a positive total. */
  function NumChunks(total: int, max: nat): nat
    requires max > 0
  {
    if total <= 0 then 0 else (total + max - 1) / max
  }

  /** Chunk `k` exists exactly when it starts before the end of the payload. */
  lemma ChunkIndex(total: int, max: nat, k: nat)
    requires max > 0
    ensures k < NumChunks(total, max) <==> k * max < total
  {
    if total > 0 {
      var n := NumChunks(total, max);
      var r := (total + max - 1) % max;
      assert total + max - 1 == n * max + r;
      if k < n {
        MulMono(k + 1, n, max);
      } else {
        MulMono(n, k, max);
      }
    }
  }

  /** `seg` in turn `k`: `max`, or what is left of the payload if that is less. */
  function ChunkLen(total: int, max: nat, k: nat): (n: nat)
    requires max > 0 && k < NumChunks(total, max)
    ensures 0 < n <= max && k * max + n <= total
    ensures n < max ==> k == NumChunks(total, max) - 1
  {
    ChunkIndex(total, max, k);
    ChunkIndex(total, max, k + 1);
    if total - k * max >= max then max else total - k * max
  }

  /** Units sent before turn `k`: `k * max`, capped at the payload size. */
  function Covered(total: int, max: nat, k: nat): (c: nat)
    ensures c <= (if total < 0 then 0 else total)
    ensures k * max <= total ==> c == k * max
  {
    if total <= k * max then (if total < 0 then 0 else total) else k * max
  }

  /** One turn of the chunk loop advances the covered prefix by the chunk. */
  lemma CoveredStep(total: int, max: nat, k: nat)
    requires max > 0 && k < NumChunks(total, max)
    ensures Covered(total, max, k) == k * max
    ensures Covered(total, max, k + 1) == k * max + ChunkLen(total, max, k)
  {
    ChunkIndex(total, max, k);
    assert (k + 1) * max == k * max + max;
  }

  /** The covered prefix is the whole payload once the loop is done. */
  lemma CoveredAll(total: int, max: nat)
    requires max > 0
    ensures Covered(total, max, NumChunks(total, max)) == (if total < 0 then 0 else total)
  {
    ChunkIndex(total, max, NumChunks(total, max));
  }

  /**
   * The chunks tile the payload: every unit `i` of it lies in chunk
   * `i / max`, at position `i % max` of that chunk.
   */
  lemma ChunksCover(total: int, max: nat, i: nat)
    requires max > 0 && i < total
    ensures i / max < NumChunks(total, max)
    ensures (i / max) * max + i % max == i
    ensures i % max < ChunkLen(total, max, i / max)
  {
    ChunkIndex(total, max, i / max);
  }

  /** The loop exits exactly after the last chunk. */
  lemma ChunkLoop(total: int, max: nat, k: nat, l: int)
    requires max > 0 && k <= NumChunks(total, max)
    requires l == total - Covered(total, max, k)
    ensures l > 0 <==> k < NumChunks(total, max)
    ensures k < NumChunks(total, max) ==> ChunkLen(total, max, k) == (if l >= max then max else l)
  {
    ChunkIndex(total, max, k);
    if k < NumChunks(total, max) {
      CoveredStep(total, max, k);
    } else if total > 0 {
      CoveredAll(total, max);
    }
  }

  /** Index of the first `false` among `ok[from..n]`, or `n` when there is none. */
  function FirstFailure(ok: seq<bool>, from: nat, n: nat): (f: nat)
    requires from <= n <= |ok|
    ensures from <= f <= n
    ensures forall j :: from <= j < f ==> ok[j]
    ensures f < n ==> !ok[f]
    decreases n - from
  {
    if from == n then n else if !ok[from] then from else FirstFailure(ok, from + 1, n)
  }

  /** `FirstFailure` is pinned down by its contract. */
  lemma {:induction false} FirstFailureIs(ok: seq<bool>, from: nat, n: nat, f: nat)
    requires from <= f <= n <= |ok|
    requires forall j :: from <= j < f ==> ok[j]
    requires f < n ==> !ok[f]
    ensures FirstFailure(ok, from, n) == f
    decreases f - from
  {
    if from < f {
      FirstFailureIs(ok, from + 1, n, f);
    }
  }

  /** A failure at turn `k`, after `k` successes, is the first one: `k + 1` transfers went out. */
  lemma FailedAt(ok: seq<bool>, n: nat, k: nat)
    requires k < n <= |ok| && k <= FirstFailure(ok, 0, n) && !ok[k]
    ensures FirstFailure(ok, 0, n) == k && Sent(ok, n) == k + 1
  {
  }

  /** No failure among the first `n` turns: all `n` transfers went out. */
  lemma NoFailure(ok: seq<bool>, n: nat)
    requires n <= |ok| && n <= FirstFailure(ok, 0, n)
    ensures FirstFailure(ok, 0, n) == n && Sent(ok, n) == n
  {
  }

  // ---------------------------------------------------------------------
  // The USB transfer wrappers, seen from their callers.
  // ---------------------------------------------------------------------

  /** The FTDI port index used by a transfer: a valid index 0..16 is kept, anything else falls back to 0. */
  function NormalisePort(p: int): (r: nat)
    ensures r <= 16
    ensures r == p <==> 0 <= p <= 16
    ensures r != p ==> r == 0
  {
    if p < 0 || p > 16 then 0 else p
  }

  /** The baud rate used by a transfer: a rate is kept exactly when it is not negative, else 9600. */
  function NormaliseBaud(br: int): (r: nat)
    ensures r == br <==> br >= 0
    ensures r != br ==> r == 9600
  {
    if br < 0 then 9600 else br
  }

  /**
   * What the D2XX calls made by one `transceive_data_with_dla_board`
   * returned: whether the port opened and took the baud rate, the byte count
   * `FT_Write` reported (`None` for a failed status), the receive-queue count
   * when the wait ended (`None` for a timeout or a failed queue query) and
   * the bytes `FT_Read` delivered (`None` for a failed status).
   */
  datatype TransceiveLink = TransceiveLink(portOpen: bool, baudSet: bool, written: Option<nat>,
                                           queued: Option<nat>, read: Option<seq<byte>>)

  /** Port and baud rate a successful transfer used, and the bytes it received. */
  datatype Session = Session(port: nat, baud: nat, data: seq<byte>)

  /**
   * `check_readBuffer_FTDI`: the wait ends without error only once the
   * queue holds at least `rL` bytes.
   */
  predicate QueueFilled(queued: Option<nat>, rL: nat)
  {
    queued.Some? && queued.value >= rL
  }

  /**
   * `transceive_data_with_dla_board`: a session only when the port opens,
   * takes the baud rate, accepts all `tL` bytes, the queue fills to `rL`
   * bytes and the read returns the clamped count, which is then exactly `rL`.
   */
  function Transceive(p: int, br: int, tL: nat, rL: nat, link: TransceiveLink): (r: Option<Session>)
    ensures r.Some? <==> link.portOpen && link.baudSet && link.written == Some(tL)
                         && QueueFilled(link.queued, rL) && link.read.Some? && |link.read.value| == rL
    ensures r.Some? ==> r.value.port == NormalisePort(p) && r.value.baud == NormaliseBaud(br)
    ensures r.Some? ==> r.value.data == link.read.value && |r.value.data| == rL
  {
    if !link.portOpen || !link.baudSet || link.written != Some(tL) then None
    else if !QueueFilled(link.queued, rL) then None
    else
      var n := link.queued.value;
      var size := if n > rL then rL else n;
      if link.read.None? || |link.read.value| != size then None
      else Some(Session(NormalisePort(p), NormaliseBaud(br), link.read.value))
  }

  /**
   * The reply `read_register` works on: the eight bytes of a successful
   * eight-byte transceive, or nothing.
   */
  function RegisterReply(p: int, br: int, link: TransceiveLink): (reply: RegReply)
    ensures reply.Some? <==> Transceive(p, br, REG_MSG_SIZE, REG_MSG_SIZE, link).Some?
    ensures reply.Some? ==> reply.value == link.read.value
  {
    match Transceive(p, br, REG_MSG_SIZE, REG_MSG_SIZE, link)
    case None => None
    case Some(s) => Some(s.data)
  }

  /**
   * A board that sends fewer than eight bytes before the wait gives up, or
   * a read that delivers fewer than eight, fails the register read: -1, and
   * nothing is stored.
   */
  lemma ShortReplyFails(addr: int, p: int, br: int, link: TransceiveLink)
    requires !QueueFilled(link.queued, REG_MSG_SIZE) || (link.read.Some? && |link.read.value| < REG_MSG_SIZE)
    ensures ReadRegister(addr, RegisterReply(p, br, link)) == RegisterRead(-1, None)
  {
  }

  /** What the D2XX calls made by one `transfer_data_to_dla_board` returned. */
  datatype TransferLink = TransferLink(portOpen: bool, configured: bool, written: Option<nat>)

  /** `transfer_data_to_dla_board`: success only when all `len` bytes were written. */
  function Transfer(portNum: int, len: nat, baudRate: int, link: TransferLink): (r: Option<Session>)
    ensures r.Some? <==> link.portOpen && link.configured && link.written == Some(len)
    ensures r.Some? ==> r.value.port == NormalisePort(portNum) && r.value.baud == NormaliseBaud(baudRate)
    ensures r.Some? ==> r.value.data == []
  {
    if link.portOpen && link.configured && link.written == Some(len) then
      Some(Session(NormalisePort(portNum), NormaliseBaud(baudRate), []))
    else None
  }

  // ---------------------------------------------------------------------
  // do_memory
  // ---------------------------------------------------------------------

  /** One memory-block call: the request and the byte counts given to the link. */
  datatype MemTransfer = MemTransfer(msg: MibMsg, txLen: nat, rxLen: nat)

  /**
   * The `k`-th call of `do_memory`: the request for chunk `k` at address
   * `addr + k * 4086`, with the write payload taken from that offset.
   */
  function MemoryCall(rw: int, addr: int, len: int, k: nat, data: seq<byte>): MemTransfer
    requires k < NumChunks(len, MAX_MIB_DATA_LEN) && len <= |data|
  {
    var off := k * MAX_MIB_DATA_LEN;
    var seg := ChunkLen(len, MAX_MIB_DATA_LEN, k);
    MemoryTransfer(rw, FillMemory(ZeroMibMsg, rw, addr + off, seg, data[off..]), seg)
  }

  /** The first `k` calls of `do_memory`, in order. */
  function MemoryCalls(rw: int, addr: int, len: int, k: nat, data: seq<byte>): (c: seq<MemTransfer>)
    requires k <= NumChunks(len, MAX_MIB_DATA_LEN) && len <= |data|
    ensures |c| == k
  {
    seq(k, j requires 0 <= j < k => MemoryCall(rw, addr, len, j, data))
  }

  /** Call `j` in the list is the request for chunk `j`. */
  lemma {:induction false} MemoryCallsAt(rw: int, addr: int, len: int, k: nat, data: seq<byte>, j: nat)
    requires k <= NumChunks(len, MAX_MIB_DATA_LEN) && len <= |data| && j < k
    ensures MemoryCalls(rw, addr, len, k, data)[j] == MemoryCall(rw, addr, len, j, data)
  {
    if j < k - 1 {
      MemoryCallsAt(rw, addr, len, k - 1, data, j);
    }
  }

  /** Byte counts of one memory call: a write sends the chunk, a read asks for it back. */
  function MemoryTransfer(rw: int, msg: MibMsg, seg: nat): (t: MemTransfer)
    ensures t.msg == msg
    ensures rw != 0 ==> t.txLen == HDR_SIZE + MIB_PREFIX_LEN + seg && t.rxLen == 0
    ensures rw == 0 ==> t.txLen == HDR_SIZE + MIB_PREFIX_LEN && t.rxLen == HDR_SIZE + MIB_PREFIX_LEN + seg
  {
    if rw != 0 then MemTransfer(msg, HDR_SIZE + MIB_PREFIX_LEN + seg, 0)
    else MemTransfer(msg, HDR_SIZE + MIB_PREFIX_LEN, HDR_SIZE + MIB_PREFIX_LEN + seg)
  }

  /** What a read gathers from its first `k` replies: chunk `j` of the data is the head of reply `j`. */
  function MemoryGathered(len: int, replies: seq<MibFrame>, k: nat): (g: seq<byte>)
    requires k <= NumChunks(len, MAX_MIB_DATA_LEN) && k <= |replies|
    ensures |g| == Covered(len, MAX_MIB_DATA_LEN, k)
  {
    if k == 0 then []
    else
      var seg := ChunkLen(len, MAX_MIB_DATA_LEN, k - 1);
      CoveredStep(len, MAX_MIB_DATA_LEN, k - 1);
      MemoryGathered(len, replies, k - 1) + replies[k - 1].data[..seg]
  }

  /** Byte `i` of chunk `j` of the gathered data is byte `i` of reply `j`. */
  lemma {:induction false} MemoryGatheredChunk(len: int, replies: seq<MibFrame>, k: nat, j: nat, i: nat)
    requires k <= NumChunks(len, MAX_MIB_DATA_LEN) && k <= |replies|
    requires j < k && i < ChunkLen(len, MAX_MIB_DATA_LEN, j)
    ensures j * MAX_MIB_DATA_LEN + i < Covered(len, MAX_MIB_DATA_LEN, k)
    ensures MemoryGathered(len, replies, k)[j * MAX_MIB_DATA_LEN + i] == replies[j].data[i]
  {
    CoveredStep(len, MAX_MIB_DATA_LEN, k - 1);
    if j < k - 1 {
      MemoryGatheredChunk(len, replies, k - 1, j, i);
      CoveredStep(len, MAX_MIB_DATA_LEN, j);
      MulMono(j + 1, k - 1, MAX_MIB_DATA_LEN);
    }
  }

  /**
   * What the `k`-th memory call carries: address `addr` plus the bytes
   * before the chunk (mod 2^32), a header length of 4 + 5 + seg for a read
   * and a write alike, a chunk of at most 4086 bytes, and the chunk's bytes
   * for a write only.
   */
  lemma MemoryCallFacts(rw: int, addr: int, len: int, k: nat, data: seq<byte>)
    requires k < NumChunks(len, MAX_MIB_DATA_LEN) && len <= |data|
    ensures 0 < ChunkLen(len, MAX_MIB_DATA_LEN, k) <= MAX_MIB_DATA_LEN
    ensures Covered(len, MAX_MIB_DATA_LEN, k) + ChunkLen(len, MAX_MIB_DATA_LEN, k) <= len
    ensures MemoryAddress(MemoryCall(rw, addr, len, k, data).msg) == (addr + Covered(len, MAX_MIB_DATA_LEN, k)) % TWO_32
    ensures Length(MemoryCall(rw, addr, len, k, data).msg.hdr) == HDR_SIZE + MIB_PREFIX_LEN + ChunkLen(len, MAX_MIB_DATA_LEN, k)
    ensures MemoryCall(rw, addr, len, k, data).msg.op == OpFor(rw)
    ensures rw != 0 ==> MemoryCall(rw, addr, len, k, data).msg.data[..ChunkLen(len, MAX_MIB_DATA_LEN, k)]
                        == data[Covered(len, MAX_MIB_DATA_LEN, k)..Covered(len, MAX_MIB_DATA_LEN, k) + ChunkLen(len, MAX_MIB_DATA_LEN, k)]
    ensures rw == 0 ==> MemoryCall(rw, addr, len, k, data).msg.data == ZeroMibMsg.data
  {
    CoveredStep(len, MAX_MIB_DATA_LEN, k);
    var off := k * MAX_MIB_DATA_LEN;
    var seg := ChunkLen(len, MAX_MIB_DATA_LEN, k);
    FillMemoryEncodes(ZeroMibMsg, rw, addr + off, seg, data[off..]);
    if rw != 0 {
      var m := FillMemory(ZeroMibMsg, rw, addr + off, seg, data[off..]);
      assert m.data[..seg] == data[off..][..seg];
    }
  }

  /** Number of calls a chunk loop makes: up to and including the first failure. */
  function Sent(ok: seq<bool>, n: nat): (c: nat)
    requires n <= |ok|
  {
    var f := FirstFailure(ok, 0, n);
    if f < n then f + 1 else f
  }

  /**
   * The buffer after `k` successful turns: a read has replaced the first
   * `Covered` bytes with the gathered reply data; a write leaves it alone.
   */
  function MemoryImage(rw: int, len: int, replies: seq<MibFrame>, k: nat, data: seq<byte>): (img: seq<byte>)
    requires k <= NumChunks(len, MAX_MIB_DATA_LEN) && k <= |replies| && len <= |data|
    ensures |img| == |data|
    ensures img[Covered(len, MAX_MIB_DATA_LEN, k)..] == data[Covered(len, MAX_MIB_DATA_LEN, k)..]
  {
    if rw != 0 then data
    else MemoryGathered(len, replies, k) + data[Covered(len, MAX_MIB_DATA_LEN, k)..]
  }

  /**
   * `do_memory`. Calls the link once per chunk of at most 4086 bytes and
   * stops with -1 at the first failed call. A write sends chunk `k` of the
   * buffer to address `addr + k * 4086`; a read copies the first `seg` data
   * bytes of each successful reply to the same position of the buffer and
   * leaves the rest of the buffer alone.
   */
  method DoMemory(rw: int, addr: int, len: int, buf: array<byte>, ok: seq<bool>, replies: seq<MibFrame>)
    returns (rc: int, sent: seq<MemTransfer>)
    requires len <= buf.Length
    requires NumChunks(len, MAX_MIB_DATA_LEN) <= |ok| && NumChunks(len, MAX_MIB_DATA_LEN) <= |replies|
    modifies buf
    ensures rc == 0 || rc == -1
    ensures rc == 0 <==> FirstFailure(ok, 0, NumChunks(len, MAX_MIB_DATA_LEN)) == NumChunks(len, MAX_MIB_DATA_LEN)
    ensures sent == MemoryCalls(rw, addr, len, Sent(ok, NumChunks(len, MAX_MIB_DATA_LEN)), old(buf[..]))
    ensures buf[..] == MemoryImage(rw, len, replies, FirstFailure(ok, 0, NumChunks(len, MAX_MIB_DATA_LEN)), old(buf[..]))
  {
    ghost var n := NumChunks(len, MAX_MIB_DATA_LEN);
    ghost var data := buf[..];
    var l, s, pos := len, addr, 0;
    var k := 0;
    sent := [];
    while l > 0
      invariant 0 <= k <= n && pos == Covered(len, MAX_MIB_DATA_LEN, k) && s == addr + pos
      invariant l == len - pos
      invariant forall j :: 0 <= j < k ==> ok[j]
      invariant sent == MemoryCalls(rw, addr, len, k, data)
      invariant buf[..] == MemoryImage(rw, len, replies, k, data)
      decreases l
    {
      ChunkLoop(len, MAX_MIB_DATA_LEN, k, l);
      var t, seg := MemoryStep(rw, addr, len, buf, replies, k, l, s, pos, ok[k], data, sent);
      sent := sent + [t];
      if !ok[k] {
        MemoryLoopEnd(rw, len, replies, ok, n, k, data);
        return -1, sent;
      }
      l, s, pos := l - seg, s + seg, pos + seg;
      k := k + 1;
    }
    ChunkLoop(len, MAX_MIB_DATA_LEN, k, l);
    MemoryLoopEnd(rw, len, replies, ok, n, k, data);
    rc := 0;
  }

  /**
   * One turn of `do_memory`: the request for chunk `k` and, when the call
   * succeeds on a read, its reply copied into the buffer.
   */
  method MemoryStep(rw: int, addr: int, len: int, buf: array<byte>, replies: seq<MibFrame>,
                    k: nat, l: int, s: int, pos: nat, ok: bool, ghost data: seq<byte>, ghost sent: seq<MemTransfer>)
    returns (t: MemTransfer, seg: nat)
    requires k < NumChunks(len, MAX_MIB_DATA_LEN) && k < |replies| && len <= |data| && |data| == buf.Length
    requires pos == Covered(len, MAX_MIB_DATA_LEN, k) && l == len - pos && s == addr + pos
    requires ChunkLen(len, MAX_MIB_DATA_LEN, k) == (if l >= MAX_MIB_DATA_LEN then MAX_MIB_DATA_LEN else l)
    requires sent == MemoryCalls(rw, addr, len, k, data)
    requires buf[..] == MemoryImage(rw, len, replies, k, data)
    modifies buf
    ensures sent + [t] == MemoryCalls(rw, addr, len, k + 1, data)
    ensures seg == (if l >= MAX_MIB_DATA_LEN then MAX_MIB_DATA_LEN else l)
    ensures pos + seg == Covered(len, MAX_MIB_DATA_LEN, k + 1)
    ensures ok ==> buf[..] == MemoryImage(rw, len, replies, k + 1, data)
    ensures !ok ==> buf[..] == old(buf[..])
  {
    CoveredStep(len, MAX_MIB_DATA_LEN, k);
    seg := if l >= MAX_MIB_DATA_LEN then MAX_MIB_DATA_LEN else l;
    t := MemoryTurn(rw, addr, len, k, s, seg, buf[pos..], data, sent);
    if ok && rw == 0 {
      StoreReply(buf, len, replies, k, pos, data);
    }
  }

  /**
   * The loop ends at turn `k`, after `k` successes, either on a failure or
   * with every chunk done: the image so far is the one the contract names.
   */
  lemma MemoryLoopEnd(rw: int, len: int, replies: seq<MibFrame>, ok: seq<bool>, n: nat, k: nat, data: seq<byte>)
    requires n == NumChunks(len, MAX_MIB_DATA_LEN) && n <= |ok| && n <= |replies| && len <= |data|
    requires k <= n && (forall j :: 0 <= j < k ==> ok[j]) && (k < n ==> !ok[k])
    ensures FirstFailure(ok, 0, n) == k
    ensures Sent(ok, n) == (if k < n then k + 1 else k)
    ensures MemoryImage(rw, len, replies, FirstFailure(ok, 0, n), data) == MemoryImage(rw, len, replies, k, data)
  {
    FirstFailureIs(ok, 0, n, k);
  }

  /** The request of one turn: fill the message for chunk `k` and size the transfer. */
  method MemoryTurn(rw: int, addr: int, len: int, k: nat, s: int, seg: nat, b: seq<byte>,
                    ghost data: seq<byte>, ghost sent: seq<MemTransfer>)
    returns (t: MemTransfer)
    requires k < NumChunks(len, MAX_MIB_DATA_LEN) && len <= |data|
    requires s == addr + k * MAX_MIB_DATA_LEN && seg == ChunkLen(len, MAX_MIB_DATA_LEN, k)
    requires b == data[k * MAX_MIB_DATA_LEN..]
    requires sent == MemoryCalls(rw, addr, len, k, data)
    ensures sent + [t] == MemoryCalls(rw, addr, len, k + 1, data)
  {
    var msg := FillMemory(ZeroMibMsg, rw, s, seg, b);
    t := MemoryTransfer(rw, msg, seg);
  }

  /** The read path of one turn: reply `k`'s chunk lands right after the data gathered so far. */
  method StoreReply(buf: array<byte>, len: int, replies: seq<MibFrame>, k: nat, pos: nat, ghost data: seq<byte>)
    requires k < NumChunks(len, MAX_MIB_DATA_LEN) && k < |replies| && len <= |data|
    requires pos == Covered(len, MAX_MIB_DATA_LEN, k) && buf[..] == MemoryImage(0, len, replies, k, data)
    modifies buf
    ensures buf[..] == MemoryImage(0, len, replies, k + 1, data)
  {
    CoveredStep(len, MAX_MIB_DATA_LEN, k);
    var seg := ChunkLen(len, MAX_MIB_DATA_LEN, k);
    CopyChunk(buf, pos, replies[k].data[..seg]);
    MemoryImageStep(len, replies, k, data);
  }

  /** One more read turn splices reply `k`'s chunk into the image. */
  lemma MemoryImageStep(len: int, replies: seq<MibFrame>, k: nat, data: seq<byte>)
    requires k < NumChunks(len, MAX_MIB_DATA_LEN) && k < |replies| && len <= |data|
    ensures Covered(len, MAX_MIB_DATA_LEN, k) + ChunkLen(len, MAX_MIB_DATA_LEN, k) <= |data|
    ensures MemoryImage(0, len, replies, k + 1, data)
         == Splice(MemoryImage(0, len, replies, k, data), Covered(len, MAX_MIB_DATA_LEN, k),
                   replies[k].data[..ChunkLen(len, MAX_MIB_DATA_LEN, k)])
  {
    CoveredStep(len, MAX_MIB_DATA_LEN, k);
    var c := Covered(len, MAX_MIB_DATA_LEN, k);
    var seg := ChunkLen(len, MAX_MIB_DATA_LEN, k);
    var g := MemoryGathered(len, replies, k);
    var x := replies[k].data[..seg];
    var img := MemoryImage(0, len, replies, k, data);
    assert img == g + data[c..];
    assert img[..c] == g;
    assert img[c + seg..] == data[c + seg..];
  }

  /** `a` with `x` written over it from `pos`. */
  function Splice<T>(a: seq<T>, pos: nat, x: seq<T>): (r: seq<T>)
    requires pos + |x| <= |a|
    ensures |r| == |a|
  {
    a[..pos] + x + a[pos + |x|..]
  }

  /** Copies `src` into `buf` at `pos`; nothing else changes. */
  method CopyChunk(buf: array<byte>, pos: nat, src: seq<byte>)
    requires pos + |src| <= buf.Length
    modifies buf
    ensures buf[..] == Splice(old(buf[..]), pos, src)
  {
    forall i | pos <= i < pos + |src| {
      buf[i] := src[i - pos];
    }
    assert buf[..] == Splice(old(buf[..]), pos, src);
  }

  // ---------------------------------------------------------------------
  // do_engine
  // ---------------------------------------------------------------------

  /**
   * The `k`-th request of `do_engine`: chunk `k` of the plaintext, at most
   * 120 bytes, in an otherwise zero message.
   */
  function EngineCall(ws: int, k: nat, wb: seq<byte>): DlabMsg
    requires k < NumChunks(ws, MAX_DLAB_TX_MSG_LEN) && ws <= |wb|
  {
    var off := k * MAX_DLAB_TX_MSG_LEN;
    FillEngine(ZeroDlabTxMsg, ChunkLen(ws, MAX_DLAB_TX_MSG_LEN, k), wb[off..])
  }

  /** The first `k` requests of `do_engine`, in order. */
  function EngineCalls(ws: int, k: nat, wb: seq<byte>): (c: seq<DlabMsg>)
    requires k <= NumChunks(ws, MAX_DLAB_TX_MSG_LEN) && ws <= |wb|
    ensures |c| == k
  {
    seq(k, j requires 0 <= j < k => EngineCall(ws, j, wb))
  }

  /**
   * Every engine request announces the full 4 + 120 bytes, whatever the
   * size of its chunk, and carries the chunk's plaintext at its head.
   */
  lemma EngineCallFacts(ws: int, k: nat, wb: seq<byte>)
    requires k < NumChunks(ws, MAX_DLAB_TX_MSG_LEN) && ws <= |wb|
    ensures Length(EngineCall(ws, k, wb).hdr) == HDR_SIZE + MAX_DLAB_TX_MSG_LEN
    ensures StartsWithSod(EngineCall(ws, k, wb).hdr) && EngineCall(ws, k, wb).hdr.dst == DestCode(DLA)
    ensures EngineCall(ws, k, wb).data[..ChunkLen(ws, MAX_DLAB_TX_MSG_LEN, k)]
            == wb[k * MAX_DLAB_TX_MSG_LEN..k * MAX_DLAB_TX_MSG_LEN + ChunkLen(ws, MAX_DLAB_TX_MSG_LEN, k)]
  {
    CoveredStep(ws, MAX_DLAB_TX_MSG_LEN, k);
    var off := k * MAX_DLAB_TX_MSG_LEN;
    var seg := ChunkLen(ws, MAX_DLAB_TX_MSG_LEN, k);
    FillEngineEncodes(ZeroDlabTxMsg, seg, wb[off..]);
    assert EngineCall(ws, k, wb).data[..seg] == wb[off..][..seg];
  }

  /** The 16-byte blocks of the first `k` replies, back to back. */
  function EngineGathered(replies: seq<DlabRxFrame>, k: nat): (g: seq<byte>)
    requires k <= |replies|
    ensures |g| == MAX_DLAB_RX_MSG_LEN * k
  {
    if k == 0 then [] else EngineGathered(replies, k - 1) + replies[k - 1].data
  }

  /** Block `j` of the output is reply `j`: output blocks lie 16 bytes apart. */
  lemma {:induction false} EngineGatheredAt(replies: seq<DlabRxFrame>, k: nat, j: nat, i: nat)
    requires k <= |replies| && j < k && i < MAX_DLAB_RX_MSG_LEN
    ensures MAX_DLAB_RX_MSG_LEN * j + i < MAX_DLAB_RX_MSG_LEN * k
    ensures EngineGathered(replies, k)[MAX_DLAB_RX_MSG_LEN * j + i] == replies[j].data[i]
  {
    if j < k - 1 {
      EngineGatheredAt(replies, k - 1, j, i);
    }
  }

  /** The output buffer after `k` successful turns. */
  function EngineImage(replies: seq<DlabRxFrame>, k: nat, out: seq<byte>): (img: seq<byte>)
    requires k <= |replies| && MAX_DLAB_RX_MSG_LEN * k <= |out|
    ensures |img| == |out|
  {
    EngineGathered(replies, k) + out[MAX_DLAB_RX_MSG_LEN * k..]
  }

  /**
   * `do_engine`. One transceive per chunk of at most 120 plaintext bytes,
   * ceil(ws / 120) in all when every call succeeds; -1 at the first failure.
   * Each successful reply's 16 data bytes go to the output 16 bytes after
   * the previous ones and add 16 to the byte count. `l` drops by the full
   * 120 bytes each turn, which ends the loop at the same turn as dropping
   * by the chunk size would.
   */
  method DoEngine(wb: array<byte>, ws: int, rb: array<byte>, rs: int, ok: seq<bool>, replies: seq<DlabRxFrame>)
    returns (rc: int, rsOut: int, sent: seq<DlabMsg>)
    requires wb != rb
    requires ws <= wb.Length && MAX_DLAB_RX_MSG_LEN * NumChunks(ws, MAX_DLAB_TX_MSG_LEN) <= rb.Length
    requires NumChunks(ws, MAX_DLAB_TX_MSG_LEN) <= |ok| && NumChunks(ws, MAX_DLAB_TX_MSG_LEN) <= |replies|
    modifies rb
    ensures rc == 0 || rc == -1
    ensures rc == 0 <==> FirstFailure(ok, 0, NumChunks(ws, MAX_DLAB_TX_MSG_LEN)) == NumChunks(ws, MAX_DLAB_TX_MSG_LEN)
    ensures rsOut == rs + MAX_DLAB_RX_MSG_LEN * FirstFailure(ok, 0, NumChunks(ws, MAX_DLAB_TX_MSG_LEN))
    ensures sent == EngineCalls(ws, Sent(ok, NumChunks(ws, MAX_DLAB_TX_MSG_LEN)), wb[..])
    ensures rb[..] == EngineImage(replies, FirstFailure(ok, 0, NumChunks(ws, MAX_DLAB_TX_MSG_LEN)), old(rb[..]))
  {
    ghost var n := NumChunks(ws, MAX_DLAB_TX_MSG_LEN);
    ghost var out := rb[..];
    var l, pos, opos := ws, 0, 0;
    var k := 0;
    rsOut := rs;
    sent := [];
    while l > 0
      invariant 0 <= k <= n && pos == k * MAX_DLAB_TX_MSG_LEN && opos == MAX_DLAB_RX_MSG_LEN * k
      invariant l == ws - pos
      invariant k <= FirstFailure(ok, 0, n)
      invariant rsOut == rs + MAX_DLAB_RX_MSG_LEN * k
      invariant sent == EngineCalls(ws, k, wb[..])
      invariant rb[..] == EngineImage(replies, k, out)
      decreases l
    {
      ChunkIndex(ws, MAX_DLAB_TX_MSG_LEN, k);
      MulMono(k + 1, n, MAX_DLAB_RX_MSG_LEN);
      var seg := if l >= MAX_DLAB_TX_MSG_LEN then MAX_DLAB_TX_MSG_LEN else l;
      var t := EngineTurn(ws, k, seg, wb[pos..], wb[..], sent);
      sent := sent + [t];
      if !ok[k] {
        FailedAt(ok, n, k);
        return -1, rsOut, sent;
      }
      StoreEngineReply(rb, replies, k, opos, out);
      l := l - MAX_DLAB_TX_MSG_LEN;
      rsOut := rsOut + MAX_DLAB_RX_MSG_LEN;
      pos, opos := pos + MAX_DLAB_TX_MSG_LEN, opos + MAX_DLAB_RX_MSG_LEN;
      k := k + 1;
    }
    ChunkIndex(ws, MAX_DLAB_TX_MSG_LEN, k);
    NoFailure(ok, n);
    rc := 0;
  }

  /** The request of one engine turn. */
  method EngineTurn(ws: int, k: nat, seg: nat, b: seq<byte>, ghost wb: seq<byte>, ghost sent: seq<DlabMsg>)
    returns (t: DlabMsg)
    requires k < NumChunks(ws, MAX_DLAB_TX_MSG_LEN) && ws <= |wb|
    requires seg == ChunkLen(ws, MAX_DLAB_TX_MSG_LEN, k) && b == wb[k * MAX_DLAB_TX_MSG_LEN..]
    requires sent == EngineCalls(ws, k, wb)
    ensures sent + [t] == EngineCalls(ws, k + 1, wb)
  {
    t := FillEngine(ZeroDlabTxMsg, seg, b);
  }

  /** The reply of one engine turn lands 16 bytes after the previous one. */
  method StoreEngineReply(rb: array<byte>, replies: seq<DlabRxFrame>, k: nat, opos: nat, ghost out: seq<byte>)
    requires k < |replies| && |out| == rb.Length && MAX_DLAB_RX_MSG_LEN * (k + 1) <= rb.Length
    requires opos == MAX_DLAB_RX_MSG_LEN * k && rb[..] == EngineImage(replies, k, out)
    modifies rb
    ensures rb[..] == EngineImage(replies, k + 1, out)
  {
    CopyChunk(rb, opos, replies[k].data);
    assert EngineImage(replies, k + 1, out) == Splice(EngineImage(replies, k, out), opos, replies[k].data);
  }

  // ---------------------------------------------------------------------
  // Configuration data: preTransferConfigData and transferConfigData
  // ---------------------------------------------------------------------

  /** One configuration message and the byte count handed to the link. */
  datatype ConfigWrite = ConfigWrite(msg: SmcbMsg, txLen: nat)

  /** The `k`-th message of a configuration transfer: chunk `k` of at most 950 words. */
  function ConfigCall(ws: int, k: nat, wb: seq<u32>): ConfigWrite
    requires k < NumChunks(ws, MAX_SCMB_DATAWORD_LEN) && ws <= |wb|
  {
    var off := k * MAX_SCMB_DATAWORD_LEN;
    var seg := ChunkLen(ws, MAX_SCMB_DATAWORD_LEN, k);
    ConfigWrite(FillScmb(ZeroSmcbMsg, seg, wb[off..]), HDR_SIZE + 4 * seg)
  }

  /** The first `k` messages of a configuration transfer, in order. */
  function ConfigCalls(ws: int, k: nat, wb: seq<u32>): (c: seq<ConfigWrite>)
    requires k <= NumChunks(ws, MAX_SCMB_DATAWORD_LEN) && ws <= |wb|
    ensures |c| == k
  {
    seq(k, j requires 0 <= j < k => ConfigCall(ws, j, wb))
  }

  /**
   * Each configuration message holds at most 950 words, announces 4 + 4 * seg
   * bytes in its header, is written with that same byte count, and carries
   * its chunk of words; the chunks start where the previous one ended.
   */
  lemma ConfigCallFacts(ws: int, k: nat, wb: seq<u32>)
    requires k < NumChunks(ws, MAX_SCMB_DATAWORD_LEN) && ws <= |wb|
    ensures 0 < ChunkLen(ws, MAX_SCMB_DATAWORD_LEN, k) <= MAX_SCMB_DATAWORD_LEN
    ensures Length(ConfigCall(ws, k, wb).msg.hdr) == ConfigCall(ws, k, wb).txLen
            == HDR_SIZE + 4 * ChunkLen(ws, MAX_SCMB_DATAWORD_LEN, k)
    ensures StartsWithSod(ConfigCall(ws, k, wb).msg.hdr) && ConfigCall(ws, k, wb).msg.hdr.dst == DestCode(SMCB)
    ensures ConfigCall(ws, k, wb).msg.data[..ChunkLen(ws, MAX_SCMB_DATAWORD_LEN, k)]
            == wb[Covered(ws, MAX_SCMB_DATAWORD_LEN, k)..Covered(ws, MAX_SCMB_DATAWORD_LEN, k + 1)]
  {
    CoveredStep(ws, MAX_SCMB_DATAWORD_LEN, k);
    var off := k * MAX_SCMB_DATAWORD_LEN;
    var seg := ChunkLen(ws, MAX_SCMB_DATAWORD_LEN, k);
    FillScmbEncodes(ZeroSmcbMsg, seg, wb[off..]);
    DivModUnique(HDR_SIZE + 4 * seg, 0x1000, 0, HDR_SIZE + 4 * seg);
    assert ConfigCall(ws, k, wb).msg.data[..seg] == wb[off..][..seg];
  }

  /**
   * `transferConfigData`: one `transfer_data_to_dla_board` per chunk of at
   * most 950 words, -1 at the first failed call, 0 when all succeed.
   */
  method TransferConfigData(wb: array<u32>, ws: int, ok: seq<bool>)
    returns (rc: int, sent: seq<ConfigWrite>)
    requires ws <= wb.Length && NumChunks(ws, MAX_SCMB_DATAWORD_LEN) <= |ok|
    ensures rc == 0 || rc == -1
    ensures rc == 0 <==> FirstFailure(ok, 0, NumChunks(ws, MAX_SCMB_DATAWORD_LEN)) == NumChunks(ws, MAX_SCMB_DATAWORD_LEN)
    ensures sent == ConfigCalls(ws, Sent(ok, NumChunks(ws, MAX_SCMB_DATAWORD_LEN)), wb[..])
  {
    ghost var n := NumChunks(ws, MAX_SCMB_DATAWORD_LEN);
    var l, pos := ws, 0;
    var k := 0;
    sent := [];
    while l > 0
      invariant 0 <= k <= n && pos == Covered(ws, MAX_SCMB_DATAWORD_LEN, k) && l == ws - pos
      invariant k <= FirstFailure(ok, 0, n)
      invariant sent == ConfigCalls(ws, k, wb[..])
      decreases l
    {
      ChunkLoop(ws, MAX_SCMB_DATAWORD_LEN, k, l);
      CoveredStep(ws, MAX_SCMB_DATAWORD_LEN, k);
      var seg := if l >= MAX_SCMB_DATAWORD_LEN then MAX_SCMB_DATAWORD_LEN else l;
      var t := ConfigTurn(ws, k, seg, wb[pos..], wb[..], sent);
      sent := sent + [t];
      if !ok[k] {
        FailedAt(ok, n, k);
        return -1, sent;
      }
      l, pos := l - seg, pos + seg;
      k := k + 1;
    }
    ChunkLoop(ws, MAX_SCMB_DATAWORD_LEN, k, l);
    NoFailure(ok, n);
    rc := 0;
  }

  /** The message of one configuration turn. */
  method ConfigTurn(ws: int, k: nat, seg: nat, b: seq<u32>, ghost wb: seq<u32>, ghost sent: seq<ConfigWrite>)
    returns (t: ConfigWrite)
    requires k < NumChunks(ws, MAX_SCMB_DATAWORD_LEN) && ws <= |wb|
    requires seg == ChunkLen(ws, MAX_SCMB_DATAWORD_LEN, k) && b == wb[k * MAX_SCMB_DATAWORD_LEN..]
    requires sent == ConfigCalls(ws, k, wb)
    ensures sent + [t] == ConfigCalls(ws, k + 1, wb)
  {
    var msg := FillScmb(ZeroSmcbMsg, seg, b);
    t := ConfigWrite(msg, HDR_SIZE + 4 * seg);
  }

  /** What one `FT_Write` reported: its status and the number of bytes written. */
  datatype FtWrite = FtWrite(statusOk: bool, written: nat)

  /**
   * Turn `k` of `preTransferConfigData` succeeds when `FT_Write` returned
   * `FT_OK` and wrote exactly the 4 + 4 * seg bytes asked of it.
   */
  function PreTransferOk(ws: int, writes: seq<FtWrite>): (ok: seq<bool>)
    requires NumChunks(ws, MAX_SCMB_DATAWORD_LEN) <= |writes|
    ensures |ok| == NumChunks(ws, MAX_SCMB_DATAWORD_LEN)
    ensures forall k :: 0 <= k < |ok| ==>
      (ok[k] <==> writes[k].statusOk && writes[k].written == HDR_SIZE + 4 * ChunkLen(ws, MAX_SCMB_DATAWORD_LEN, k))
  {
    var n := NumChunks(ws, MAX_SCMB_DATAWORD_LEN);
    seq(n, k requires 0 <= k < n =>
      writes[k].statusOk && writes[k].written == HDR_SIZE + 4 * ChunkLen(ws, MAX_SCMB_DATAWORD_LEN, k))
  }

  /**
   * `preTransferConfigData`: the same chunking written straight to the FTDI
   * handle; a turn fails on a bad status or a short write.
   */
  method PreTransferConfigData(wb: array<u32>, ws: int, writes: seq<FtWrite>)
    returns (rc: int, sent: seq<ConfigWrite>)
    requires ws <= wb.Length && NumChunks(ws, MAX_SCMB_DATAWORD_LEN) <= |writes|
    ensures rc == 0 || rc == -1
    ensures rc == 0 <==> FirstFailure(PreTransferOk(ws, writes), 0, NumChunks(ws, MAX_SCMB_DATAWORD_LEN))
                         == NumChunks(ws, MAX_SCMB_DATAWORD_LEN)
    ensures sent == ConfigCalls(ws, Sent(PreTransferOk(ws, writes), NumChunks(ws, MAX_SCMB_DATAWORD_LEN)), wb[..])
  {
    ghost var n := NumChunks(ws, MAX_SCMB_DATAWORD_LEN);
    ghost var ok := PreTransferOk(ws, writes);
    var l, pos := ws, 0;
    var k := 0;
    sent := [];
    while l > 0
      invariant 0 <= k <= n && pos == Covered(ws, MAX_SCMB_DATAWORD_LEN, k) && l == ws - pos
      invariant k <= FirstFailure(ok, 0, n)
      invariant sent == ConfigCalls(ws, k, wb[..])
      decreases l
    {
      ChunkLoop(ws, MAX_SCMB_DATAWORD_LEN, k, l);
      CoveredStep(ws, MAX_SCMB_DATAWORD_LEN, k);
      var seg := if l >= MAX_SCMB_DATAWORD_LEN then MAX_SCMB_DATAWORD_LEN else l;
      var t := ConfigTurn(ws, k, seg, wb[pos..], wb[..], sent);
      sent := sent + [t];
      var bytesToWrite := HDR_SIZE + 4 * seg;
      if !writes[k].statusOk || writes[k].written != bytesToWrite {
        FailedAt(ok, n, k);
        return -1, sent;
      }
      l, pos := l - seg, pos + seg;
      k := k + 1;
    }
    ChunkLoop(ws, MAX_SCMB_DATAWORD_LEN, k, l);
    NoFailure(ok, n);
    rc := 0;
  }

  // ---------------------------------------------------------------------
  // Single registers: read_register and write_register
  // ---------------------------------------------------------------------

  /** The read request of `read_register`: op read, data left zero. */
  function ReadRequest(fpga: int, addr: int): (m: RegMsg)
    ensures m.op == OPR_RD && m.rDataL == 0 && m.rDataH == 0
  {
    FillRegister(ZeroRegMsg, 0, fpga, addr, 0)
  }

  /** The write request of `write_register`. */
  function WriteRequest(fpga: int, addr: int, data: int): (m: RegMsg)
    ensures m.op == OPR_WR
  {
    FillRegister(ZeroRegMsg, 1, fpga, addr, data)
  }

  /** What `read_register` returns and what it stored in `*v`, if anything. */
  datatype RegisterRead = RegisterRead(rc: int, value: Option<nat>)

  /**
   * `read_register`: a failed transceive returns -1 and stores nothing;
   * otherwise the decoded data is stored and the call succeeds exactly
   * when the decoded address equals the requested one.
   */
  function ReadRegister(addr: int, reply: RegReply): (r: RegisterRead)
    ensures r.rc == 0 || r.rc == -1
    ensures reply.None? ==> r.rc == -1 && r.value.None?
    ensures reply.Some? ==> r.value == Some(DecodeData(ParseRegMsg(reply.value)))
    ensures r.rc == 0 <==> reply.Some? && DecodeAddress(ParseRegMsg(reply.value)) == addr
  {
    match reply
    case None => RegisterRead(-1, None)
    case Some(bs) =>
      var m := ParseRegMsg(bs);
      RegisterRead(if addr != DecodeAddress(m) then -1 else 0, Some(DecodeData(m)))
  }

  /**
   * A board that answers a read of `addr` by echoing a message that carries
   * `addr` and `d` makes the read succeed with exactly `d`, for every
   * address and data word the fields can hold.
   */
  lemma ReadRegisterEcho(fpga: int, addr: int, d: int)
    requires 0 <= addr < 0x4000 && 0 <= d < 0x1_0000
    ensures ReadRegister(addr, Some(RegMsgBytes(WriteRequest(fpga, addr, d)))) == RegisterRead(0, Some(d))
  {
    WriteRequestFacts(fpga, addr, d);
    DivModUnique(addr, 0x4000, 0, addr);
    DivModUnique(d, 0x1_0000, 0, d);
    ReadRegisterOfEcho(addr, WriteRequest(fpga, addr, d));
  }

  /** A full reply whose address field decodes to `addr` is a successful read of its data. */
  lemma ReadRegisterOfEcho(addr: int, m: RegMsg)
    requires DecodeAddress(m) == addr
    ensures ReadRegister(addr, Some(RegMsgBytes(m))) == RegisterRead(0, Some(DecodeData(m)))
  {
    RegMsgBytesRoundTrip(m);
  }

  /**
   * An address outside 0..0x3FFF never matches the decoded 14-bit address,
   * so such a read fails even when the board echoes the request exactly.
   */
  lemma ReadRegisterOutOfRange(addr: int, reply: RegReply)
    requires !(0 <= addr < 0x4000)
    ensures ReadRegister(addr, reply).rc == -1
  {
  }

  /** A read request carries the address modulo 2^14, length 8 and the FPGA's block. */
  lemma ReadRequestFacts(fpga: int, addr: int)
    ensures DecodeAddress(ReadRequest(fpga, addr)) == addr % 0x4000
    ensures Length(ReadRequest(fpga, addr).hdr) == REG_MSG_SIZE
    ensures ReadRequest(fpga, addr).hdr.dst == (if fpga != 0 then DestCode(MFRB) else DestCode(CFRB))
  {
    FillRegisterEncodes(ZeroRegMsg, 0, fpga, addr, 0);
  }

  /** A write request also carries the data modulo 2^16. */
  lemma WriteRequestFacts(fpga: int, addr: int, data: int)
    ensures DecodeAddress(WriteRequest(fpga, addr, data)) == addr % 0x4000
    ensures DecodeData(WriteRequest(fpga, addr, data)) == data % 0x1_0000
    ensures Length(WriteRequest(fpga, addr, data).hdr) == REG_MSG_SIZE
    ensures WriteRequest(fpga, addr, data).hdr.dst == (if fpga != 0 then DestCode(MFRB) else DestCode(CFRB))
  {
    FillRegisterEncodes(ZeroRegMsg, 1, fpga, addr, data);
  }

  /** What `write_register` returns and the bytes it handed to the link. */
  datatype RegisterWrite = RegisterWrite(rc: int, sent: seq<byte>)

  /**
   * `write_register`: one eight-byte write request through
   * `transfer_data_to_dla_board`; 0 exactly when that transfer succeeded,
   * otherwise -1. The bytes sent carry the write opcode, the FPGA's block,
   * the address modulo 2^14 and the data modulo 2^16.
   */
  function WriteRegister(portNum: int, baud: int, fpga: int, addr: int, data: int, link: TransferLink): (w: RegisterWrite)
    ensures w.rc == 0 || w.rc == -1
    ensures w.rc == 0 <==> Transfer(portNum, REG_MSG_SIZE, baud, link).Some?
    ensures |w.sent| == REG_MSG_SIZE
    ensures ParseRegMsg(w.sent).op == OPR_WR
    ensures ParseRegMsg(w.sent).hdr.dst == (if fpga != 0 then DestCode(MFRB) else DestCode(CFRB))
    ensures DecodeAddress(ParseRegMsg(w.sent)) == addr % 0x4000
    ensures DecodeData(ParseRegMsg(w.sent)) == data % 0x1_0000
  {
    var m := WriteRequest(fpga, addr, data);
    RegMsgBytesRoundTrip(m);
    WriteRequestFacts(fpga, addr, data);
    RegisterWrite(if Transfer(portNum, REG_MSG_SIZE, baud, link).Some? then 0 else -1, RegMsgBytes(m))
  }

  /**
   * Write then read back: when the board answers the read-back with the
   * bytes the write sent, the read succeeds with exactly the data written,
   * for every address and data word the fields can hold.
   */
  lemma WriteThenRead(portNum: int, baud: int, fpga: int, addr: int, data: int, link: TransferLink)
    requires 0 <= addr < 0x4000 && 0 <= data < 0x1_0000
    ensures ReadRegister(addr, Some(WriteRegister(portNum, baud, fpga, addr, data, link).sent))
            == RegisterRead(0, Some(data))
  {
    var w := WriteRegister(portNum, baud, fpga, addr, data, link);
    DivModUnique(addr, 0x4000, 0, addr);
    DivModUnique(data, 0x1_0000, 0, data);
  }

  // ---------------------------------------------------------------------
  // Register-group walks
  // ---------------------------------------------------------------------

  /** One entry after `read_group_register`: the read-back value on success, else as before. */
  function ReadEntry(e: RegInfo, reply: RegReply): (r: RegInfo)
    ensures r.a == e.a && r.name == e.name && r.rw == e.rw
    ensures ReadRegister(e.a, reply).rc != 0 ==> r == e
    ensures ReadRegister(e.a, reply).rc == 0 ==> r.d == ReadRegister(e.a, reply).value.value % 0x1_0000
  {
    var rr := ReadRegister(e.a, reply);
    if rr.rc != 0 then e else e.(d := rr.value.value % 0x1_0000)
  }

  /**
   * One entry after `write_group_register`: a read-only entry, a failed
   * write or a failed read-back leave it alone; otherwise it holds the
   * read-back value, whether or not it equals the value written.
   */
  function WriteEntry(e: RegInfo, writeOk: bool, reply: RegReply): (r: RegInfo)
    ensures r.a == e.a && r.name == e.name && r.rw == e.rw
    ensures e.rw == RO || !writeOk ==> r == e
    ensures e.rw == RW && writeOk ==> r == ReadEntry(e, reply)
  {
    if e.rw != RW || !writeOk then e else ReadEntry(e, reply)
  }

  /** Indices of the writable entries among the first `n`, in table order. */
  function RwIndices(t: seq<RegInfo>, n: nat): (ix: seq<nat>)
    requires n <= |t|
    ensures forall j :: 0 <= j < |ix| ==> ix[j] < n && t[ix[j]].rw == RW
  {
    if n == 0 then [] else if t[n - 1].rw == RW then RwIndices(t, n - 1) + [n - 1] else RwIndices(t, n - 1)
  }

  /** Every writable entry is written: `RwIndices` misses none of them. */
  lemma {:induction false} RwIndicesComplete(t: seq<RegInfo>, n: nat, i: nat)
    requires n <= |t| && i < n && t[i].rw == RW
    ensures i in RwIndices(t, n)
  {
    if i < n - 1 {
      RwIndicesComplete(t, n - 1, i);
    }
  }

  /**
   * `read_group_register`: one read request per table entry, in order; an
   * entry takes the read-back value (masked to 16 bits) on success and is
   * left unchanged by a failed read. Always returns 0.
   */
  method ReadGroupRegister(fpga: int, regGrp: array<RegInfo>, replies: seq<RegReply>)
    returns (rc: int, sent: seq<RegMsg>)
    requires regGrp.Length <= |replies|
    modifies regGrp
    ensures rc == 0
    ensures |sent| == regGrp.Length
    ensures forall i :: 0 <= i < regGrp.Length ==> sent[i] == ReadRequest(fpga, old(regGrp[i]).a)
    ensures forall i :: 0 <= i < regGrp.Length ==> regGrp[i] == ReadEntry(old(regGrp[i]), replies[i])
  {
    sent := [];
    var id := 0;
    while id < regGrp.Length
      invariant 0 <= id <= regGrp.Length && |sent| == id
      invariant forall i :: 0 <= i < id ==> sent[i] == ReadRequest(fpga, old(regGrp[i]).a)
      invariant forall i :: 0 <= i < id ==> regGrp[i] == ReadEntry(old(regGrp[i]), replies[i])
      invariant forall i :: id <= i < regGrp.Length ==> regGrp[i] == old(regGrp[i])
    {
      var e := regGrp[id];
      sent := sent + [ReadRequest(fpga, e.a)];
      var rr := ReadRegister(e.a, replies[id]);
      if rr.rc == 0 {
        regGrp[id] := e.(d := rr.value.value % 0x1_0000);
      }
      id := id + 1;
    }
    rc := 0;
  }

  /** The write requests of the first `n` entries, in table order. */
  ghost function Requests(t: seq<RegInfo>, fpga: int, data: int, n: nat): seq<RegMsg>
    requires n <= |t|
  {
    if n == 0 then []
    else Requests(t, fpga, data, n - 1) + (if t[n - 1].rw == RW then [WriteRequest(fpga, t[n - 1].a, data)] else [])
  }

  /** The requests go, one each, to the writable entries `RwIndices` lists. */
  lemma {:induction false} RequestsMatch(t: seq<RegInfo>, fpga: int, data: int, n: nat)
    requires n <= |t|
    ensures |Requests(t, fpga, data, n)| == |RwIndices(t, n)|
    ensures forall j :: 0 <= j < |RwIndices(t, n)| ==>
              Requests(t, fpga, data, n)[j] == WriteRequest(fpga, t[RwIndices(t, n)[j]].a, data)
  {
    if n > 0 {
      RequestsMatch(t, fpga, data, n - 1);
      var r, ix := Requests(t, fpga, data, n - 1), RwIndices(t, n - 1);
      if t[n - 1].rw == RW {
        var w := WriteRequest(fpga, t[n - 1].a, data);
        assert Requests(t, fpga, data, n) == r + [w];
        assert RwIndices(t, n) == ix + [n - 1];
        assert forall j :: 0 <= j < |ix| ==> (r + [w])[j] == r[j] && (ix + [n - 1])[j] == ix[j];
      } else {
        assert Requests(t, fpga, data, n) == r;
        assert RwIndices(t, n) == ix;
      }
    }
  }

  /**
   * One turn of `write_group_register`: a writable entry is written (the
   * request is returned) and, when the write succeeds, read back; a
   * read-only entry is skipped.
   */
  method WriteOne(fpga: int, data: int, e: RegInfo, ok: bool, reply: RegReply) returns (next: RegInfo, req: seq<RegMsg>)
    ensures next == WriteEntry(e, ok, reply)
    ensures req == if e.rw == RW then [WriteRequest(fpga, e.a, data)] else []
  {
    next, req := e, [];
    if e.rw == RW {
      req := [WriteRequest(fpga, e.a, data)];
      if ok {
        next := ReadEntry(e, reply);
      }
    }
  }

  /**
   * `write_group_register`: writes `data` to every writable entry and to no
   * read-only one, in table order, then reads each written entry back; the
   * walk goes on past every failure and always returns 0.
   */
  method WriteGroupRegister(fpga: int, data: int, regGrp: array<RegInfo>, writeOk: seq<bool>, replies: seq<RegReply>)
    returns (rc: int, written: seq<nat>, sent: seq<RegMsg>)
    requires regGrp.Length <= |writeOk| && regGrp.Length <= |replies|
    modifies regGrp
    ensures rc == 0
    ensures written == RwIndices(old(regGrp[..]), regGrp.Length)
    ensures |sent| == |written|
    ensures forall j :: 0 <= j < |written| ==> sent[j] == WriteRequest(fpga, old(regGrp[written[j]]).a, data)
    ensures forall i :: 0 <= i < regGrp.Length ==> regGrp[i] == WriteEntry(old(regGrp[i]), writeOk[i], replies[i])
  {
    ghost var t := regGrp[..];
    written, sent := [], [];
    var id: nat := 0;
    while id < regGrp.Length
      invariant id <= regGrp.Length
      invariant written == RwIndices(t, id) && sent == Requests(t, fpga, data, id)
      invariant regGrp[..] == WrittenUpTo(t, writeOk, replies, id)
    {
      var e := regGrp[id];
      var next, req := WriteOne(fpga, data, e, writeOk[id], replies[id]);
      if e.rw == RW {
        written := written + [id];
      }
      sent := sent + req;
      WrittenUpToStep(t, writeOk, replies, id);
      regGrp[id] := next;
      id := id + 1;
    }
    RequestsMatch(t, fpga, data, regGrp.Length);
    rc := 0;
  }

  /** The table once its first `id` entries have been written. */
  ghost function WrittenUpTo(t: seq<RegInfo>, writeOk: seq<bool>, replies: seq<RegReply>, id: nat): seq<RegInfo>
    requires |t| <= |writeOk| && |t| <= |replies|
  {
    seq(|t|, i requires 0 <= i < |t| => if i < id then WriteEntry(t[i], writeOk[i], replies[i]) else t[i])
  }

  /** Writing entry `id` moves the boundary one entry on. */
  lemma WrittenUpToStep(t: seq<RegInfo>, writeOk: seq<bool>, replies: seq<RegReply>, id: nat)
    requires id < |t| <= |writeOk| && |t| <= |replies|
    ensures WrittenUpTo(t, writeOk, replies, id)[id := WriteEntry(t[id], writeOk[id], replies[id])]
            == WrittenUpTo(t, writeOk, replies, id + 1)
  {
  }

  // ---------------------------------------------------------------------
  // dla_register
  // ---------------------------------------------------------------------

  /** The nine register tables: five on the control FPGA, four on the main FPGA. */
  datatype RegisterGroup = CfrbGroup | HuibGroup | DabGroup | MfdbGroup | SmcbGroup
                         | MfrbGroup | DpibGroup | MibGroup | DlabGroup

  /** Where each table sits among the `tables` handed to `DlaRegister`. */
  function GroupIndex(g: RegisterGroup): (i: nat)
    ensures i < 9
  {
    match g
    case CfrbGroup => 0
    case HuibGroup => 1
    case DabGroup => 2
    case MfdbGroup => 3
    case SmcbGroup => 4
    case MfrbGroup => 5
    case DpibGroup => 6
    case MibGroup => 7
    case DlabGroup => 8
  }

  /** The tables of one FPGA, in the order `show_registerList` prints them and address 0xFFFF walks them. */
  function FpgaGroups(fpga: int): seq<RegisterGroup>
  {
    if fpga != 0 then [MfrbGroup, DpibGroup, MibGroup, DlabGroup]
    else [CfrbGroup, HuibGroup, DabGroup, MfdbGroup, SmcbGroup]
  }

  /** Every table belongs to exactly one of the two FPGAs, and the two lists occupy distinct positions. */
  lemma FpgaGroupsPartition(g: RegisterGroup)
    ensures (g in FpgaGroups(0)) != (g in FpgaGroups(1))
    ensures g in FpgaGroups(1) <==> GroupIndex(g) >= 5
  {
  }

  /** The board's answers during one group walk: a write status and a read-back per entry. */
  datatype WalkIo = WalkIo(writeOk: seq<bool>, replies: seq<RegReply>)

  /** A table after a walk: each entry read, or each writable entry written and read back. */
  ghost function Walked(write: bool, t: seq<RegInfo>, io: WalkIo): seq<RegInfo>
    requires |t| <= |io.writeOk| && |t| <= |io.replies|
  {
    seq(|t|, i requires 0 <= i < |t| =>
      if write then WriteEntry(t[i], io.writeOk[i], io.replies[i]) else ReadEntry(t[i], io.replies[i]))
  }

  /** One `write_group_register` or `read_group_register` call made by `dla_register`. */
  method Walk(write: bool, fpga: int, data: int, regGrp: array<RegInfo>, io: WalkIo)
    requires regGrp.Length <= |io.writeOk| && regGrp.Length <= |io.replies|
    modifies regGrp
    ensures regGrp[..] == Walked(write, old(regGrp[..]), io)
  {
    if write {
      var rc, written, sent := WriteGroupRegister(fpga, data, regGrp, io.writeOk, io.replies);
    } else {
      var rc, sent := ReadGroupRegister(fpga, regGrp, io.replies);
    }
  }

  /** Nine distinct tables, each with the board's answers for a full walk. */
  ghost predicate TablesReady(tables: seq<array<RegInfo>>, io: seq<WalkIo>)
  {
    |tables| == 9 && |io| == 9
    && (forall i, j :: 0 <= i < j < 9 ==> tables[i] != tables[j])
    && (forall i :: 0 <= i < 9 ==> tables[i].Length <= |io[i].writeOk| && tables[i].Length <= |io[i].replies|)
  }

  /**
   * `dla_register`: `rw == 2` lists the FPGA's tables and returns 0;
   * address 0xFFFF walks every table of the FPGA (writing `data` when `rw`
   * is nonzero) and returns 0 whatever the walks do; any other address is
   * one `write_register` or `read_register`, whose code is returned. Only
   * a walk changes a table, and it changes no table of the other FPGA.
   */
  method DlaRegister(portNum: int, baud: int, rw: int, fpga: int, addr: int, data: int,
                     tables: seq<array<RegInfo>>, io: seq<WalkIo>,
                     writeLink: TransferLink, readLink: TransceiveLink)
    returns (rc: int, listed: seq<RegisterGroup>)
    requires TablesReady(tables, io)
    modifies set i | 0 <= i < |tables| :: tables[i]
    ensures rw == 2 ==> rc == 0 && listed == FpgaGroups(fpga)
    ensures rw != 2 ==> listed == []
    ensures rw != 2 && addr == 0xFFFF ==> rc == 0
    ensures rw != 2 && addr != 0xFFFF && rw != 0 ==>
              rc == WriteRegister(portNum, baud, fpga, addr, data, writeLink).rc
    ensures rw != 2 && addr != 0xFFFF && rw == 0 ==>
              rc == ReadRegister(addr, RegisterReply(portNum, baud, readLink)).rc
    ensures forall g :: tables[GroupIndex(g)][..] ==
              if rw != 2 && addr == 0xFFFF && g in FpgaGroups(fpga)
              then Walked(rw != 0, old(tables[GroupIndex(g)][..]), io[GroupIndex(g)])
              else old(tables[GroupIndex(g)][..])
  {
    listed := [];
    if rw == 2 {
      return 0, FpgaGroups(fpga);
    }
    if addr == 0xFFFF {
      WalkFpga(rw != 0, fpga, data, tables, io);
      return 0, [];
    }
    if rw != 0 {
      rc := WriteRegister(portNum, baud, fpga, addr, data, writeLink).rc;
    } else {
      rc := ReadRegister(addr, RegisterReply(portNum, baud, readLink)).rc;
    }
  }

  /** The four or five walks of an `addr == 0xFFFF` access, one table after the other. */
  method WalkFpga(write: bool, fpga: int, data: int, tables: seq<array<RegInfo>>, io: seq<WalkIo>)
    requires TablesReady(tables, io)
    modifies set i | 0 <= i < |tables| :: tables[i]
    ensures forall g :: tables[GroupIndex(g)][..] ==
              if g in FpgaGroups(fpga) then Walked(write, old(tables[GroupIndex(g)][..]), io[GroupIndex(g)])
              else old(tables[GroupIndex(g)][..])
  {
    if fpga != 0 {
      WalkAt(write, fpga, data, tables, io, 5);
      WalkAt(write, fpga, data, tables, io, 6);
      WalkAt(write, fpga, data, tables, io, 7);
      WalkAt(write, fpga, data, tables, io, 8);
    } else {
      WalkAt(write, fpga, data, tables, io, 0);
      WalkAt(write, fpga, data, tables, io, 1);
      WalkAt(write, fpga, data, tables, io, 2);
      WalkAt(write, fpga, data, tables, io, 3);
      WalkAt(write, fpga, data, tables, io, 4);
    }
    forall g
      ensures tables[GroupIndex(g)][..] ==
              if g in FpgaGroups(fpga) then Walked(write, old(tables[GroupIndex(g)][..]), io[GroupIndex(g)])
              else old(tables[GroupIndex(g)][..])
    {
      FpgaGroupsPartition(g);
    }
  }

  /** The walk of the table at position `k`, which leaves the other eight tables as they were. */
  method WalkAt(write: bool, fpga: int, data: int, tables: seq<array<RegInfo>>, io: seq<WalkIo>, k: nat)
    requires TablesReady(tables, io) && k < 9
    modifies tables[k]
    ensures tables[k][..] == Walked(write, old(tables[k][..]), io[k])
    ensures forall i :: 0 <= i < 9 && i != k ==> tables[i][..] == old(tables[i][..])
  {
    Walk(write, fpga, data, tables[k], io[k]);
  }

  // ---------------------------------------------------------------------
  // dla_engine: the read buffer handed to do_engine
  // ---------------------------------------------------------------------

  /** Bytes `do_engine` stores for a `len`-byte payload: 16 per transceive. */
  function EngineOutputLen(len: int): (n: nat)
    ensures len <= 0 ==> n == 0
    ensures len > 0 ==> n >= MAX_DLAB_RX_MSG_LEN
  {
    MAX_DLAB_RX_MSG_LEN * NumChunks(len, MAX_DLAB_TX_MSG_LEN)
  }

  /** `dla_engine` as written: the read buffer has `DataSize` bytes. */
  function EngineReadBufferAsWritten(dataSize: nat): (n: nat)
    ensures n == dataSize
  {
    dataSize
  }

  /**
   * With fewer than 16 bytes of data the first reply already runs past the
   * end of that buffer: a 1-byte payload makes `do_engine` store 16 bytes
   * into a 1-byte allocation.
   */
  lemma EngineReadBufferOverflows()
    ensures EngineOutputLen(1) > EngineReadBufferAsWritten(1)
  {
  }

  /** The read buffer `dla_engine` needs: room for every 16-byte reply of a full-size payload. */
  function EngineReadBufferSize(dataSize: nat): (n: nat)
    ensures n >= dataSize && n >= EngineOutputLen(dataSize)
  {
    if dataSize >= EngineOutputLen(dataSize) then dataSize else EngineOutputLen(dataSize)
  }

  /** More payload never needs fewer transceives. */
  lemma {:induction false} NumChunksMono(a: int, b: int, max: nat)
    requires max > 0 && a <= b
    ensures NumChunks(a, max) <= NumChunks(b, max)
  {
    if a > 0 {
      var na, nb := NumChunks(a, max), NumChunks(b, max);
      if na > nb {
        ChunkIndex(a, max, nb);
        ChunkIndex(b, max, nb);
      }
    }
  }

  /**
   * Whatever `fread` returns (at most `DataSize` bytes), the corrected
   * buffer holds all of `do_engine`'s output, which is what `DoEngine`
   * requires of its read buffer.
   */
  lemma EngineReadBufferSuffices(dataSize: nat, len: nat)
    requires len <= dataSize
    ensures EngineOutputLen(len) <= EngineReadBufferSize(dataSize)
    ensures len <= EngineReadBufferSize(dataSize)
  {
    NumChunksMono(len, dataSize, MAX_DLAB_TX_MSG_LEN);
    MulMono(NumChunks(len, MAX_DLAB_TX_MSG_LEN), NumChunks(dataSize, MAX_DLAB_TX_MSG_LEN), MAX_DLAB_RX_MSG_LEN);
  }
}
