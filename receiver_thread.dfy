/**
 * The receive side of the XDMA sample: the circular queue that hands
 * received buffers to the sender, the hex/ASCII packet dump and the
 * statistics step of the receive loop.
 */
module ReceiverThread {
  import opened Common
  import opened BufferHandler

  /** Capacity of the queue (`NUMBER_OF_QUEUE`, equal to `NUMBER_OF_BUFFER`). */
  const NUMBER_OF_QUEUE: nat := 2048
  /** The largest frame a buffer holds (`MAX_PACKET_LENGTH * MAX_PACKET_BURST`). */
  const MAX_BUFFER_LENGTH: nat := 0x800 * 1

  // ---------------------------------------------------------------------
  // The queue on values
  // ---------------------------------------------------------------------

  /** `xbuffer_enqueue` on the queue contents, oldest first: a full queue drops `x`. */
  function QueueEnqueue(q: seq<Ptr>, x: Ptr): (r: seq<Ptr>)
    requires |q| <= NUMBER_OF_QUEUE
    ensures |r| <= NUMBER_OF_QUEUE
    ensures |q| == NUMBER_OF_QUEUE ==> r == q
  {
    if |q| == NUMBER_OF_QUEUE then q else q + [x]
  }

  /** `xbuffer_dequeue` on the queue contents: `EMPTY_ELEMENT` on an empty queue, otherwise the oldest entry, removed. */
  function QueueDequeue(q: seq<Ptr>): (r: (Ptr, seq<Ptr>))
    ensures |r.1| <= |q|
  {
    if |q| == 0 then (NULL, q) else (q[0], q[1..])
  }

  /** First in, first out: an entry added behind others comes out after them. */
  lemma EnqueueThenDequeue(q: seq<Ptr>, x: Ptr)
    requires |q| < NUMBER_OF_QUEUE
    ensures QueueEnqueue(q, x) == q + [x]
    ensures QueueDequeue(QueueEnqueue(q, x)) == if q == [] then (x, []) else (q[0], q[1..] + [x])
  {
    if q != [] {
      assert (q + [x])[1..] == q[1..] + [x];
    }
  }

  /** Dequeuing every entry of an enqueue sequence returns the entries in order. */
  lemma {:induction false} DrainInOrder(q: seq<Ptr>)
    ensures Drain(q) == q
    decreases |q|
  {
    if q != [] {
      DrainInOrder(q[1..]);
    }
  }

  /** The entries `|q|` dequeues return, in the order they come out. */
  function Drain(q: seq<Ptr>): (r: seq<Ptr>)
    decreases |q|
  {
    if |q| == 0 then [] else
      var (x, rest) := QueueDequeue(q);
      [x] + Drain(rest)
  }

  /** `EMPTY_ELEMENT` comes out exactly when the queue is empty, if `NULL` is never queued. */
  lemma DequeueNullOnlyWhenEmpty(q: seq<Ptr>)
    requires forall k :: 0 <= k < |q| ==> q[k] != NULL
    ensures QueueDequeue(q).0 == NULL <==> q == []
  {
  }

  // ---------------------------------------------------------------------
  // The ring
  // ---------------------------------------------------------------------

  /** The `count` entries of the ring `a` starting at index `front`, wrapping around. */
  ghost function Window(a: seq<Ptr>, front: int, count: nat): seq<Ptr>
    requires |a| == NUMBER_OF_QUEUE
  {
    seq(count, k => a[(front + k) % NUMBER_OF_QUEUE])
  }

  /** Two positions less than a full turn apart fall on different ring slots. */
  lemma RingSlotsDistinct(f: int, k: int, c: int)
    requires 0 <= k < c < NUMBER_OF_QUEUE
    ensures (f + k) % NUMBER_OF_QUEUE != (f + c) % NUMBER_OF_QUEUE
  {
  }

  /** Advancing `front` by one slot wraps like advancing the position. */
  lemma RingAdvance(f: int, k: int)
    requires 0 <= f < NUMBER_OF_QUEUE && 0 <= k
    ensures ((f + 1) % NUMBER_OF_QUEUE + k) % NUMBER_OF_QUEUE == (f + 1 + k) % NUMBER_OF_QUEUE
  {
    var n := NUMBER_OF_QUEUE;
    if f + 1 == n {
      assert (f + 1) % n == 0;
      DivModUnique(f + 1 + k, n, 1 + k / n, k % n);
    }
  }

  /** Storing `x` in the slot after the window extends the window by `x`. */
  lemma WindowPush(a: seq<Ptr>, front: int, count: nat, x: Ptr)
    requires |a| == NUMBER_OF_QUEUE && count < NUMBER_OF_QUEUE
    ensures Window(a[(front + count) % NUMBER_OF_QUEUE := x], front, count + 1) == Window(a, front, count) + [x]
  {
    var b := a[(front + count) % NUMBER_OF_QUEUE := x];
    forall k | 0 <= k < count
      ensures Window(b, front, count + 1)[k] == Window(a, front, count)[k]
    {
      RingSlotsDistinct(front, k, count);
    }
  }

  /** Moving `front` one slot on drops the oldest entry of the window. */
  lemma WindowPop(a: seq<Ptr>, front: int, count: nat)
    requires |a| == NUMBER_OF_QUEUE && 0 <= front < NUMBER_OF_QUEUE && 0 < count
    ensures Window(a, (front + 1) % NUMBER_OF_QUEUE, count - 1) == Window(a, front, count)[1..]
  {
    var rest := Window(a, front, count)[1..];
    forall k | 0 <= k < count - 1
      ensures Window(a, (front + 1) % NUMBER_OF_QUEUE, count - 1)[k] == rest[k]
    {
      RingAdvance(front, k);
    }
  }

  /** The slot after the newest entry is where the window ends, before and after an advance. */
  lemma RearAdvance(rear: int, front: int, count: nat)
    requires -1 <= rear < NUMBER_OF_QUEUE && (rear + 1) % NUMBER_OF_QUEUE == (front + count) % NUMBER_OF_QUEUE
    ensures ((rear + 1) % NUMBER_OF_QUEUE + 1) % NUMBER_OF_QUEUE == (front + count + 1) % NUMBER_OF_QUEUE
  {
  }

  /** Moving `front` and shrinking the count keeps the window's end. */
  lemma FrontAdvance(rear: int, front: int, count: nat)
    requires 0 <= front < NUMBER_OF_QUEUE && 0 < count && (rear + 1) % NUMBER_OF_QUEUE == (front + count) % NUMBER_OF_QUEUE
    ensures (rear + 1) % NUMBER_OF_QUEUE == ((front + 1) % NUMBER_OF_QUEUE + count - 1) % NUMBER_OF_QUEUE
  {
    RingAdvance(front, count - 1);
  }

  /** `CircularQueue_t`: `count` entries from `elements[front]` on, the newest at `elements[rear]`. */
  class CircularQueue {
    var elements: array<Ptr>
    var front: int
    var rear: int
    var count: int

    ghost predicate Valid()
      reads this
    {
      elements.Length == NUMBER_OF_QUEUE &&
      0 <= front < NUMBER_OF_QUEUE && -1 <= rear < NUMBER_OF_QUEUE && 0 <= count <= NUMBER_OF_QUEUE &&
      (rear + 1) % NUMBER_OF_QUEUE == (front + count) % NUMBER_OF_QUEUE
    }

    /** The queued buffers, oldest first. */
    ghost function Contents(): seq<Ptr>
      reads this, elements
      requires Valid()
    {
      Window(elements[..], front, count)
    }

    /** The queue storage with `initialize_queue` applied: `front` 0, `rear` -1, nothing queued. */
    constructor InitializeQueue()
      ensures Valid() && fresh(elements) && Contents() == []
      ensures front == 0 && rear == -1 && count == 0
    {
      elements := new Ptr[NUMBER_OF_QUEUE](_ => NULL);
      front, rear, count := 0, -1, 0;
    }

    /** `isQueueEmpty`. */
    function IsQueueEmpty(): (r: bool)
      reads this, elements
      requires Valid()
      ensures r <==> Contents() == []
    {
      count == 0
    }

    /** `isQueueFull`. */
    function IsQueueFull(): (r: bool)
      reads this, elements
      requires Valid()
      ensures r <==> |Contents()| == NUMBER_OF_QUEUE
    {
      count == NUMBER_OF_QUEUE
    }

    /** `getQueueCount`. */
    function GetQueueCount(): (r: int)
      reads this, elements
      requires Valid()
      ensures r == |Contents()|
    {
      count
    }

    /** `xbuffer_enqueue(element)`: appended behind the others unless the queue is full. */
    method Enqueue(element: Ptr)
      requires Valid()
      modifies this, elements
      ensures Valid() && elements == old(elements) && front == old(front)
      ensures Contents() == QueueEnqueue(old(Contents()), element)
      ensures old(count) == NUMBER_OF_QUEUE ==> rear == old(rear) && count == old(count) && elements[..] == old(elements[..])
      ensures old(count) < NUMBER_OF_QUEUE ==>
                rear == (old(rear) + 1) % NUMBER_OF_QUEUE && count == old(count) + 1 &&
                elements[..] == old(elements[..])[rear := element]
    {
      if IsQueueFull() {
        return;
      }
      ghost var a := elements[..];
      RearAdvance(rear, front, count);
      WindowPush(a, front, count, element);
      rear := (rear + 1) % NUMBER_OF_QUEUE;
      elements[rear] := element;
      count := count + 1;
    }

    /** `xbuffer_dequeue()`: the oldest entry, removed, or `EMPTY_ELEMENT` when nothing is queued. */
    method Dequeue() returns (x: Ptr)
      requires Valid()
      modifies this
      ensures Valid() && elements == old(elements) && rear == old(rear)
      ensures (x, Contents()) == QueueDequeue(old(Contents()))
      ensures old(count) == 0 ==> front == old(front) && count == 0
      ensures old(count) > 0 ==> front == (old(front) + 1) % NUMBER_OF_QUEUE && count == old(count) - 1
    {
      if IsQueueEmpty() {
        return NULL;
      }
      x := elements[front];
      FrontAdvance(rear, front, count);
      WindowPop(elements[..], front, count);
      front := (front + 1) % NUMBER_OF_QUEUE;
      count := count - 1;
    }
  }

  // ---------------------------------------------------------------------
  // print_hex_ascii
  // ---------------------------------------------------------------------

  /** Bytes per dump line (`BUFFER_SIZE`). */
  const BUFFER_SIZE: nat := 16

  const HEX_DIGITS: string := "0123456789ABCDEF"

  /** `%02X`: two upper-case hexadecimal digits. */
  function HexByte(b: byte): (r: string)
    ensures |r| == 2
  {
    [HEX_DIGITS[b / 16], HEX_DIGITS[b % 16]]
  }

  /** The value of a hexadecimal digit. */
  function HexValue(c: char): (v: nat)
    ensures v < 16
  {
    if '0' <= c <= '9' then (c as int) - ('0' as int)
    else if 'A' <= c <= 'F' then (c as int) - ('A' as int) + 10
    else 0
  }

  /** The two digits of `%02X` read back as the byte. */
  lemma HexByteRoundTrip(b: byte)
    ensures HexValue(HexByte(b)[0]) * 16 + HexValue(HexByte(b)[1]) == b
  {
    assert forall d :: 0 <= d < 16 ==> HexValue(HEX_DIGITS[d]) == d;
  }

  /** A byte as the ASCII column shows it: printable characters as themselves, others as `.`. */
  function ShownChar(b: byte): (c: char)
    ensures 32 <= b <= 126 ==> c as int == b
    ensures !(32 <= b <= 126) ==> c == '.'
  {
    if 32 <= b <= 126 then b as char else '.'
  }

  /** A decimal digit. */
  function DigitChar(d: int): (c: char)
    requires 0 <= d < 10
    ensures '0' <= c <= '9'
  {
    ((d + '0' as int) as char)
  }

  /** `n` in decimal, without leading zeros. */
  function Decimal(n: nat): (s: string)
    ensures |s| >= 1 && forall k :: 0 <= k < |s| ==> '0' <= s[k] <= '9'
    decreases n
  {
    if n < 10 then [DigitChar(n)] else Decimal(n / 10) + [DigitChar(n % 10)]
  }

  /** The number a string of decimal digits denotes. */
  function DecimalValue(s: string): nat
    decreases |s|
  {
    if |s| == 0 then 0 else DecimalValue(s[..|s| - 1]) * 10 + HexValue(s[|s| - 1])
  }

  /** The decimal text reads back as the number. */
  lemma {:induction false} DecimalRoundTrip(n: nat)
    ensures DecimalValue(Decimal(n)) == n
    decreases n
  {
    if n >= 10 {
      DecimalRoundTrip(n / 10);
      var s := Decimal(n);
      assert s[..|s| - 1] == Decimal(n / 10);
    }
  }

  /** The text of `%d`: a minus sign for a negative value, then the decimal digits. */
  function SignedDecimal(v: int): string
  {
    if v < 0 then "-" + Decimal(-v) else Decimal(v)
  }

  /** `%7d`: the text of `%d`, right-aligned in seven columns. */
  function Field7(v: int): string
  {
    var d := SignedDecimal(v);
    if |d| < 7 then Repeat(' ', 7 - |d|) + d else d
  }

  /** `%7d` is at least seven characters wide: blanks, then the text of `%d`. */
  lemma Field7Shape(v: int)
    ensures |Field7(v)| == if |SignedDecimal(v)| < 7 then 7 else |SignedDecimal(v)|
    ensures var s, d := Field7(v), SignedDecimal(v);
            s[|s| - |d|..] == d && forall k :: 0 <= k < |s| - |d| ==> s[k] == ' '
  {
  }

  /** A non-negative address of up to seven digits reads back from its `%7d` field. */
  lemma Field7RoundTrip(v: int)
    requires 0 <= v < 10_000_000
    ensures |Field7(v)| == 7
    ensures DecimalValue(Field7(v)[7 - |Decimal(v)|..]) == v
  {
    assert Pow10(7) == 10_000_000;
    DecimalDigits(v, 7);
    Field7Shape(v);
    DecimalRoundTrip(v);
  }

  function Pow10(k: nat): (p: nat)
    ensures p >= 1
  {
    if k == 0 then 1 else 10 * Pow10(k - 1)
  }

  /** A number below 10^k has at most `k` decimal digits. */
  lemma {:induction false} DecimalDigits(n: nat, k: nat)
    requires 1 <= k && n < Pow10(k)
    ensures |Decimal(n)| <= k
    decreases k
  {
    if n >= 10 {
      assert k >= 2;
      DecimalDigits(n / 10, k - 1);
    }
  }

  /** The extra blank printed after the eighth byte of a column. */
  function Gap(i: int): string
  {
    if i == 7 then " " else ""
  }

  /** Hex cell `i`: `%02X `, and the extra blank after the eighth. */
  function HexCell(b: byte, i: int): (r: string)
    ensures |r| == 3 + |Gap(i)| && r[..2] == HexByte(b)
  {
    HexByte(b) + " " + Gap(i)
  }

  /** ASCII cell `i`: the character, and the extra blank after the eighth. */
  function AsciiCell(b: byte, i: int): (r: string)
    ensures |r| == 1 + |Gap(i)| && r[0] == ShownChar(b)
  {
    [ShownChar(b)] + Gap(i)
  }

  /** Filler cell `i`: three blanks, and the extra blank after the eighth. */
  function PadCell(i: int): (r: string)
    ensures |r| == 3 + |Gap(i)|
  {
    "   " + Gap(i)
  }

  /** The hex cells of the first `n` bytes. */
  function HexCells(buffer: seq<byte>, n: nat): string
    requires n <= |buffer|
  {
    if n == 0 then "" else HexCells(buffer, n - 1) + HexCell(buffer[n - 1], n - 1)
  }

  /** The ASCII cells of the first `n` bytes. */
  function AsciiCells(buffer: seq<byte>, n: nat): string
    requires n <= |buffer|
  {
    if n == 0 then "" else AsciiCells(buffer, n - 1) + AsciiCell(buffer[n - 1], n - 1)
  }

  /**
   * The filler for the missing `m` cells of a short line, as written: the
   * blank goes after the eighth filler cell, counted from the first missing
   * cell rather than from the start of the line.
   */
  function PadCellsAsWritten(m: nat): string
  {
    if m == 0 then "" else PadCellsAsWritten(m - 1) + PadCell(m - 1)
  }

  /** The filler for the cells after the first `len`, with the blank after the line's eighth cell. */
  function PadCells(len: nat, m: nat): string
  {
    if m == 0 then "" else PadCells(len, m - 1) + PadCell(len + m - 1)
  }

  /** The filler a line of `len` bytes needs. */
  function Pad(len: nat): string
  {
    if len < BUFFER_SIZE then PadCells(len, BUFFER_SIZE - len) else ""
  }

  /** One line of `print_hex_ascii` as the code writes it. */
  function LineAsWritten(addr: int, buffer: seq<byte>, length: nat): string
    requires length <= |buffer|
  {
    Field7(addr) + ": " + HexCells(buffer, length)
    + (if length < BUFFER_SIZE then PadCellsAsWritten(BUFFER_SIZE - length) else "")
    + " " + AsciiCells(buffer, length) + "\n"
  }

  /** One line of `print_hex_ascii` with the filler aligned to a full line. */
  function Line(addr: int, buffer: seq<byte>, length: nat): string
    requires length <= |buffer|
  {
    Field7(addr) + ": " + HexCells(buffer, length) + Pad(length) + " " + AsciiCells(buffer, length) + "\n"
  }

  /** Where cell `i` of a column starts: three characters per cell, one more after the eighth. */
  function CellStart(i: nat): nat
  {
    3 * i + (if i >= 8 then 1 else 0)
  }

  lemma {:induction false} HexCellsLength(buffer: seq<byte>, n: nat)
    requires n <= |buffer|
    ensures |HexCells(buffer, n)| == CellStart(n)
  {
    if n > 0 {
      HexCellsLength(buffer, n - 1);
    }
  }

  /** Byte `i` appears as its two digits at the start of cell `i`. */
  lemma {:induction false} HexCellsShowByte(buffer: seq<byte>, n: nat, i: nat)
    requires i < n <= |buffer|
    ensures CellStart(i) + 2 <= |HexCells(buffer, n)|
    ensures HexCells(buffer, n)[CellStart(i)..CellStart(i) + 2] == HexByte(buffer[i])
    decreases n
  {
    HexCellsLength(buffer, i);
    HexCellsPrefix(buffer, i + 1, n);
    var h, c := HexCells(buffer, i), HexCell(buffer[i], i);
    assert HexCells(buffer, i + 1) == h + c;
    SliceOfRight(HexCells(buffer, i + 1), h, c, CellStart(i), HexByte(buffer[i]));
    SliceOfPrefix(HexCells(buffer, i + 1), HexCells(buffer, n), CellStart(i));
  }

  /** The hex cells of fewer bytes begin the hex cells of more. */
  lemma {:induction false} HexCellsPrefix(buffer: seq<byte>, m: nat, n: nat)
    requires m <= n <= |buffer|
    ensures HexCells(buffer, m) <= HexCells(buffer, n)
    decreases n
  {
    if m < n {
      HexCellsPrefix(buffer, m, n - 1);
      PrefixExtends(HexCells(buffer, m), HexCells(buffer, n - 1), HexCell(buffer[n - 1], n - 1));
    }
  }

  /** A prefix of `h` is a prefix of `h + c`. */
  lemma PrefixExtends(p: string, h: string, c: string)
    requires p <= h
    ensures p <= h + c
  {
    assert forall k :: 0 <= k < |p| ==> (h + c)[k] == h[k];
  }

  /** Two characters inside a prefix are the same two characters of the whole. */
  lemma SliceOfPrefix(p: string, s: string, a: nat)
    requires p <= s && a + 2 <= |p|
    ensures s[a..a + 2] == p[a..a + 2]
  {
    assert s[a] == p[a] && s[a + 1] == p[a + 1];
  }

  /** The first two characters of the right part of a concatenation. */
  lemma SliceOfRight(s: string, h: string, c: string, a: nat, x: string)
    requires s == h + c && a == |h| && 2 <= |c| && c[..2] == x
    ensures s[a..a + 2] == x
  {
    assert s[a] == c[0] && s[a + 1] == c[1];
  }

  lemma {:induction false} AsciiCellsLength(buffer: seq<byte>, n: nat)
    requires n <= |buffer|
    ensures |AsciiCells(buffer, n)| == n + (if n >= 8 then 1 else 0)
  {
    if n > 0 {
      AsciiCellsLength(buffer, n - 1);
    }
  }

  /** Byte `i` appears in the ASCII column after `i` characters and, past the eighth, one blank. */
  lemma {:induction false} AsciiCellsShowByte(buffer: seq<byte>, n: nat, i: nat)
    requires i < n <= |buffer|
    ensures i + (if i >= 8 then 1 else 0) < |AsciiCells(buffer, n)|
    ensures AsciiCells(buffer, n)[i + (if i >= 8 then 1 else 0)] == ShownChar(buffer[i])
    decreases n
  {
    AsciiCellsLength(buffer, n);
    AsciiCellsLength(buffer, n - 1);
    if i < n - 1 {
      AsciiCellsShowByte(buffer, n - 1, i);
    }
  }

  lemma {:induction false} PadCellsAsWrittenLength(m: nat)
    ensures |PadCellsAsWritten(m)| == CellStart(m)
  {
    if m > 0 {
      PadCellsAsWrittenLength(m - 1);
    }
  }

  /** The aligned filler takes exactly the columns of the missing cells. */
  lemma {:induction false} PadCellsLength(len: nat, m: nat)
    requires len + m <= BUFFER_SIZE
    ensures |PadCells(len, m)| == CellStart(len + m) - CellStart(len)
  {
    if m > 0 {
      PadCellsLength(len, m - 1);
    }
  }

  /**
   * With the aligned filler the hex column of every line of at most sixteen
   * bytes is as wide as a full one, so the ASCII column always starts at the
   * same place.
   */
  lemma HexColumnWidth(buffer: seq<byte>, length: nat)
    requires length <= BUFFER_SIZE && length <= |buffer|
    ensures |HexCells(buffer, length) + Pad(length)| == CellStart(BUFFER_SIZE)
    ensures CellStart(BUFFER_SIZE) == 49
  {
    HexCellsLength(buffer, length);
    if length < BUFFER_SIZE {
      PadCellsLength(length, BUFFER_SIZE - length);
    }
  }

  /** As written, an eight-byte line gets two extra blanks and its ASCII column moves one place right. */
  lemma EightByteLineMisaligned(buffer: seq<byte>)
    requires |buffer| >= BUFFER_SIZE
    ensures |HexCells(buffer, 8) + PadCellsAsWritten(BUFFER_SIZE - 8)| == 50
    ensures |HexCells(buffer, BUFFER_SIZE)| == 49
    ensures |LineAsWritten(0, buffer, 8)| - 8 != |LineAsWritten(0, buffer, BUFFER_SIZE)| - BUFFER_SIZE
  {
    HexCellsLength(buffer, 8);
    HexCellsLength(buffer, BUFFER_SIZE);
    PadCellsAsWrittenLength(BUFFER_SIZE - 8);
    AsciiCellsLength(buffer, 8);
    AsciiCellsLength(buffer, BUFFER_SIZE);
  }

  /** The hex cells loop of `print_hex_ascii`. */
  method PrintHexCells(buffer: seq<byte>, length: nat) returns (out: string)
    requires length <= |buffer|
    ensures out == HexCells(buffer, length)
  {
    out := "";
    var i := 0;
    while i < length
      invariant 0 <= i <= length && out == HexCells(buffer, i)
    {
      var cell := HexByte(buffer[i]) + " ";
      if i == 7 {
        cell := cell + " ";
      }
      assert cell == HexCell(buffer[i], i);
      out := out + cell;
      i := i + 1;
    }
  }

  /** The filler loop of `print_hex_ascii` for a line of `length` bytes. */
  method PrintPad(length: nat) returns (out: string)
    ensures out == Pad(length)
  {
    out := "";
    if length < BUFFER_SIZE {
      var j := 0;
      while j < BUFFER_SIZE - length
        invariant 0 <= j <= BUFFER_SIZE - length && out == PadCells(length, j)
      {
        var cell := "   ";
        if length + j == 7 {
          cell := cell + " ";
        }
        assert cell == PadCell(length + j);
        out := out + cell;
        j := j + 1;
      }
    }
  }

  /** The ASCII cells loop of `print_hex_ascii`. */
  method PrintAsciiCells(buffer: seq<byte>, length: nat) returns (out: string)
    requires length <= |buffer|
    ensures out == AsciiCells(buffer, length)
  {
    out := "";
    var i := 0;
    while i < length
      invariant 0 <= i <= length && out == AsciiCells(buffer, i)
    {
      var cell := [ShownChar(buffer[i])];
      if i == 7 {
        cell := cell + " ";
      }
      assert cell == AsciiCell(buffer[i], i);
      out := out + cell;
      i := i + 1;
    }
  }

  /**
   * `print_hex_ascii(fp, addr, buffer, length)`: the address, the hex cells,
   * the filler of a short line and the ASCII cells, as one line of text.
   */
  method PrintHexAscii(addr: int, buffer: seq<byte>, length: nat) returns (out: string)
    requires length <= |buffer|
    ensures out == Line(addr, buffer, length)
  {
    var hex := PrintHexCells(buffer, length);
    var pad := PrintPad(length);
    var ascii := PrintAsciiCells(buffer, length);
    out := Field7(addr) + ": " + hex + pad + " " + ascii + "\n";
  }

  // ---------------------------------------------------------------------
  // packet_dump
  // ---------------------------------------------------------------------

  /** One `print_hex_ascii` call of a dump: `len` bytes from `offset`, shown at address `offset`. */
  datatype Chunk = Chunk(offset: int, len: int)

  /**
   * The calls `packet_dump` makes as written: the line length is taken
   * from the whole packet length, so every line of a packet of sixteen
   * bytes or more is sixteen bytes long, the last one included.
   */
  function DumpChunksAsWritten(length: int, total: int): (r: seq<Chunk>)
    requires 0 <= total
    ensures r == [] <==> total >= length
    decreases length - total
  {
    if total >= length then []
    else
      var len := if length >= BUFFER_SIZE then BUFFER_SIZE else length;
      [Chunk(total, len)] + DumpChunksAsWritten(length, total + len)
  }

  /** As written, a 20-byte packet is dumped as two 16-byte lines: bytes 20 to 31 lie past its end. */
  lemma DumpReadsPastPacket()
    ensures DumpChunksAsWritten(20, 0) == [Chunk(0, 16), Chunk(16, 16)]
    ensures DumpChunksAsWritten(20, 0)[1].offset + DumpChunksAsWritten(20, 0)[1].len > 20
  {
    assert DumpChunksAsWritten(20, 32) == [];
    assert DumpChunksAsWritten(20, 16) == [Chunk(16, 16)];
  }

  /**
   * As written, a packet of sixteen bytes or more is dumped from `total` in
   * lines of sixteen bytes at `total`, `total + 16`, ..., one per started
   * block, the last line included.
   */
  lemma {:induction false} DumpChunksAsWrittenFull(length: int, total: nat)
    requires BUFFER_SIZE <= length
    ensures |DumpChunksAsWritten(length, total)| ==
              if total >= length then 0 else (length - total + BUFFER_SIZE - 1) / BUFFER_SIZE
    ensures forall k :: 0 <= k < |DumpChunksAsWritten(length, total)| ==>
              DumpChunksAsWritten(length, total)[k] == Chunk(total + BUFFER_SIZE * k, BUFFER_SIZE)
    decreases length - total
  {
    if total < length {
      var cs := DumpChunksAsWritten(length, total);
      var rest := DumpChunksAsWritten(length, total + BUFFER_SIZE);
      DumpChunksAsWrittenFull(length, total + BUFFER_SIZE);
      assert cs == [Chunk(total, BUFFER_SIZE)] + rest;
      forall k | 0 <= k < |cs|
        ensures cs[k] == Chunk(total + BUFFER_SIZE * k, BUFFER_SIZE)
      {
        if k > 0 {
          assert cs[k] == rest[k - 1];
        }
      }
    }
  }

  /**
   * As written, a dump of `length` bytes has one line per started block of
   * sixteen, line `k` at address `16 k`. Every line is sixteen bytes long
   * when the packet has sixteen bytes or more; a shorter packet is one line
   * of all its bytes.
   */
  lemma DumpChunksAsWrittenShape(length: int)
    requires 0 <= length
    ensures |DumpChunksAsWritten(length, 0)| == (length + BUFFER_SIZE - 1) / BUFFER_SIZE
    ensures forall k :: 0 <= k < |DumpChunksAsWritten(length, 0)| ==>
              DumpChunksAsWritten(length, 0)[k].offset == BUFFER_SIZE * k
    ensures forall k :: 0 <= k < |DumpChunksAsWritten(length, 0)| ==>
              DumpChunksAsWritten(length, 0)[k].len == if length >= BUFFER_SIZE then BUFFER_SIZE else length
  {
    if length >= BUFFER_SIZE {
      DumpChunksAsWrittenFull(length, 0);
    } else if length > 0 {
      assert DumpChunksAsWritten(length, length) == [];
    }
  }

  /**
   * The calls of `packet_dump` with each line limited to the bytes that are
   * left: full lines of sixteen bytes at addresses 0, 16, 32, ... and a
   * shorter last line.
   */
  function DumpChunks(length: int, total: int): (r: seq<Chunk>)
    requires 0 <= total
    ensures ChunksWithin(r, total, length)
    decreases length - total
  {
    if total >= length then []
    else
      var len := Min(BUFFER_SIZE, length - total);
      var rest := DumpChunks(length, total + len);
      assert ([Chunk(total, len)] + rest)[1..] == rest;
      [Chunk(total, len)] + rest
  }

  /** Each chunk starts where the previous one ended, at or after `lo`, and ends by `hi`. */
  predicate ChunksWithin(cs: seq<Chunk>, lo: int, hi: int)
    decreases |cs|
  {
    |cs| == 0 ||
    (0 <= lo == cs[0].offset && 0 < cs[0].len && cs[0].offset + cs[0].len <= hi &&
     ChunksWithin(cs[1..], cs[0].offset + cs[0].len, hi))
  }

  /** Chunks of a range lie inside any buffer that holds the range. */
  lemma {:induction false} ChunksWithinBuffer(cs: seq<Chunk>, lo: int, hi: int, k: int)
    requires ChunksWithin(cs, lo, hi) && 0 <= k < |cs|
    ensures lo <= cs[k].offset && 0 < cs[k].len && cs[k].offset + cs[k].len <= hi
    decreases k
  {
    if k > 0 {
      ChunksWithinBuffer(cs[1..], cs[0].offset + cs[0].len, hi, k - 1);
    }
  }

  /** All lines but the last are full: chunk `k` of a dump from `total` is at `total + 16 k`. */
  lemma {:induction false} DumpChunksShape(length: int, total: nat, k: int)
    requires 0 <= k < |DumpChunks(length, total)|
    ensures DumpChunks(length, total)[k].offset == total + BUFFER_SIZE * k
    ensures k < |DumpChunks(length, total)| - 1 ==> DumpChunks(length, total)[k].len == BUFFER_SIZE
    ensures DumpChunks(length, total)[k].len <= BUFFER_SIZE
    decreases k
  {
    var cs := DumpChunks(length, total);
    var len := Min(BUFFER_SIZE, length - total);
    assert cs[1..] == DumpChunks(length, total + len);
    if k > 0 {
      DumpChunksShape(length, total + len, k - 1);
      assert cs[k] == cs[1..][k - 1];
      assert cs[1..] != [];
      assert len == BUFFER_SIZE;
    } else if |cs| > 1 {
      assert cs[1..] != [];
    }
  }

  /** A dump of `length` bytes has one line per started block of sixteen. */
  lemma {:induction false} DumpLineCount(length: int, total: nat)
    requires total <= length
    ensures |DumpChunks(length, total)| == (length - total + BUFFER_SIZE - 1) / BUFFER_SIZE
    decreases length - total
  {
    if total < length {
      var len := Min(BUFFER_SIZE, length - total);
      DumpLineCount(length, total + len);
      if length - total > BUFFER_SIZE {
        DivModUnique(length - total + BUFFER_SIZE - 1, BUFFER_SIZE,
                     (length - total - 1) / BUFFER_SIZE + 1, (length - total - 1) % BUFFER_SIZE);
        DivModUnique(length - total - 1, BUFFER_SIZE,
                     (length - total - 1) / BUFFER_SIZE, (length - total - 1) % BUFFER_SIZE);
      }
    }
  }

  /** The bytes the chunks show, in order. */
  function Shown(buffer: seq<byte>, cs: seq<Chunk>, lo: int): seq<byte>
    requires ChunksWithin(cs, lo, |buffer|)
    decreases |cs|
  {
    if |cs| == 0 then [] else buffer[cs[0].offset..cs[0].offset + cs[0].len] + Shown(buffer, cs[1..], cs[0].offset + cs[0].len)
  }

  /** Chunks within a shorter range are within a longer one. */
  lemma {:induction false} ChunksWithinWiden(cs: seq<Chunk>, lo: int, hi: int, hi': int)
    requires ChunksWithin(cs, lo, hi) && hi <= hi'
    ensures ChunksWithin(cs, lo, hi')
    decreases |cs|
  {
    if |cs| > 0 {
      ChunksWithinWiden(cs[1..], cs[0].offset + cs[0].len, hi, hi');
    }
  }

  /** Every byte of the packet is shown exactly once, in order, and nothing past its end. */
  lemma {:induction false} DumpShowsPacket(buffer: seq<byte>, length: int, total: nat)
    requires total <= length <= |buffer|
    ensures ChunksWithin(DumpChunks(length, total), total, |buffer|)
    ensures Shown(buffer, DumpChunks(length, total), total) == buffer[total..length]
    decreases length - total
  {
    ChunksWithinWiden(DumpChunks(length, total), total, length, |buffer|);
    if total < length {
      var len := Min(BUFFER_SIZE, length - total);
      DumpShowsPacket(buffer, length, total + len);
      var cs := DumpChunks(length, total);
      assert cs[1..] == DumpChunks(length, total + len);
      assert buffer[total..length] == buffer[total..total + len] + buffer[total + len..length];
    }
  }

  /** The text of a dump: one line per chunk. */
  function Render(buffer: seq<byte>, cs: seq<Chunk>, lo: int): string
    requires ChunksWithin(cs, lo, |buffer|)
    decreases |cs|
  {
    if |cs| == 0 then ""
    else Line(cs[0].offset, buffer[cs[0].offset..], cs[0].len) + Render(buffer, cs[1..], cs[0].offset + cs[0].len)
  }

  lemma ConcatAssoc(a: string, b: string, c: string)
    ensures (a + b) + c == a + (b + c)
  {
  }

  /** The dump from `total` is its first line followed by the dump from the next line on. */
  lemma DumpStep(buffer: seq<byte>, length: int, total: nat, len: int)
    requires total < length <= |buffer|
    requires len == Min(BUFFER_SIZE, length - total)
    ensures ChunksWithin(DumpChunks(length, total), total, |buffer|)
    ensures ChunksWithin(DumpChunks(length, total + len), total + len, |buffer|)
    ensures Render(buffer, DumpChunks(length, total), total)
            == Line(total, buffer[total..], len) + Render(buffer, DumpChunks(length, total + len), total + len)
  {
    ChunksWithinWiden(DumpChunks(length, total), total, length, |buffer|);
    ChunksWithinWiden(DumpChunks(length, total + len), total + len, length, |buffer|);
    var cs := DumpChunks(length, total);
    assert cs[1..] == DumpChunks(length, total + len);
  }

  /**
   * `packet_dump(fp, buffer, length)` with each line limited to the bytes
   * that are left: the lines of `DumpChunks`, each at its own address.
   */
  method PacketDump(buffer: seq<byte>, length: int) returns (out: string)
    requires length <= |buffer|
    ensures ChunksWithin(DumpChunks(length, 0), 0, |buffer|)
    ensures out == Render(buffer, DumpChunks(length, 0), 0)
  {
    ChunksWithinWiden(DumpChunks(length, 0), 0, length, |buffer|);
    var total, address := 0, 0;
    out := "";
    while total < length
      invariant 0 <= total && (total < length ==> address == total)
      invariant ChunksWithin(DumpChunks(length, total), total, |buffer|)
      invariant out + Render(buffer, DumpChunks(length, total), total) == Render(buffer, DumpChunks(length, 0), 0)
      decreases length - total
    {
      var line, len := DumpTurn(buffer, length, total, address);
      ConcatAssoc(out, line, Render(buffer, DumpChunks(length, total + len), total + len));
      out := out + line;
      total := total + len;
      address := address + BUFFER_SIZE;
    }
  }

  /** One turn of the `packet_dump` loop: the line at `total` and the number of bytes it shows. */
  method DumpTurn(buffer: seq<byte>, length: int, total: nat, address: int) returns (line: string, len: int)
    requires total < length <= |buffer| && address == total
    ensures 0 < len <= length - total && (total + len < length ==> len == BUFFER_SIZE)
    ensures ChunksWithin(DumpChunks(length, total), total, |buffer|)
    ensures ChunksWithin(DumpChunks(length, total + len), total + len, |buffer|)
    ensures line + Render(buffer, DumpChunks(length, total + len), total + len)
            == Render(buffer, DumpChunks(length, total), total)
  {
    if length - total >= BUFFER_SIZE {
      len := BUFFER_SIZE;
    } else {
      len := length - total;
    }
    DumpStep(buffer, length, total, len);
    line := PrintHexAscii(address, buffer[total..], len);
  }

  // ---------------------------------------------------------------------
  // Statistics and the receive loop
  // ---------------------------------------------------------------------

  /** The twelve `unsigned long long` counters of `stats_t`. */
  datatype Counters = Counters(
    rxPackets: u64, rxBytes: u64, rxErrors: u64, rxNoBuffer: u64, rxPps: u64, rxBps: u64,
    txPackets: u64, txBytes: u64, txFiltered: u64, txErrors: u64, txPps: u64, txBps: u64)

  const ZeroCounters := Counters(0, 0, 0, 0, 0, 0, 0, 0, 0, 0, 0, 0)

  /** `stats_t` (`rx_stats`, `tx_stats`). */
  class Stats {
    var rxPackets: u64
    var rxBytes: u64
    var rxErrors: u64
    var rxNoBuffer: u64
    var rxPps: u64
    var rxBps: u64
    var txPackets: u64
    var txBytes: u64
    var txFiltered: u64
    var txErrors: u64
    var txPps: u64
    var txBps: u64

    ghost function Value(): Counters
      reads this
    {
      Counters(rxPackets, rxBytes, rxErrors, rxNoBuffer, rxPps, rxBps,
               txPackets, txBytes, txFiltered, txErrors, txPps, txBps)
    }

    /** `initialize_statistics`: every counter zero. */
    constructor InitializeStatistics()
      ensures Value() == ZeroCounters
    {
      rxPackets, rxBytes, rxErrors, rxNoBuffer, rxPps, rxBps := 0, 0, 0, 0, 0, 0;
      txPackets, txBytes, txFiltered, txErrors, txPps, txBps := 0, 0, 0, 0, 0, 0;
    }
  }

  /**
   * One turn of the receive loop as its environment decides it: the buffer
   * `buffer_pool_alloc` handed out (`NULL` when none was free), whether the
   * read into it failed, and the byte count the read reported.
   */
  datatype RxEvent = RxEvent(buffer: Ptr, readFailed: bool, bytesRcv: int)

  /** The frame is counted and queued: a buffer was free, the read worked and the frame fits. */
  predicate RxAccepted(e: RxEvent)
  {
    e.buffer != NULL && !e.readFailed && e.bytesRcv <= MAX_BUFFER_LENGTH
  }

  /** The buffer goes back to the pool and the turn counts as an error. */
  predicate RxRejected(e: RxEvent)
  {
    e.buffer != NULL && !RxAccepted(e)
  }

  /** The counters after one turn: exactly one of `rxPackets`, `rxErrors`, `rxNoBuffer` goes up. */
  function RxStepCounters(c: Counters, e: RxEvent): (r: Counters)
    ensures r.rxPps == c.rxPps && r.rxBps == c.rxBps
    ensures r.(rxPackets := c.rxPackets, rxBytes := c.rxBytes, rxErrors := c.rxErrors, rxNoBuffer := c.rxNoBuffer) == c
  {
    if e.buffer == NULL then c.(rxNoBuffer := U64(c.rxNoBuffer + 1))
    else if RxRejected(e) then c.(rxErrors := U64(c.rxErrors + 1))
    else c.(rxPackets := U64(c.rxPackets + 1), rxBytes := U64(c.rxBytes + e.bytesRcv))
  }

  /** The counters after the turns `es`, in order. */
  function RxCounters(c: Counters, es: seq<RxEvent>): Counters
    decreases |es|
  {
    if |es| == 0 then c else RxStepCounters(RxCounters(c, es[..|es| - 1]), es[|es| - 1])
  }

  /** The queue after the turns `es`: each accepted frame's buffer is enqueued. */
  function RxQueue(q: seq<Ptr>, es: seq<RxEvent>): (r: seq<Ptr>)
    requires |q| <= NUMBER_OF_QUEUE
    ensures |r| <= NUMBER_OF_QUEUE
    decreases |es|
  {
    if |es| == 0 then q
    else
      var p := RxQueue(q, es[..|es| - 1]);
      if RxAccepted(es[|es| - 1]) then QueueEnqueue(p, es[|es| - 1].buffer) else p
  }

  /** The buffers handed back to the pool by the turns `es`. */
  function RxReturned(es: seq<RxEvent>): seq<Ptr>
    decreases |es|
  {
    if |es| == 0 then []
    else RxReturned(es[..|es| - 1]) + (if RxRejected(es[|es| - 1]) then [es[|es| - 1].buffer] else [])
  }

  /** The buffers of the accepted frames, in order. */
  function RxAcceptedBuffers(es: seq<RxEvent>): seq<Ptr>
    decreases |es|
  {
    if |es| == 0 then []
    else RxAcceptedBuffers(es[..|es| - 1]) + (if RxAccepted(es[|es| - 1]) then [es[|es| - 1].buffer] else [])
  }

  /** The total byte count of the accepted frames. */
  function RxAcceptedBytes(es: seq<RxEvent>): int
    decreases |es|
  {
    if |es| == 0 then 0
    else RxAcceptedBytes(es[..|es| - 1]) + (if RxAccepted(es[|es| - 1]) then es[|es| - 1].bytesRcv else 0)
  }

  /** The three per-turn counters together. */
  function Turns(c: Counters): int
  {
    c.rxPackets + c.rxErrors + c.rxNoBuffer
  }

  /** One turn adds one to the per-turn counters, modulo 2^64. */
  lemma RxStepCountsOnce(c: Counters, e: RxEvent)
    ensures U64(Turns(RxStepCounters(c, e))) == U64(Turns(c) + 1)
  {
    var r := RxStepCounters(c, e);
    if e.buffer == NULL {
      assert (r.rxNoBuffer - (c.rxNoBuffer + 1)) % TWO_64 == 0;
    } else if RxRejected(e) {
      assert (r.rxErrors - (c.rxErrors + 1)) % TWO_64 == 0;
    } else {
      assert (r.rxPackets - (c.rxPackets + 1)) % TWO_64 == 0;
    }
    Congruent(Turns(r), Turns(c) + 1);
  }

  /**
   * Every turn is counted once: `rxPackets`, `rxErrors` and `rxNoBuffer`
   * together grow by the number of turns, modulo 2^64.
   */
  lemma {:induction false} RxTurnsCounted(c: Counters, es: seq<RxEvent>)
    ensures U64(Turns(RxCounters(c, es))) == U64(Turns(c) + |es|)
    decreases |es|
  {
    if |es| > 0 {
      var init := es[..|es| - 1];
      var p := RxCounters(c, init);
      calc {
        U64(Turns(RxCounters(c, es)));
        { RxStepCountsOnce(p, es[|es| - 1]); }
        U64(Turns(p) + 1);
        { U64AddMod(Turns(p), 1); }
        U64(U64(Turns(p)) + 1);
        { RxTurnsCounted(c, init); }
        U64(U64(Turns(c) + |init|) + 1);
        { U64AddMod(Turns(c) + |init|, 1); }
        U64(Turns(c) + |es|);
      }
    }
  }

  /** `rxBytes` grows by the bytes of the accepted frames, modulo 2^64; `rxPps`, `rxBps` stay. */
  lemma {:induction false} RxBytesCounted(c: Counters, es: seq<RxEvent>)
    ensures RxCounters(c, es).rxBytes == U64(c.rxBytes + RxAcceptedBytes(es))
    ensures RxCounters(c, es).rxPps == c.rxPps && RxCounters(c, es).rxBps == c.rxBps
    decreases |es|
  {
    if |es| > 0 {
      var init := es[..|es| - 1];
      var e := es[|es| - 1];
      RxBytesCounted(c, init);
      if RxAccepted(e) {
        U64AddMod(c.rxBytes + RxAcceptedBytes(init), e.bytesRcv);
      }
    }
  }

  /** While the queue has room, its new entries are exactly the accepted frames' buffers, in order. */
  lemma {:induction false} RxQueueAppends(q: seq<Ptr>, es: seq<RxEvent>)
    requires |q| + |RxAcceptedBuffers(es)| <= NUMBER_OF_QUEUE
    ensures RxQueue(q, es) == q + RxAcceptedBuffers(es)
    decreases |es|
  {
    if |es| > 0 {
      RxQueueAppends(q, es[..|es| - 1]);
    }
  }

  /** Only buffers of frames that fit a buffer are ever queued. */
  lemma {:induction false} RxAcceptedFit(es: seq<RxEvent>, k: int)
    requires 0 <= k < |RxAcceptedBuffers(es)|
    ensures exists j :: 0 <= j < |es| && RxAccepted(es[j]) && es[j].buffer == RxAcceptedBuffers(es)[k] && es[j].bytesRcv <= MAX_BUFFER_LENGTH
    decreases |es|
  {
    var init := es[..|es| - 1];
    if k < |RxAcceptedBuffers(init)| {
      RxAcceptedFit(init, k);
      var j :| 0 <= j < |init| && RxAccepted(init[j]) && init[j].buffer == RxAcceptedBuffers(init)[k] && init[j].bytesRcv <= MAX_BUFFER_LENGTH;
      assert es[j] == init[j];
    } else {
      assert es[|es| - 1].buffer == RxAcceptedBuffers(es)[k];
    }
  }

  /**
   * One turn of `receiver_in_normal_mode`: without a buffer `rxNoBuffer`
   * goes up; a failed read or an oversized frame gives the buffer back and
   * counts an error; otherwise the frame is counted and its buffer queued.
   */
  method ReceiveStep(queue: CircularQueue, stats: Stats, e: RxEvent) returns (returned: Option<Ptr>)
    requires queue.Valid()
    modifies queue, queue.elements, stats
    ensures queue.Valid() && queue.elements == old(queue.elements)
    ensures stats.Value() == RxStepCounters(old(stats.Value()), e)
    ensures queue.Contents() == if RxAccepted(e) then QueueEnqueue(old(queue.Contents()), e.buffer) else old(queue.Contents())
    ensures returned == if RxRejected(e) then Some(e.buffer) else None
  {
    var buffer := e.buffer;
    if buffer == NULL {
      stats.rxNoBuffer := U64(stats.rxNoBuffer + 1);
      return None;
    }
    if e.readFailed {
      stats.rxErrors := U64(stats.rxErrors + 1);
      return Some(buffer);
    }
    if e.bytesRcv > MAX_BUFFER_LENGTH {
      stats.rxErrors := U64(stats.rxErrors + 1);
      return Some(buffer);
    }
    stats.rxPackets := U64(stats.rxPackets + 1);
    stats.rxBytes := U64(stats.rxBytes + e.bytesRcv);
    queue.Enqueue(buffer);
    returned := None;
  }

  /** `REG_TSN_CONTROL`: the register that switches the TSN data path on (1) and off (0). */
  const REG_TSN_CONTROL: nat := 0x0008

  /** What the receive loop does outside its own state, in order: a `set_register` call, or one turn of the loop. */
  datatype RxAction = SetRegister(offset: nat, value: u32) | Turn(event: RxEvent)

  /** One `Turn` per event, in order. */
  function TurnActions(events: seq<RxEvent>): (r: seq<RxAction>)
    ensures |r| == |events|
    ensures forall k :: 0 <= k < |events| ==> r[k] == Turn(events[k])
  {
    seq(|events|, k requires 0 <= k < |events| => Turn(events[k]))
  }

  /**
   * The `while (rx_thread_run)` loop of `receiver_in_normal_mode` over the
   * turns `events`: the counters, the queue and the buffers given back are
   * those of the turns in order.
   */
  method ReceiveTurns(queue: CircularQueue, stats: Stats, events: seq<RxEvent>) returns (returned: seq<Ptr>)
    requires queue.Valid()
    modifies queue, queue.elements, stats
    ensures queue.Valid() && queue.elements == old(queue.elements)
    ensures stats.Value() == RxCounters(old(stats.Value()), events)
    ensures queue.Contents() == RxQueue(old(queue.Contents()), events)
    ensures returned == RxReturned(events)
  {
    returned := [];
    var k := 0;
    while k < |events|
      invariant 0 <= k <= |events| && queue.Valid() && queue.elements == old(queue.elements)
      invariant stats.Value() == RxCounters(old(stats.Value()), events[..k])
      invariant queue.Contents() == RxQueue(old(queue.Contents()), events[..k])
      invariant returned == RxReturned(events[..k])
    {
      assert events[..k + 1][..k] == events[..k];
      var r := ReceiveStep(queue, stats, events[k]);
      if r.Some? {
        returned := returned + [r.value];
      }
      k := k + 1;
    }
    assert events[..k] == events;
  }

  /**
   * `receiver_in_normal_mode`: the data path is switched on, the loop runs
   * its turns, and the data path is switched off; the state changes are
   * those of `ReceiveTurns`.
   */
  method ReceiverInNormalMode(queue: CircularQueue, stats: Stats, events: seq<RxEvent>)
    returns (returned: seq<Ptr>, actions: seq<RxAction>)
    requires queue.Valid()
    modifies queue, queue.elements, stats
    ensures queue.Valid() && queue.elements == old(queue.elements)
    ensures stats.Value() == RxCounters(old(stats.Value()), events)
    ensures queue.Contents() == RxQueue(old(queue.Contents()), events)
    ensures returned == RxReturned(events)
    ensures |actions| == |events| + 2
    ensures actions[0] == SetRegister(REG_TSN_CONTROL, 1)
    ensures forall k :: 0 <= k < |events| ==> actions[k + 1] == Turn(events[k])
    ensures actions[|events| + 1] == SetRegister(REG_TSN_CONTROL, 0)
  {
    var turns := TurnActions(events);
    actions := [SetRegister(REG_TSN_CONTROL, 1)] + turns + [SetRegister(REG_TSN_CONTROL, 0)];
    forall k | 0 <= k < |events|
      ensures actions[k + 1] == Turn(events[k])
    {
      assert actions[k + 1] == turns[k];
    }
    returned := ReceiveTurns(queue, stats, events);
  }
}
