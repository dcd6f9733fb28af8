/**
 * The command-line front end of the XDMA sample application: hexadecimal
 * argument parsing, the show/get/set register commands, the option ranges
 * of the run/tx/ipc commands, the IPC data buffer and mailbox handshake,
 * and the display of 64-bit registers kept as two 32-bit halves.
 *
 * Register and IPC accesses go through the XDMA user-space library, which
 * is outside the model: what they read back, and whether they fail, are
 * parameters.
 */
module TsnApp {
  import opened Common

  // ---------------------------------------------------------------------
  // Hexadecimal parsing: char_to_hex and str_to_hex
  // ---------------------------------------------------------------------

  predicate IsHexDigit(c: char)
  {
    ('0' <= c <= '9') || ('A' <= c <= 'F') || ('a' <= c <= 'f')
  }

  /** `char_to_hex`: the digit's value, or -1 for a character that is not a hex digit. */
  function CharToHex(c: char): (r: int)
    ensures -1 <= r < 16
    ensures r >= 0 <==> IsHexDigit(c)
  {
    if '0' <= c <= '9' then c as int - 48
    else if 'A' <= c <= 'F' then c as int - 55
    else if 'a' <= c <= 'f' then c as int - 87
    else -1
  }

  /** The digit for `v`, in lower or upper case. */
  function HexDigit(v: nat, upper: bool): (c: char)
    requires v < 16
    ensures IsHexDigit(c)
  {
    if v < 10 then (48 + v) as char
    else if upper then (55 + v) as char
    else (87 + v) as char
  }

  /** `char_to_hex` inverts the digit table, in both cases. */
  lemma CharToHexOfDigit(v: nat, upper: bool)
    requires v < 16
    ensures CharToHex(HexDigit(v, upper)) == v
  {
  }

  predicate AllHexDigits(s: string)
  {
    forall i :: 0 <= i < |s| ==> IsHexDigit(s[i])
  }

  /** The base-16 value of a string of digits, most significant first, in unbounded integers. */
  function HexValue(s: string): (v: nat)
    requires AllHexDigits(s)
  {
    if |s| == 0 then 0 else HexValue(s[..|s| - 1]) * 16 + CharToHex(s[|s| - 1])
  }

  /** The digits of `v`, most significant first, without leading zeros. */
  function HexString(v: nat): (s: string)
    ensures |s| > 0 && AllHexDigits(s)
    decreases v
  {
    if v < 16 then [HexDigit(v, false)] else HexString(v / 16) + [HexDigit(v % 16, false)]
  }

  /** Printing a value in hex and parsing it back gives the value. */
  lemma {:induction false} HexValueOfHexString(v: nat)
    ensures HexValue(HexString(v)) == v
    decreases v
  {
    var s := HexString(v);
    if v >= 16 {
      assert s[..|s| - 1] == HexString(v / 16);
      HexValueOfHexString(v / 16);
      CharToHexOfDigit(v % 16, false);
    } else {
      CharToHexOfDigit(v, false);
    }
  }

  /** A 32-bit signed integer after two's-complement wrap-around. */
  function Wrap32(x: int): (r: i32)
    ensures (x - r) % TWO_32 == 0
    ensures -0x8000_0000 <= x < 0x8000_0000 ==> r == x
  {
    var u := x % TWO_32;
    if u < 0x8000_0000 then u else u - TWO_32
  }

  /** Values that agree modulo 2^32 wrap to the same 32-bit integer. */
  lemma Wrap32Congruent(x: int, y: int)
    requires (x - y) % TWO_32 == 0
    ensures Wrap32(x) == Wrap32(y)
  {
    var k := (x - y) / TWO_32;
    DivModUnique(x, TWO_32, y / TWO_32 + k, y % TWO_32);
  }

  /** The negation of a multiple of 2^32 is one. */
  lemma NegMultiple32(x: int)
    requires x % TWO_32 == 0
    ensures (-x) % TWO_32 == 0
  {
    DivModUnique(-x, TWO_32, -(x / TWO_32), 0);
  }

  /** One accumulation step taken on the wrapped value wraps to the same result. */
  lemma Wrap32Step(v: int, d: int)
    ensures Wrap32(Wrap32(v) * 16 + d) == Wrap32(v * 16 + d)
  {
    var w := Wrap32(v);
    var e := v - w;
    assert e % TWO_32 == 0;
    DivModUnique(e, TWO_32, e / TWO_32, 0);
    DivModUnique(16 * e, TWO_32, 16 * (e / TWO_32), 0);
    assert (w * 16 + d) - (v * 16 + d) == -(16 * e);
    NegMultiple32(16 * e);
    Wrap32Congruent(w * 16 + d, v * 16 + d);
  }

  /**
   * `str_to_hex`: -1 with `*n` untouched when some character is not a hex
   * digit; otherwise 0 with `*n` the digits' value, accumulated in a 32-bit
   * `int32_t` (wrapping).
   */
  method StrToHex(str: string, n: i32) returns (rc: int, nOut: i32)
    ensures rc == 0 || rc == -1
    ensures rc == 0 <==> AllHexDigits(str)
    ensures rc == -1 ==> nOut == n
    ensures rc == 0 ==> nOut == Wrap32(HexValue(str))
  {
    var v: i32 := 0;
    var i := 0;
    while i < |str|
      invariant 0 <= i <= |str| && AllHexDigits(str[..i])
      invariant v == Wrap32(HexValue(str[..i]))
    {
      if !IsHexDigit(str[i]) {
        return -1, n;
      }
      assert str[..i + 1][..i] == str[..i];
      Wrap32Step(HexValue(str[..i]), CharToHex(str[i]));
      v := Wrap32(v * 16 + CharToHex(str[i]));
      i := i + 1;
    }
    assert str[..i] == str;
    rc, nOut := 0, v;
  }

  /** Whether C's `x % 4` is zero for a 32-bit value: the sign of `x` does not matter. */
  predicate Aligned4(x: int)
  {
    TruncRem(x, 4) == 0
  }

  /** Wrap-around keeps the low two bits, so alignment is that of the unbounded value. */
  lemma Wrap32Aligned(x: int)
    ensures Aligned4(Wrap32(x)) <==> x % 4 == 0
  {
    var w: int := Wrap32(x);
    var k := (x - w) / TWO_32;
    assert x == w + 4 * (k * 0x4000_0000);
    if w >= 0 {
      DivModUnique(x, 4, w / 4 + k * 0x4000_0000, w % 4);
    } else {
      DivModUnique(-w, 4, (-w) / 4, (-w) % 4);
      if (-w) % 4 == 0 {
        DivModUnique(x, 4, -((-w) / 4) + k * 0x4000_0000, 0);
      } else {
        DivModUnique(x, 4, -((-w) / 4) - 1 + k * 0x4000_0000, 4 - (-w) % 4);
      }
    }
  }

  // ---------------------------------------------------------------------
  // get / set register arguments
  // ---------------------------------------------------------------------

  /** The scratch register that get and set use by default. */
  const DEFAULT_REG_ADDR: int := 0x10
  /** The value set writes by default. */
  const DEFAULT_REG_VALUE: u32 := 0x9530_2342

  /** The error codes the commands return (`ERR_PARAMETER_MISSED`, `ERR_INVALID_PARAMETER`). */
  datatype AppRc = Ok | ParameterMissed | InvalidParameter

  /** The register access a command makes, if any. */
  datatype Access = NoAccess | ReadReg(addr: int) | WriteReg(addr: int, value: u32) | DumpRegs(group: RegGroup)

  datatype RegGroup = GeneralRegs | RxRegs | TxRegs | H2cChannel | C2hChannel

  /**
   * `fn_get_registerArgument`: the address is parsed from the first
   * argument when there is one (default 0x10) and must be a multiple of 4;
   * then the register is read.
   */
  method GetRegisterArgument(args: seq<string>) returns (rc: AppRc, access: Access)
    ensures |args| > 0 && !AllHexDigits(args[0]) ==> rc == InvalidParameter && access == NoAccess
    ensures |args| == 0 ==> rc == Ok && access == ReadReg(DEFAULT_REG_ADDR)
    ensures |args| > 0 && AllHexDigits(args[0]) ==>
              var a := Wrap32(HexValue(args[0]));
              if HexValue(args[0]) % 4 == 0 then rc == Ok && access == ReadReg(a)
              else rc == InvalidParameter && access == NoAccess
  {
    var addr: i32 := DEFAULT_REG_ADDR;
    if |args| > 0 {
      var r;
      r, addr := StrToHex(args[0], addr);
      if r != 0 {
        return InvalidParameter, NoAccess;
      }
      Wrap32Aligned(HexValue(args[0]));
    }
    if TruncRem(addr, 4) != 0 {
      return InvalidParameter, NoAccess;
    }
    rc, access := Ok, ReadReg(addr);
  }

  /**
   * `fn_set_registerArgument`: address then value, each parsed when given
   * (defaults 0x10 and 0x95302342); the address must be a multiple of 4.
   * The value reaches the register as its 32-bit pattern.
   */
  method SetRegisterArgument(args: seq<string>) returns (rc: AppRc, access: Access)
    ensures |args| == 0 ==> rc == Ok && access == WriteReg(DEFAULT_REG_ADDR, DEFAULT_REG_VALUE)
    ensures |args| > 0 && !AllHexDigits(args[0]) ==> rc == InvalidParameter && access == NoAccess
    ensures |args| > 1 && !AllHexDigits(args[1]) ==> rc == InvalidParameter && access == NoAccess
    ensures |args| > 0 && AllHexDigits(args[0]) && (|args| == 1 || AllHexDigits(args[1])) ==>
              var a := Wrap32(HexValue(args[0]));
              var v := if |args| > 1 then U32(HexValue(args[1])) else DEFAULT_REG_VALUE;
              if HexValue(args[0]) % 4 == 0 then rc == Ok && access == WriteReg(a, v)
              else rc == InvalidParameter && access == NoAccess
  {
    var addr: i32 := DEFAULT_REG_ADDR;
    var value: i32 := Wrap32(DEFAULT_REG_VALUE);
    if |args| > 0 {
      var r;
      r, addr := StrToHex(args[0], addr);
      if r != 0 {
        return InvalidParameter, NoAccess;
      }
      Wrap32Aligned(HexValue(args[0]));
      if |args| > 1 {
        r, value := StrToHex(args[1], value);
        if r != 0 {
          return InvalidParameter, NoAccess;
        }
        U32OfWrap32(HexValue(args[1]));
      }
    }
    if TruncRem(addr, 4) != 0 {
      return InvalidParameter, NoAccess;
    }
    U32OfWrap32(DEFAULT_REG_VALUE);
    rc, access := Ok, WriteReg(addr, U32(value));
  }

  /** Converting the wrapped signed value to `uint32_t` gives the low 32 bits of the original. */
  lemma U32OfWrap32(x: int)
    ensures U32(Wrap32(x)) == U32(x)
  {
    var w := Wrap32(x);
    var k := (x - w) / TWO_32;
    DivModUnique(x, TWO_32, w / TWO_32 + k, w % TWO_32);
  }

  // ---------------------------------------------------------------------
  // show / get / set dispatch
  // ---------------------------------------------------------------------

  /** Index of the first occurrence of `x` in `s`, or `|s|`. */
  function IndexOf(s: seq<string>, x: string): (i: nat)
    ensures i <= |s|
    ensures i < |s| ==> s[i] == x
    ensures forall j :: 0 <= j < i ==> s[j] != x
  {
    if |s| == 0 then 0 else if s[0] == x then 0 else 1 + IndexOf(s[1..], x)
  }

  /** The table scan of the argument handlers: a linear search for an exact match. */
  method LookupArgument(table: seq<string>, name: string) returns (i: nat)
    ensures i == IndexOf(table, name)
  {
    i := 0;
    while i < |table| && table[i] != name
      invariant i <= |table| && forall j :: 0 <= j < i ==> table[j] != name
    {
      i := i + 1;
    }
    IndexOfIs(table, name, i);
  }

  lemma {:induction false} IndexOfIs(s: seq<string>, x: string, i: nat)
    requires i <= |s| && (forall j :: 0 <= j < i ==> s[j] != x) && (i == |s| || s[i] == x)
    ensures IndexOf(s, x) == i
  {
    if i > 0 {
      IndexOfIs(s[1..], x, i - 1);
    }
  }

  const SHOW_REGISTER_ARGS: seq<string> := ["gen", "rx", "tx"]
  const SHOW_CHANNEL_ARGS: seq<string> := ["h2c", "c2h"]
  const SHOW_ARGS: seq<string> := ["register", "channel"]
  const GET_SET_ARGS: seq<string> := ["register"]

  /**
   * `fn_show_registerArgument` and `fn_show_channelArgument`: a missing
   * keyword is reported, an exact match dumps that group, anything else is
   * an invalid parameter.
   */
  method ShowArgument(channel: bool, args: seq<string>) returns (rc: AppRc, access: Access)
    ensures |args| == 0 ==> rc == ParameterMissed && access == NoAccess
    ensures |args| > 0 ==>
              var groups := if channel then [H2cChannel, C2hChannel] else [GeneralRegs, RxRegs, TxRegs];
              var names := if channel then SHOW_CHANNEL_ARGS else SHOW_REGISTER_ARGS;
              var i := IndexOf(names, args[0]);
              if i < |names| then rc == Ok && access == DumpRegs(groups[i])
              else rc == InvalidParameter && access == NoAccess
  {
    if |args| == 0 {
      return ParameterMissed, NoAccess;
    }
    var groups := if channel then [H2cChannel, C2hChannel] else [GeneralRegs, RxRegs, TxRegs];
    var names := if channel then SHOW_CHANNEL_ARGS else SHOW_REGISTER_ARGS;
    var i := LookupArgument(names, args[0]);
    if i < |names| {
      return Ok, DumpRegs(groups[i]);
    }
    rc, access := InvalidParameter, NoAccess;
  }

  /** The register `fn_get_registerArgument` reads for `args`, or none when it rejects them. */
  function GetAccess(args: seq<string>): Access
  {
    if |args| == 0 then ReadReg(DEFAULT_REG_ADDR)
    else if !AllHexDigits(args[0]) || HexValue(args[0]) % 4 != 0 then NoAccess
    else ReadReg(Wrap32(HexValue(args[0])))
  }

  /** The register write `fn_set_registerArgument` makes for `args`, or none when it rejects them. */
  function SetAccess(args: seq<string>): Access
  {
    if |args| == 0 then WriteReg(DEFAULT_REG_ADDR, DEFAULT_REG_VALUE)
    else if !AllHexDigits(args[0]) || (|args| > 1 && !AllHexDigits(args[1])) || HexValue(args[0]) % 4 != 0 then NoAccess
    else WriteReg(Wrap32(HexValue(args[0])), if |args| > 1 then U32(HexValue(args[1])) else DEFAULT_REG_VALUE)
  }

  /** The dump the show handlers make for `args`, or none when the keyword is missing or unknown. */
  function ShowAccess(channel: bool, args: seq<string>): Access
  {
    var groups := if channel then [H2cChannel, C2hChannel] else [GeneralRegs, RxRegs, TxRegs];
    var names := if channel then SHOW_CHANNEL_ARGS else SHOW_REGISTER_ARGS;
    if |args| == 0 || IndexOf(names, args[0]) >= |names| then NoAccess
    else DumpRegs(groups[IndexOf(names, args[0])])
  }

  /** The access the handler of command `c` makes for the words after its keyword. */
  function HandlerAccess(c: MainCmd, argv: seq<string>): Access
    requires |argv| >= 2
  {
    match c
    case GetCmd => GetAccess(argv[2..])
    case SetCmd => SetAccess(argv[2..])
    case ShowCmd => ShowAccess(IndexOf(SHOW_ARGS, argv[1]) == 1, argv[2..])
  }

  /** The three commands that share the dispatch shape. */
  datatype MainCmd = ShowCmd | GetCmd | SetCmd

  /** The number of words (the command's own name included) below which a command reports a missing parameter. */
  function MinWords(c: MainCmd): nat
  {
    match c
    case ShowCmd => 2
    case GetCmd => 3
    case SetCmd => 4
  }

  /**
   * `process_main_show/get/setCmd` on the words `argv` (the command name
   * first): too few words is `ERR_PARAMETER_MISSED`; a keyword with no
   * exact match is `ERR_INVALID_PARAMETER`; otherwise the handler runs on
   * the words after the keyword and the command returns 0 whatever the
   * handler returned.
   */
  method ProcessMainCmd(c: MainCmd, argv: seq<string>) returns (rc: AppRc, access: Access)
    ensures |argv| < MinWords(c) ==> rc == ParameterMissed && access == NoAccess
    ensures |argv| >= MinWords(c) ==>
              var names := if c == ShowCmd then SHOW_ARGS else GET_SET_ARGS;
              (rc == Ok <==> IndexOf(names, argv[1]) < |names|)
              && (rc != Ok ==> rc == InvalidParameter && access == NoAccess)
              && (rc == Ok ==> access == HandlerAccess(c, argv))
  {
    if |argv| < MinWords(c) {
      return ParameterMissed, NoAccess;
    }
    var names := if c == ShowCmd then SHOW_ARGS else GET_SET_ARGS;
    var i := LookupArgument(names, argv[1]);
    if i == |names| {
      return InvalidParameter, NoAccess;
    }
    var rest := argv[2..];
    var handlerRc;
    if c == GetCmd {
      handlerRc, access := GetRegisterArgument(rest);
    } else if c == SetCmd {
      handlerRc, access := SetRegisterArgument(rest);
    } else {
      handlerRc, access := ShowArgument(i == 1, rest);
    }
    rc := Ok;
  }

  // ---------------------------------------------------------------------
  // run / tx options
  // ---------------------------------------------------------------------

  /** The run modes (`RUN_MODE_TSN` .. `RUN_MODE_PCAP`; the last is built in because the platform defines `ONE_QUEUE_TSN`). */
  const RUN_MODE_TSN: int := 0
  const RUN_MODE_DEBUG: int := 4
  const RUN_MODE_CNT: int := 6
  /** `MAX_PACKET_LENGTH * MAX_PACKET_BURST`. */
  const MAX_BUFFER_LENGTH: int := 0x800
  const MIN_DATA_SIZE: int := 64

  /** One option of the run and tx commands; a number is `None` when `str2int` rejects the text. */
  datatype RunOpt = RunMode(n: Option<int>) | RunSize(n: Option<int>) | RunFile(name: string)
                  | RunVerbose | RunHelp | RunOther

  datatype RunSetup = RunRejected | RunHelpShown | RunStart(mode: int, size: int, file: string)

  predicate ValidRun(mode: int, size: int)
  {
    0 <= mode < RUN_MODE_CNT && MIN_DATA_SIZE <= size <= MAX_BUFFER_LENGTH
  }

  /**
   * The option loop of `process_main_runCmd` and `process_main_txCmd`: a
   * mode outside [0, RUN_MODE_CNT) or a size outside 64..MAX_BUFFER_LENGTH
   * rejects the command, `-h` shows help, `-f` replaces the file name.
   */
  function ParseRunOptions(opts: seq<RunOpt>, mode: int, size: int, file: string): (r: RunSetup)
    requires ValidRun(mode, size)
    ensures r.RunStart? ==> ValidRun(r.mode, r.size)
    decreases |opts|
  {
    if |opts| == 0 then RunStart(mode, size, file)
    else match opts[0]
      case RunMode(n) =>
        if n.None? || n.value < 0 || n.value >= RUN_MODE_CNT then RunRejected
        else ParseRunOptions(opts[1..], n.value, size, file)
      case RunSize(n) =>
        if n.None? || n.value < MIN_DATA_SIZE || n.value > MAX_BUFFER_LENGTH then RunRejected
        else ParseRunOptions(opts[1..], mode, n.value, file)
      case RunFile(f) => ParseRunOptions(opts[1..], mode, size, f)
      case RunHelp => RunHelpShown
      case RunVerbose => ParseRunOptions(opts[1..], mode, size, file)
      case RunOther => ParseRunOptions(opts[1..], mode, size, file)
  }

  /** An option that lets the command go on: a number in range, or anything but `-h`. */
  predicate RunOptOk(o: RunOpt)
  {
    match o
    case RunMode(n) => n.Some? && 0 <= n.value < RUN_MODE_CNT
    case RunSize(n) => n.Some? && MIN_DATA_SIZE <= n.value <= MAX_BUFFER_LENGTH
    case RunHelp => false
    case _ => true
  }

  /** The command starts its threads exactly when every option is acceptable. */
  lemma {:induction false} RunStartsIffAllOk(opts: seq<RunOpt>, mode: int, size: int, file: string)
    requires ValidRun(mode, size)
    ensures ParseRunOptions(opts, mode, size, file).RunStart? <==> forall i :: 0 <= i < |opts| ==> RunOptOk(opts[i])
    decreases |opts|
  {
    if |opts| > 0 {
      var rest := opts[1..];
      assert forall i :: 1 <= i < |opts| ==> opts[i] == rest[i - 1];
      match opts[0]
      case RunMode(n) =>
        if !(n.None? || n.value < 0 || n.value >= RUN_MODE_CNT) { RunStartsIffAllOk(rest, n.value, size, file); }
      case RunSize(n) =>
        if !(n.None? || n.value < MIN_DATA_SIZE || n.value > MAX_BUFFER_LENGTH) { RunStartsIffAllOk(rest, mode, n.value, file); }
      case RunFile(f) => RunStartsIffAllOk(rest, mode, size, f);
      case RunHelp =>
      case RunVerbose => RunStartsIffAllOk(rest, mode, size, file);
      case RunOther => RunStartsIffAllOk(rest, mode, size, file);
    }
  }

  /** The defaults: run uses TSN mode with a full buffer, tx the debug mode with 1508 bytes. */
  function RunDefaults(tx: bool): (d: RunSetup)
    ensures d.RunStart? && ValidRun(d.mode, d.size)
  {
    if tx then RunStart(RUN_MODE_DEBUG, 1508, "./sample/pint-udp-response-packet.dat")
    else RunStart(RUN_MODE_TSN, MAX_BUFFER_LENGTH, "./tests/data/datafile0_4K.bin")
  }

  /** `process_main_runCmd` (`tx == false`) and `process_main_txCmd` (`tx == true`) up to starting the threads. */
  method ProcessRunCmd(tx: bool, opts: seq<RunOpt>) returns (r: RunSetup)
    ensures var d := RunDefaults(tx); r == ParseRunOptions(opts, d.mode, d.size, d.file)
    ensures r.RunStart? ==> ValidRun(r.mode, r.size)
  {
    var d := RunDefaults(tx);
    var mode, size, file := d.mode, d.size, d.file;
    var i := 0;
    while i < |opts|
      invariant 0 <= i <= |opts| && ValidRun(mode, size)
      invariant ParseRunOptions(opts[i..], mode, size, file) == ParseRunOptions(opts, d.mode, d.size, d.file)
    {
      assert opts[i..][1..] == opts[i + 1..];
      var o := opts[i];
      if o.RunHelp? {
        return RunHelpShown;
      } else if o.RunMode? {
        if o.n.None? || o.n.value < 0 || o.n.value >= RUN_MODE_CNT {
          return RunRejected;
        }
        mode := o.n.value;
      } else if o.RunSize? {
        if o.n.None? || o.n.value < MIN_DATA_SIZE || o.n.value > MAX_BUFFER_LENGTH {
          return RunRejected;
        }
        size := o.n.value;
      } else if o.RunFile? {
        file := o.name;
      }
      i := i + 1;
    }
    r := RunStart(mode, size, file);
  }

  // ---------------------------------------------------------------------
  // ipc options and the IPC data buffer
  // ---------------------------------------------------------------------

  const IPC_DATA_WORDS: nat := 1024
  const MAX_IPC_OFFSET: int := 4092
  /** The word written to the unfilled part of the buffer in write mode. */
  const IPC_PAD_WORD: u32 := 0x9530_2342

  /** One option of the ipc command; `-d` values come from `str2uint`. */
  datatype IpcOpt = IpcMode(n: Option<int>) | IpcOffset(n: Option<int>) | IpcCount(n: Option<int>)
                  | IpcValue(w: Option<u32>) | IpcVerbose | IpcHelp | IpcOther

  datatype IpcSetup = IpcRejected | IpcHelpShown | IpcStart(mode: int, offset: int, count: int, values: seq<u32>)

  predicate ValidIpc(mode: int, offset: int, count: int)
  {
    0 <= mode <= 3 && 0 <= offset <= MAX_IPC_OFFSET && offset % 4 == 0 && 1 <= count <= IPC_DATA_WORDS
  }

  /**
   * The option loop of `process_main_ipcCmd`: mode 0..3, a 4-aligned
   * offset in 0..4092 and a count in 1..1024 are enforced as each option is
   * read; the `-d` values are collected in order.
   */
  function ParseIpcOptions(opts: seq<IpcOpt>, mode: int, offset: int, count: int, values: seq<u32>): (r: IpcSetup)
    requires ValidIpc(mode, offset, count)
    ensures r.IpcStart? ==> ValidIpc(r.mode, r.offset, r.count)
    decreases |opts|
  {
    if |opts| == 0 then IpcStart(mode, offset, count, values)
    else match opts[0]
      case IpcMode(n) =>
        if n.None? || n.value < 0 || n.value > 3 then IpcRejected
        else ParseIpcOptions(opts[1..], n.value, offset, count, values)
      case IpcOffset(n) =>
        if n.None? || n.value < 0 || n.value > MAX_IPC_OFFSET || n.value % 4 != 0 then IpcRejected
        else ParseIpcOptions(opts[1..], mode, n.value, count, values)
      case IpcCount(n) =>
        if n.None? || n.value < 1 || n.value > IPC_DATA_WORDS then IpcRejected
        else ParseIpcOptions(opts[1..], mode, offset, n.value, values)
      case IpcValue(w) =>
        if w.None? then IpcRejected
        else ParseIpcOptions(opts[1..], mode, offset, count, values + [w.value])
      case IpcHelp => IpcHelpShown
      case IpcVerbose => ParseIpcOptions(opts[1..], mode, offset, count, values)
      case IpcOther => ParseIpcOptions(opts[1..], mode, offset, count, values)
  }

  /** An ipc option that lets the command go on. */
  predicate IpcOptOk(o: IpcOpt)
  {
    match o
    case IpcMode(n) => n.Some? && 0 <= n.value <= 3
    case IpcOffset(n) => n.Some? && 0 <= n.value <= MAX_IPC_OFFSET && n.value % 4 == 0
    case IpcCount(n) => n.Some? && 1 <= n.value <= IPC_DATA_WORDS
    case IpcValue(w) => w.Some?
    case IpcHelp => false
    case _ => true
  }

  /** The `-d` values among the options, in order. */
  function IpcValues(opts: seq<IpcOpt>): (vs: seq<u32>)
    ensures |vs| <= |opts|
  {
    if |opts| == 0 then []
    else (if opts[0].IpcValue? && opts[0].w.Some? then [opts[0].w.value] else []) + IpcValues(opts[1..])
  }

  /** The ipc command goes on exactly when every option is acceptable. */
  lemma {:induction false} IpcStartsIffAllOk(opts: seq<IpcOpt>, mode: int, offset: int, count: int, values: seq<u32>)
    requires ValidIpc(mode, offset, count)
    ensures ParseIpcOptions(opts, mode, offset, count, values).IpcStart? <==> forall i :: 0 <= i < |opts| ==> IpcOptOk(opts[i])
    decreases |opts|
  {
    if |opts| > 0 {
      var rest := opts[1..];
      assert forall i :: 1 <= i < |opts| ==> opts[i] == rest[i - 1];
      match opts[0]
      case IpcMode(n) =>
        if !(n.None? || n.value < 0 || n.value > 3) { IpcStartsIffAllOk(rest, n.value, offset, count, values); }
      case IpcOffset(n) =>
        if !(n.None? || n.value < 0 || n.value > MAX_IPC_OFFSET || n.value % 4 != 0) { IpcStartsIffAllOk(rest, mode, n.value, count, values); }
      case IpcCount(n) =>
        if !(n.None? || n.value < 1 || n.value > IPC_DATA_WORDS) { IpcStartsIffAllOk(rest, mode, offset, n.value, values); }
      case IpcValue(w) =>
        if w.Some? { IpcStartsIffAllOk(rest, mode, offset, count, values + [w.value]); }
      case IpcHelp =>
      case IpcVerbose => IpcStartsIffAllOk(rest, mode, offset, count, values);
      case IpcOther => IpcStartsIffAllOk(rest, mode, offset, count, values);
    }
  }

  /** An ipc command that goes on carries the `-d` values in the order given. */
  lemma {:induction false} IpcStartValues(opts: seq<IpcOpt>, mode: int, offset: int, count: int, values: seq<u32>)
    requires ValidIpc(mode, offset, count)
    ensures var r := ParseIpcOptions(opts, mode, offset, count, values);
      r.IpcStart? ==> r.values == values + IpcValues(opts)
    decreases |opts|
  {
    if |opts| > 0 {
      var rest := opts[1..];
      match opts[0]
      case IpcMode(n) =>
        if !(n.None? || n.value < 0 || n.value > 3) { IpcStartValues(rest, n.value, offset, count, values); }
      case IpcOffset(n) =>
        if !(n.None? || n.value < 0 || n.value > MAX_IPC_OFFSET || n.value % 4 != 0) { IpcStartValues(rest, mode, n.value, count, values); }
      case IpcCount(n) =>
        if !(n.None? || n.value < 1 || n.value > IPC_DATA_WORDS) { IpcStartValues(rest, mode, offset, n.value, values); }
      case IpcValue(w) =>
        if w.Some? {
          IpcStartValues(rest, mode, offset, count, values + [w.value]);
          assert values + [w.value] + IpcValues(rest) == values + ([w.value] + IpcValues(rest));
        }
      case IpcHelp =>
      case IpcVerbose => IpcStartValues(rest, mode, offset, count, values);
      case IpcOther => IpcStartValues(rest, mode, offset, count, values);
    }
  }

  /** The buffer after the `-d` values: value `j` goes to index `j mod 1024`. */
  function Stored(buf: seq<u32>, values: seq<u32>): (b: seq<u32>)
    requires |buf| == IPC_DATA_WORDS
    ensures |b| == IPC_DATA_WORDS
  {
    if |values| == 0 then buf
    else Stored(buf, values[..|values| - 1])[(|values| - 1) % IPC_DATA_WORDS := values[|values| - 1]]
  }

  /** With at most 1024 values, the buffer starts with them and keeps its old words after them. */
  lemma {:induction false} StoredPrefix(buf: seq<u32>, values: seq<u32>, i: nat)
    requires |buf| == IPC_DATA_WORDS && |values| <= IPC_DATA_WORDS && i < IPC_DATA_WORDS
    ensures Stored(buf, values)[i] == (if i < |values| then values[i] else buf[i])
  {
    if |values| > 0 {
      var n := |values| - 1;
      assert n % IPC_DATA_WORDS == n;
      StoredPrefix(buf, values[..n], i);
    }
  }

  /**
   * The buffer handed to `ipc_app`: write mode fills indices from the next
   * free one up to `count` with the pad word; test mode overwrites the
   * first `count` words with their own indices.
   */
  function IpcFill(s: seq<u32>, index: int, mode: int, count: int): (b: seq<u32>)
    requires |s| == IPC_DATA_WORDS && count <= IPC_DATA_WORDS
    ensures |b| == IPC_DATA_WORDS
  {
    if mode == 1 then seq(IPC_DATA_WORDS, i requires 0 <= i < IPC_DATA_WORDS => if index <= i < count then IPC_PAD_WORD else s[i])
    else if mode == 2 then seq(IPC_DATA_WORDS, i requires 0 <= i < IPC_DATA_WORDS => if i < count then i as u32 else s[i])
    else s
  }

  function IpcBuffer(buf: seq<u32>, values: seq<u32>, mode: int, count: int): (b: seq<u32>)
    requires |buf| == IPC_DATA_WORDS && count <= IPC_DATA_WORDS
    ensures |b| == IPC_DATA_WORDS
  {
    IpcFill(Stored(buf, values), |values| % IPC_DATA_WORDS, mode, count)
  }

  /** In write mode, the first `count` words are the given values followed by pad words. */
  lemma IpcWriteBuffer(buf: seq<u32>, values: seq<u32>, count: int, i: nat)
    requires |buf| == IPC_DATA_WORDS && 1 <= count <= IPC_DATA_WORDS && |values| < IPC_DATA_WORDS && i < count
    ensures IpcBuffer(buf, values, 1, count)[i] == (if i < |values| then values[i] else IPC_PAD_WORD)
  {
    StoredPrefix(buf, values, i);
  }

  /** In test mode, word `i` below `count` is `i`, whatever the options gave. */
  lemma IpcTestBuffer(buf: seq<u32>, values: seq<u32>, count: int, i: nat)
    requires |buf| == IPC_DATA_WORDS && 1 <= count <= IPC_DATA_WORDS && i < count
    ensures IpcBuffer(buf, values, 2, count)[i] == i
  {
  }

  /** The option loop of `process_main_ipcCmd`, storing each `-d` value as it is read. */
  method CollectIpcOptions(opts: seq<IpcOpt>, ipcData: array<u32>) returns (r: IpcSetup)
    requires ipcData.Length == IPC_DATA_WORDS
    modifies ipcData
    ensures r == ParseIpcOptions(opts, 0, 0, 1, [])
    ensures r.IpcStart? ==> ipcData[..] == Stored(old(ipcData[..]), r.values)
  {
    ghost var buf0 := ipcData[..];
    var mode, offset, count := 0, 0, 1;
    var values: seq<u32> := [];
    var index := 0;
    var i := 0;
    while i < |opts|
      invariant 0 <= i <= |opts| && ValidIpc(mode, offset, count)
      invariant ParseIpcOptions(opts[i..], mode, offset, count, values) == ParseIpcOptions(opts, 0, 0, 1, [])
      invariant index == |values| % IPC_DATA_WORDS
      invariant ipcData[..] == Stored(buf0, values)
    {
      assert opts[i..][1..] == opts[i + 1..];
      var o := opts[i];
      if o.IpcHelp? {
        return IpcHelpShown;
      } else if o.IpcMode? {
        if o.n.None? || o.n.value < 0 || o.n.value > 3 {
          return IpcRejected;
        }
        mode := o.n.value;
      } else if o.IpcOffset? {
        if o.n.None? || o.n.value < 0 || o.n.value > MAX_IPC_OFFSET || o.n.value % 4 != 0 {
          return IpcRejected;
        }
        offset := o.n.value;
      } else if o.IpcCount? {
        if o.n.None? || o.n.value < 1 || o.n.value > IPC_DATA_WORDS {
          return IpcRejected;
        }
        count := o.n.value;
      } else if o.IpcValue? {
        if o.w.None? {
          return IpcRejected;
        }
        ipcData[index] := o.w.value;
        values := values + [o.w.value];
        assert values[..|values| - 1] + [o.w.value] == values;
        index := (index + 1) % IPC_DATA_WORDS;
      }
      i := i + 1;
    }
    r := IpcStart(mode, offset, count, values);
  }

  /** The two fill loops that follow the options. */
  method FillIpcBuffer(ipcData: array<u32>, index: int, mode: int, count: int)
    requires ipcData.Length == IPC_DATA_WORDS && 0 <= index < IPC_DATA_WORDS && 1 <= count <= IPC_DATA_WORDS
    modifies ipcData
    ensures ipcData[..] == IpcFill(old(ipcData[..]), index, mode, count)
  {
    ghost var s := ipcData[..];
    if mode == 1 {
      var idx := index;
      while idx < count
        invariant index <= idx && (idx <= count || idx == index)
        invariant forall j :: 0 <= j < IPC_DATA_WORDS ==> ipcData[j] == (if index <= j < idx then IPC_PAD_WORD else s[j])
      {
        ipcData[idx] := IPC_PAD_WORD;
        idx := idx + 1;
      }
    }
    if mode == 2 {
      var idx := 0;
      while idx < count
        invariant 0 <= idx <= count
        invariant forall j :: 0 <= j < IPC_DATA_WORDS ==> ipcData[j] == (if j < idx then j as u32 else s[j])
      {
        ipcData[idx] := idx as u32;
        idx := idx + 1;
      }
    }
  }

  /**
   * `process_main_ipcCmd` up to the call of `ipc_app`: the option checks,
   * then the buffer assembled in `ipcData` (an uninitialised local array in
   * the source, so its old contents are arbitrary).
   */
  method ProcessIpcCmd(opts: seq<IpcOpt>, ipcData: array<u32>) returns (r: IpcSetup)
    requires ipcData.Length == IPC_DATA_WORDS
    modifies ipcData
    ensures r == ParseIpcOptions(opts, 0, 0, 1, [])
    ensures r.IpcStart? ==> ipcData[..] == IpcBuffer(old(ipcData[..]), r.values, r.mode, r.count)
  {
    r := CollectIpcOptions(opts, ipcData);
    if r.IpcStart? {
      FillIpcBuffer(ipcData, |r.values| % IPC_DATA_WORDS, r.mode, r.count);
    }
  }

  // ---------------------------------------------------------------------
  // auto_ipc_data: the mailbox handshake
  // ---------------------------------------------------------------------

  const IPC_STATE_READY: u32 := 1
  const IPC_STATE_TRIGER: u32 := 2
  const IPC_STATE_PROCESSING: u32 := 3
  /** Word offsets of the inbox flag, the outbox flag and the outbox message. */
  const IPC_INBOX: int := 0
  const IPC_OUTBOX: int := 0x40
  const IPC_OUTBOX_MSG: int := 0x44

  /** The offset each kind of write goes to. */
  function WriteOffset(w: IpcWrite): (o: int)
    ensures o in {IPC_INBOX, IPC_OUTBOX, IPC_OUTBOX_MSG}
    ensures o == IPC_OUTBOX_MSG <==> w.SendMsg?
  {
    match w
    case SetInbox(_) => IPC_INBOX
    case SetOutbox(_) => IPC_OUTBOX
    case SendMsg(_, _) => IPC_OUTBOX_MSG
  }

  /**
   * One IPC write the handshake issues: a state word to the inbox flag
   * (offset 0) or the outbox flag (0x40), or a message pair to the outbox
   * message words (0x44).
   */
  datatype IpcWrite = SetInbox(state: u32) | SetOutbox(state: u32) | SendMsg(msg0: u32, msg1: u32)

  /**
   * What the other side and the library do during one round: whether each
   * access succeeds, and the flag words the two reads return.
   */
  datatype AutoRound = AutoRound(inboxOk: bool, inbox: u32, processingOk: bool, readyOk: bool,
                                 outboxOk: bool, outbox: u32, msgOk: bool, trigerOk: bool)

  /** The `k`-th message sent: `msg0` starts at 0 and `msg1` at 0x100, both counting up as `uint32_t`. */
  function Msg(k: nat): (w: IpcWrite)
  {
    SendMsg(U32(k), U32(0x100 + k))
  }

  /** The inbox writes of a round: a TRIGER is acknowledged by PROCESSING, then READY. */
  function AckWrites(s: AutoRound): seq<IpcWrite>
  {
    if s.inbox != IPC_STATE_TRIGER then []
    else if s.processingOk then [SetInbox(IPC_STATE_PROCESSING), SetInbox(IPC_STATE_READY)]
    else [SetInbox(IPC_STATE_PROCESSING)]
  }

  /** The outbox writes of a round that found the outbox READY: the message, then TRIGER. */
  function ReplyWrites(s: AutoRound, sent: nat): seq<IpcWrite>
  {
    if s.outbox != IPC_STATE_READY then []
    else if s.msgOk then [Msg(sent), SetOutbox(IPC_STATE_TRIGER)]
    else [Msg(sent)]
  }

  /** One round's writes, whether it failed, and whether it sent a message. */
  datatype RoundResult = RoundResult(failed: bool, writes: seq<IpcWrite>, sent: bool)

  /**
   * One round of `auto_ipc_data` that has sent `sent` messages so far. Any
   * failed access ends the round, and with it the handshake.
   */
  function Round(s: AutoRound, sent: nat): (r: RoundResult)
  {
    if !s.inboxOk then RoundResult(true, [], false)
    else if s.inbox == IPC_STATE_TRIGER && !(s.processingOk && s.readyOk) then RoundResult(true, AckWrites(s), false)
    else if !s.outboxOk then RoundResult(true, AckWrites(s), false)
    else
      var ok := s.outbox != IPC_STATE_READY || (s.msgOk && s.trigerOk);
      RoundResult(!ok, AckWrites(s) + ReplyWrites(s, sent), ok && s.outbox == IPC_STATE_READY)
  }

  /**
   * A round sends its message exactly when every access succeeds and the
   * outbox was READY; a round that goes on without sending found the
   * outbox busy, and issued only the inbox acknowledgement.
   */
  lemma RoundFacts(s: AutoRound, sent: nat)
    ensures var r := Round(s, sent);
            && (!s.inboxOk ==> r.failed && r.writes == [])
            && (r.sent <==> s.inboxOk && (s.inbox == IPC_STATE_TRIGER ==> s.processingOk && s.readyOk)
                            && s.outboxOk && s.outbox == IPC_STATE_READY && s.msgOk && s.trigerOk)
            && (r.sent ==> !r.failed && r.writes == AckWrites(s) + [Msg(sent), SetOutbox(IPC_STATE_TRIGER)])
            && (!r.failed && !r.sent ==> s.outbox != IPC_STATE_READY && r.writes == AckWrites(s))
  {
  }

  /**
   * The rounds from `idx` on, after `sent` messages and the writes `acc`:
   * the return code and every write issued so far, in order.
   */
  function AutoFrom(rounds: seq<AutoRound>, count: int, idx: nat, sent: nat, acc: seq<IpcWrite>): (r: (int, seq<IpcWrite>))
    requires count <= |rounds|
    ensures r.0 == 0 || r.0 == -1
    decreases count - idx
  {
    if idx >= count then (0, acc)
    else
      var o := Round(rounds[idx], sent);
      if o.failed then (-1, acc + o.writes)
      else AutoFrom(rounds, count, idx + 1, if o.sent then sent + 1 else sent, acc + o.writes)
  }

  /**
   * The whole handshake: the outbox is first marked READY, then `count`
   * rounds run; writes are only ever appended after that first one.
   */
  function AutoIpc(initOk: bool, rounds: seq<AutoRound>, count: int): (r: (int, seq<IpcWrite>))
    requires count <= |rounds|
    ensures r.0 == 0 || r.0 == -1
    ensures !initOk ==> r == (-1, [SetOutbox(IPC_STATE_READY)])
  {
    var init := [SetOutbox(IPC_STATE_READY)];
    if !initOk then (-1, init)
    else AutoFrom(rounds, count, 0, 0, init)
  }

  /** The message writes among `ws`, in order. */
  function MsgWrites(ws: seq<IpcWrite>): (m: seq<IpcWrite>)
    ensures |m| <= |ws|
  {
    if |ws| == 0 then []
    else MsgWrites(ws[..|ws| - 1]) + (if ws[|ws| - 1].SendMsg? then [ws[|ws| - 1]] else [])
  }

  lemma {:induction false} MsgWritesAppend(a: seq<IpcWrite>, b: seq<IpcWrite>)
    ensures MsgWrites(a + b) == MsgWrites(a) + MsgWrites(b)
    decreases |b|
  {
    if |b| > 0 {
      assert (a + b)[..|a + b| - 1] == a + b[..|b| - 1];
      assert (a + b)[|a + b| - 1] == b[|b| - 1];
      MsgWritesAppend(a, b[..|b| - 1]);
    } else {
      assert a + b == a;
    }
  }

  /** `m` is messages number `from`, `from + 1`, ... in that order. */
  predicate Consecutive(m: seq<IpcWrite>, from: nat)
  {
    forall k :: 0 <= k < |m| ==> m[k] == Msg(from + k)
  }

  /** The messages one round writes: its own message iff the outbox was READY and reached. */
  lemma RoundMessages(s: AutoRound, sent: nat)
    ensures MsgWrites(Round(s, sent).writes) ==
            if s.inboxOk && (s.inbox == IPC_STATE_TRIGER ==> s.processingOk && s.readyOk)
               && s.outboxOk && s.outbox == IPC_STATE_READY then [Msg(sent)] else []
  {
    var a := AckWrites(s);
    assert MsgWrites(a) == [] by {
      if |a| == 2 {
        assert a[..1] == [a[0]];
        assert a[..1][..0] == [];
      } else if |a| == 1 {
        assert a[..0] == [];
      }
    }
    var r := ReplyWrites(s, sent);
    if |r| == 2 {
      assert r[..1] == [Msg(sent)];
      assert r[..1][..0] == [];
    } else if |r| == 1 {
      assert r[..0] == [];
    }
    MsgWritesAppend(a, r);
  }

  /** The round that follows writes messages `0 .. sent - 1` then issues its own writes. */
  lemma RoundKeepsConsecutive(acc: seq<IpcWrite>, s: AutoRound, sent: nat)
    requires Consecutive(MsgWrites(acc), 0) && |MsgWrites(acc)| == sent
    ensures var o := Round(s, sent); var m := MsgWrites(acc + o.writes);
            Consecutive(m, 0) && (!o.failed ==> |m| == if o.sent then sent + 1 else sent)
  {
    var o := Round(s, sent);
    RoundMessages(s, sent);
    RoundFacts(s, sent);
    MsgWritesAppend(acc, o.writes);
    var m := MsgWrites(acc);
    if MsgWrites(o.writes) == [] {
      assert m + [] == m;
    } else {
      ConsecutiveSnoc(m, sent);
    }
  }

  lemma ConsecutiveSnoc(m: seq<IpcWrite>, sent: nat)
    requires Consecutive(m, 0) && |m| == sent
    ensures Consecutive(m + [Msg(sent)], 0)
  {
    forall k | 0 <= k < |m| + 1 ensures (m + [Msg(sent)])[k] == Msg(k) {
      if k < |m| {
        assert (m + [Msg(sent)])[k] == m[k];
      }
    }
  }

  /**
   * The messages written by the rounds from `idx` on continue the
   * numbering of those already in `acc`.
   */
  lemma {:induction false} AutoFromMessages(rounds: seq<AutoRound>, count: int, idx: nat, sent: nat, acc: seq<IpcWrite>)
    requires count <= |rounds|
    requires Consecutive(MsgWrites(acc), 0) && |MsgWrites(acc)| == sent
    ensures Consecutive(MsgWrites(AutoFrom(rounds, count, idx, sent, acc).1), 0)
    decreases count - idx
  {
    if idx < count {
      var o := Round(rounds[idx], sent);
      RoundKeepsConsecutive(acc, rounds[idx], sent);
      if !o.failed {
        AutoFromMessages(rounds, count, idx + 1, if o.sent then sent + 1 else sent, acc + o.writes);
      }
    }
  }

  /**
   * Every message the handshake writes is the next pair in the sequence
   * (0, 0x100), (1, 0x101), ...: the second word stays 0x100 above the
   * first, modulo 2^32.
   */
  lemma AutoIpcMessages(initOk: bool, rounds: seq<AutoRound>, count: int)
    requires count <= |rounds|
    ensures Consecutive(MsgWrites(AutoIpc(initOk, rounds, count).1), 0)
    ensures var m := MsgWrites(AutoIpc(initOk, rounds, count).1);
            forall k :: 0 <= k < |m| ==> m[k].SendMsg? && m[k].msg1 == U32(m[k].msg0 + 0x100)
  {
    var init := [SetOutbox(IPC_STATE_READY)];
    assert MsgWrites(init) == [] by {
      assert init[..0] == [];
    }
    if initOk {
      AutoFromMessages(rounds, count, 0, 0, init);
    }
    var m := MsgWrites(AutoIpc(initOk, rounds, count).1);
    forall k | 0 <= k < |m| ensures m[k].SendMsg? && m[k].msg1 == U32(m[k].msg0 + 0x100) {
      MsgPair(k);
    }
  }

  /** One round, step by step, as the loop body of `auto_ipc_data` performs it. */
  method AutoRoundStep(s: AutoRound, ghost sent: nat, msg0: u32, msg1: u32) returns (failed: bool, writes: seq<IpcWrite>, didSend: bool)
    requires msg0 == U32(sent) && msg1 == U32(0x100 + sent)
    ensures failed == Round(s, sent).failed && didSend == Round(s, sent).sent
    ensures writes == Round(s, sent).writes
  {
    writes := [];
    failed, didSend := true, false;
    if !s.inboxOk {
      return;
    }
    if s.inbox == IPC_STATE_TRIGER {
      writes := writes + [SetInbox(IPC_STATE_PROCESSING)];
      if !s.processingOk {
        return;
      }
      writes := writes + [SetInbox(IPC_STATE_READY)];
      if !s.readyOk {
        return;
      }
    }
    assert writes == AckWrites(s);
    if !s.outboxOk {
      return;
    }
    if s.outbox == IPC_STATE_READY {
      writes := writes + [SendMsg(msg0, msg1)];
      if !s.msgOk {
        return;
      }
      writes := writes + [SetOutbox(IPC_STATE_TRIGER)];
      if !s.trigerOk {
        return;
      }
      didSend := true;
    }
    failed := false;
  }

  /** Adding to a `uint32_t` that has already wrapped gives what adding before wrapping gives. */
  lemma U32Add(x: int, y: nat)
    ensures U32(U32(x) + y) == U32(x + y)
  {
    var q, r := x / TWO_32, U32(x);
    var t := r + y;
    DivModUnique(x + y, TWO_32, q + t / TWO_32, t % TWO_32);
  }

  /** Message `k` keeps its second word 0x100 above the first, modulo 2^32. */
  lemma MsgPair(k: nat)
    ensures Msg(k).msg1 == U32(Msg(k).msg0 + 0x100)
  {
    U32Add(k, 0x100);
  }

  /** `auto_ipc_data` over `count` rounds, returning its code and the writes it issued. */
  method AutoIpcData(count: int, initOk: bool, rounds: seq<AutoRound>) returns (rc: int, writes: seq<IpcWrite>)
    requires count <= |rounds|
    ensures (rc, writes) == AutoIpc(initOk, rounds, count)
  {
    writes := [SetOutbox(IPC_STATE_READY)];
    if !initOk {
      return -1, writes;
    }
    ghost var total := AutoIpc(initOk, rounds, count);
    var msg0: u32, msg1: u32 := 0, 0x100;
    ghost var sent: nat := 0;
    var idx := 0;
    while idx < count
      invariant 0 <= idx && (idx <= count || idx == 0)
      invariant msg0 == U32(sent) && msg1 == U32(0x100 + sent)
      invariant AutoFrom(rounds, count, idx, sent, writes) == total
      decreases count - idx
    {
      var failed, w, didSend := AutoRoundStep(rounds[idx], sent, msg0, msg1);
      ghost var next: nat := if didSend then sent + 1 else sent;
      assert !failed ==> AutoFrom(rounds, count, idx, sent, writes) == AutoFrom(rounds, count, idx + 1, next, writes + w);
      writes := writes + w;
      if failed {
        return -1, writes;
      }
      if didSend {
        U32Add(sent, 1);
        U32Add(0x100 + sent, 1);
        msg0, msg1 := U32(msg0 + 1), U32(msg1 + 1);
        sent := sent + 1;
      }
      idx := idx + 1;
    }
    rc := 0;
  }

  // ---------------------------------------------------------------------
  // ipc_app and the result of the ipc command
  // ---------------------------------------------------------------------

  /**
   * What the IPC library returns during one `ipc_app` call: the status of
   * `xdma_api_wr_ipc_data`, the status of `xdma_api_rd_ipc_data` and the
   * words it leaves in the buffer it fills, and the outcomes of the
   * handshake's accesses.
   */
  datatype IpcIo = IpcIo(wrRc: int, rdRc: int, rdData: seq<u32>, autoInitOk: bool, rounds: seq<AutoRound>)

  /**
   * `test_ipc_data`: the buffer is written, then read back into a local
   * array, and every index below `count` whose words differ is reported,
   * in increasing order. The result is the status of the read alone: the
   * status of the write is overwritten.
   */
  method TestIpcData(count: int, ipcData: seq<u32>, wrRc: int, rdRc: int, rdData: seq<u32>)
    returns (rc: int, mismatches: seq<nat>)
    requires 1 <= count <= IPC_DATA_WORDS && |ipcData| == IPC_DATA_WORDS && |rdData| == IPC_DATA_WORDS
    ensures rc == rdRc
    ensures forall k :: 0 <= k < |mismatches| ==> mismatches[k] < count && ipcData[mismatches[k]] != rdData[mismatches[k]]
    ensures forall i :: 0 <= i < count && ipcData[i] != rdData[i] ==> i in mismatches
    ensures forall j, k :: 0 <= j < k < |mismatches| ==> mismatches[j] < mismatches[k]
    ensures mismatches == [] <==> ipcData[..count] == rdData[..count]
  {
    var result := wrRc;
    result := rdRc;
    mismatches := [];
    var index := 0;
    while index < count
      invariant 0 <= index <= count
      invariant forall k :: 0 <= k < |mismatches| ==> mismatches[k] < index && ipcData[mismatches[k]] != rdData[mismatches[k]]
      invariant forall i :: 0 <= i < index && ipcData[i] != rdData[i] ==> i in mismatches
      invariant forall j, k :: 0 <= j < k < |mismatches| ==> mismatches[j] < mismatches[k]
    {
      if ipcData[index] != rdData[index] {
        mismatches := mismatches + [index];
      }
      index := index + 1;
    }
    if mismatches == [] {
      assert forall i :: 0 <= i < count ==> ipcData[..count][i] == rdData[..count][i];
    } else {
      var m := mismatches[0];
      assert ipcData[..count][m] != rdData[..count][m];
    }
    rc := result;
  }

  /**
   * `ipc_app`: mode 0 reads `count` words into the buffer, 1 writes them,
   * 2 writes and reads them back, and 3 runs the mailbox handshake; each
   * returns the status of what it calls, and any other mode returns 0.
   * Only a read changes the buffer.
   */
  method IpcApp(mode: int, count: int, ipcData: array<u32>, io: IpcIo) returns (rc: int)
    requires 1 <= count <= IPC_DATA_WORDS && ipcData.Length == IPC_DATA_WORDS
    requires |io.rdData| == IPC_DATA_WORDS && count <= |io.rounds|
    modifies ipcData
    ensures mode == 0 ==> rc == io.rdRc && ipcData[..] == io.rdData[..count] + old(ipcData[..])[count..]
    ensures mode == 1 ==> rc == io.wrRc
    ensures mode == 2 ==> rc == io.rdRc
    ensures mode == 3 ==> rc == AutoIpc(io.autoInitOk, io.rounds, count).0
    ensures !(0 <= mode <= 3) ==> rc == 0
    ensures mode != 0 ==> ipcData[..] == old(ipcData[..])
  {
    if mode == 0 {
      forall i | 0 <= i < count {
        ipcData[i] := io.rdData[i];
      }
      assert ipcData[..] == io.rdData[..count] + old(ipcData[..])[count..];
      rc := io.rdRc;
    } else if mode == 1 {
      rc := io.wrRc;
    } else if mode == 2 {
      var mismatches;
      rc, mismatches := TestIpcData(count, ipcData[..], io.wrRc, io.rdRc, io.rdData);
    } else if mode == 3 {
      var writes;
      rc, writes := AutoIpcData(count, io.autoInitOk, io.rounds);
    } else {
      rc := 0;
    }
  }

  /**
   * `process_main_ipcCmd`: a rejected option gives -1 and `-h` gives 0,
   * both before any IPC access; otherwise the result is that of `ipc_app`
   * on the assembled buffer, and a successful read shows the `count` words
   * it read.
   */
  method ProcessMainIpcCmd(opts: seq<IpcOpt>, ipcData: array<u32>, io: IpcIo) returns (rc: int, shown: seq<u32>)
    requires ipcData.Length == IPC_DATA_WORDS
    requires |io.rdData| == IPC_DATA_WORDS && IPC_DATA_WORDS <= |io.rounds|
    modifies ipcData
    ensures var setup := ParseIpcOptions(opts, 0, 0, 1, []);
            && (setup.IpcRejected? ==> rc == -1 && shown == [])
            && (setup.IpcHelpShown? ==> rc == 0 && shown == [])
            && (setup.IpcStart? ==>
                  && (setup.mode == 0 || setup.mode == 2 ==> rc == io.rdRc)
                  && (setup.mode == 1 ==> rc == io.wrRc)
                  && (setup.mode == 3 ==> rc == AutoIpc(io.autoInitOk, io.rounds, setup.count).0)
                  && shown == (if setup.mode == 0 && rc == 0 then io.rdData[..setup.count] else [])
                  && ipcData[..] == (if setup.mode == 0
                                     then io.rdData[..setup.count] + IpcBuffer(old(ipcData[..]), setup.values, setup.mode, setup.count)[setup.count..]
                                     else IpcBuffer(old(ipcData[..]), setup.values, setup.mode, setup.count)))
  {
    var setup := ProcessIpcCmd(opts, ipcData);
    if setup.IpcRejected? {
      return -1, [];
    }
    if setup.IpcHelpShown? {
      return 0, [];
    }
    rc := IpcApp(setup.mode, setup.count, ipcData, io);
    shown := [];
    if rc == 0 && setup.mode == 0 {
      shown := ipcData[..setup.count];
    }
  }


  // ---------------------------------------------------------------------
  // 64-bit registers shown from two 32-bit halves
  // ---------------------------------------------------------------------

  /** The register file, as the reads of the user-space register device return it. */
  type RegFile = int -> u32

  const REG_TX_TIMESTAMP1_HIGH: int := 0x0310
  const REG_SYS_COUNT_HIGH: int := 0x0380
  const REG_SYS_COUNT_LOW: int := 0x0384

  /** `get_sys_count`: the system counter, high word at 0x380 and low word at 0x384. */
  function SysCount(reg: RegFile): (t: u64)
    ensures t / TWO_32 == reg(REG_SYS_COUNT_HIGH) && t % TWO_32 == reg(REG_SYS_COUNT_LOW)
  {
    SplitJoin(0, reg(REG_SYS_COUNT_HIGH), reg(REG_SYS_COUNT_LOW));
    Join64(reg(REG_SYS_COUNT_HIGH), reg(REG_SYS_COUNT_LOW))
  }

  /**
   * `get_tx_timestamp`: timestamps 1..4 are the register pairs 0x310/0x314,
   * 0x320/0x324, 0x330/0x334 and 0x340/0x344, high word first; any other
   * id gives 0.
   */
  function TxTimestamp(id: int, reg: RegFile): (t: u64)
    ensures !(1 <= id <= 4) ==> t == 0
    ensures 1 <= id <= 4 ==> var hi := REG_TX_TIMESTAMP1_HIGH + 0x10 * (id - 1);
                             t / TWO_32 == reg(hi) && t % TWO_32 == reg(hi + 4)
  {
    if 1 <= id <= 4 then
      var hi := REG_TX_TIMESTAMP1_HIGH + 0x10 * (id - 1);
      SplitJoin(0, reg(hi), reg(hi + 4));
      Join64(reg(hi), reg(hi + 4))
    else 0
  }

  /** An entry of a register table: the name ('@' first for a 64-bit pair) and the offset (negative ends the table). */
  datatype RegEntry = RegEntry(name: string, offset: int)

  /** One line of a register dump: the label and the value shown. */
  datatype RegLine = RegLine(caption: string, value: u64)

  /** The entries before the first negative offset. */
  function LiveEntries(table: seq<RegEntry>): (t: seq<RegEntry>)
    ensures |t| <= |table| && t == table[..|t|]
    ensures forall j :: 0 <= j < |t| ==> t[j].offset >= 0
    ensures |t| < |table| ==> table[|t|].offset < 0
  {
    if |table| == 0 || table[0].offset < 0 then []
    else [table[0]] + LiveEntries(table[1..])
  }

  /** How one entry is shown: a '@' entry joins the register at its offset (high) with the next one (low). */
  function ShowEntry(e: RegEntry, reg: RegFile): (l: RegLine)
    ensures |e.name| > 0 && e.name[0] == '@' ==>
              l.caption == e.name[1..] && Hi32(l.value) == reg(e.offset) && Lo32(l.value) == reg(e.offset + 4)
    ensures !(|e.name| > 0 && e.name[0] == '@') ==> l.caption == e.name && l.value == reg(e.offset)
  {
    if |e.name| > 0 && e.name[0] == '@' then
      SplitJoin(0, reg(e.offset), reg(e.offset + 4));
      RegLine(e.name[1..], Join64(reg(e.offset), reg(e.offset + 4)))
    else RegLine(e.name, reg(e.offset))
  }

  /** `dump_reginfo`: one line per entry, up to the terminating entry. */
  method DumpRegInfo(table: seq<RegEntry>, reg: RegFile) returns (lines: seq<RegLine>)
    ensures |lines| == |LiveEntries(table)|
    ensures forall j :: 0 <= j < |lines| ==> lines[j] == ShowEntry(table[j], reg)
  {
    lines := [];
    var i := 0;
    while i < |table| && table[i].offset >= 0
      invariant 0 <= i <= |table| && |lines| == i
      invariant forall j :: 0 <= j < i ==> table[j].offset >= 0 && lines[j] == ShowEntry(table[j], reg)
    {
      lines := lines + [ShowEntry(table[i], reg)];
      i := i + 1;
    }
    LiveEntriesIs(table, i);
  }

  lemma {:induction false} LiveEntriesIs(table: seq<RegEntry>, i: nat)
    requires i <= |table| && (forall j :: 0 <= j < i ==> table[j].offset >= 0) && (i == |table| || table[i].offset < 0)
    ensures |LiveEntries(table)| == i
  {
    if i > 0 {
      LiveEntriesIs(table[1..], i - 1);
    }
  }
}
