/**
 * Argument checking of the board "register" command: the accepted baud
 * rates and the option loop that validates each value before the register
 * access is made.
 */
module ApiFtd2xx {
  import opened Common

  /** The baud rates the FTDI link accepts (`rates[]`). */
  const RATES: seq<nat> := [300, 600, 1200, 2400, 4800, 9600,
                            19200, 38400, 57600, 115200,
                            230400, 460800, 576000, 921600,
                            1500000, 2000000, 3000000]

  const DEF_PORT_NUM: int := 0
  const DEF_BAUD_RATE: int := 115200
  const DEF_OPERATION: int := 0
  const DEF_FPGA: int := 0

  /**
   * The baud rate check: the C parameter is `unsigned int`, so a negative
   * `int` arrives reduced modulo 2^32.
   */
  predicate IsValidBaudRate(b: int)
  {
    U32(b) in RATES
  }

  /** `checkValidBaudRate`: 0 for one of the seventeen rates, -1 for anything else. */
  method CheckValidBaudRate(b: int) returns (rc: int)
    ensures rc == 0 || rc == -1
    ensures rc == 0 <==> IsValidBaudRate(b)
  {
    var u := U32(b);
    var id := 0;
    while id < |RATES|
      invariant 0 <= id <= |RATES|
      invariant forall j :: 0 <= j < id ==> RATES[j] != u
    {
      if u == RATES[id] {
        return 0;
      }
      id := id + 1;
    }
    rc := -1;
  }

  /** The rate used as default and the one transfers fall back to are accepted. */
  lemma DefaultRatesValid()
    ensures |RATES| == 17
    ensures IsValidBaudRate(DEF_BAUD_RATE) && IsValidBaudRate(9600)
  {
    assert RATES[9] == DEF_BAUD_RATE && RATES[5] == 9600;
  }

  /** No negative 32-bit rate is accepted: it arrives as a value of at least 2^31. */
  lemma NegativeBaudRejected(b: int)
    requires -0x8000_0000 <= b < 0
    ensures !IsValidBaudRate(b)
  {
    DivModUnique(b, TWO_32, -1, b + TWO_32);
    assert forall j :: 0 <= j < |RATES| ==> RATES[j] <= 3000000;
  }

  /** The register access the command asks for. */
  datatype RegisterArgs = RegisterArgs(port: int, baud: int, rw: int, fpga: int, addr: int, data: int)

  const DefaultArgs := RegisterArgs(DEF_PORT_NUM, DEF_BAUD_RATE, DEF_OPERATION, DEF_FPGA, 0, 0)

  /** The ranges the option loop enforces. */
  predicate ValidArgs(a: RegisterArgs)
  {
    a.port >= 0 && IsValidBaudRate(a.baud) && 0 <= a.rw <= 2 && 0 <= a.fpga <= 1 && a.addr >= 0 && a.data >= 0
  }

  /**
   * One option as `getopt` hands it over; the argument is the result of
   * `str2int` (`None` when the text is not a number).
   */
  datatype RegOpt =
    | PortArg(v: Option<int>) | BaudArg(v: Option<int>) | OpArg(v: Option<int>)
    | FpgaArg(v: Option<int>) | AddrArg(v: Option<int>) | DataArg(v: Option<int>)
    | VerboseArg | HelpArg | OtherArg

  /** The options that carry a value. */
  predicate HasValue(o: RegOpt)
  {
    !(o.VerboseArg? || o.HelpArg? || o.OtherArg?)
  }

  /** Where the option loop ends: -1, help (0), or the register call. */
  datatype RegisterCmd = Rejected | Help | Access(args: RegisterArgs)

  /** Whether an option's value is acceptable. */
  predicate AcceptsValue(o: RegOpt)
    requires HasValue(o)
  {
    o.v.Some? &&
    match o
    case PortArg(v) => v.value >= 0
    case BaudArg(v) => IsValidBaudRate(v.value)
    case OpArg(v) => 0 <= v.value <= 2
    case FpgaArg(v) => 0 <= v.value <= 1
    case AddrArg(v) => v.value >= 0
    case DataArg(v) => v.value >= 0
  }

  /** A valued option's effect on the access. */
  function Apply(a: RegisterArgs, o: RegOpt): (r: RegisterArgs)
    requires HasValue(o) && o.v.Some?
  {
    var x := o.v.value;
    match o
    case PortArg(_) => a.(port := x)
    case BaudArg(_) => a.(baud := x)
    case OpArg(_) => a.(rw := x)
    case FpgaArg(_) => a.(fpga := x)
    case AddrArg(_) => a.(addr := x)
    case DataArg(_) => a.(data := x)
  }

  /**
   * The option loop of `process_board_registerCmd` from state `a`: every
   * value is checked as it is read and the first bad one rejects the
   * command; `-h` ends it with help; otherwise the access is made with the
   * last value given for each option.
   */
  function ParseRegisterCmd(opts: seq<RegOpt>, a: RegisterArgs): (r: RegisterCmd)
    requires ValidArgs(a)
    ensures r.Access? ==> ValidArgs(r.args)
    decreases |opts|
  {
    if |opts| == 0 then Access(a)
    else
      var o := opts[0];
      if o.HelpArg? then Help
      else if o.VerboseArg? || o.OtherArg? then ParseRegisterCmd(opts[1..], a)
      else if !AcceptsValue(o) then Rejected
      else ParseRegisterCmd(opts[1..], Apply(a, o))
  }

  /** A bad value rejects the command whatever came before it, unless `-h` came first. */
  lemma {:induction false} BadValueRejects(pre: seq<RegOpt>, o: RegOpt, post: seq<RegOpt>, a: RegisterArgs)
    requires ValidArgs(a) && HasValue(o) && !AcceptsValue(o)
    requires forall j :: 0 <= j < |pre| ==> !pre[j].HelpArg? && (HasValue(pre[j]) ==> AcceptsValue(pre[j]))
    ensures ParseRegisterCmd(pre + [o] + post, a) == Rejected
  {
    if |pre| > 0 {
      var p := pre[0];
      assert (pre + [o] + post)[1..] == pre[1..] + [o] + post;
      if HasValue(p) {
        BadValueRejects(pre[1..], o, post, Apply(a, p));
      } else {
        BadValueRejects(pre[1..], o, post, a);
      }
    }
  }

  /** With no options the access uses the defaults: port 0, 115200 baud, a read of address 0 on FPGA 0. */
  lemma DefaultsAreUsed()
    ensures ValidArgs(DefaultArgs)
    ensures ParseRegisterCmd([], DefaultArgs) == Access(RegisterArgs(0, 115200, 0, 0, 0, 0))
  {
    DefaultRatesValid();
  }

  /**
   * `process_board_registerCmd`: returns -1 on a rejected option and 0 on
   * `-h`, in both cases without touching the board; otherwise it returns
   * what the register access (`accessRc`) returns.
   */
  method ProcessBoardRegisterCmd(opts: seq<RegOpt>, accessRc: int) returns (rc: int, call: Option<RegisterArgs>)
    ensures var r := ParseRegisterCmd(opts, DefaultArgs);
            && (r.Rejected? ==> rc == -1 && call.None?)
            && (r.Help? ==> rc == 0 && call.None?)
            && (r.Access? ==> rc == accessRc && call == Some(r.args))
  {
    DefaultsAreUsed();
    var a := DefaultArgs;
    var i := 0;
    while i < |opts|
      invariant 0 <= i <= |opts| && ValidArgs(a)
      invariant ParseRegisterCmd(opts[i..], a) == ParseRegisterCmd(opts, DefaultArgs)
    {
      assert opts[i..][1..] == opts[i + 1..];
      var o := opts[i];
      if o.HelpArg? {
        return 0, None;
      }
      if HasValue(o) {
        if o.v.None? {
          return -1, None;
        }
        if o.BaudArg? {
          var ok := CheckValidBaudRate(o.v.value);
          if ok != 0 {
            return -1, None;
          }
        } else if !AcceptsValue(o) {
          return -1, None;
        }
        a := Apply(a, o);
      }
      i := i + 1;
    }
    rc, call := accessRc, Some(a);
  }
}
