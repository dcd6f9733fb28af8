/**
 * The command front end of the DLA library: the interface's open/closed
 * state, the command table lookup with its "default" fallback, the help
 * listing, and the option handling of the library's entry point.
 *
 * The FTDI open and close calls and the command functions themselves are
 * outside the model: their outcomes are parameters.
 */
module DlaMain {
  import opened Common

  /** The largest USB port number the entry point accepts. */
  const MAX_PORT: int := 65535

  /** A command table entry (`struct dla_cmd`): its name and optional help text. */
  datatype Cmd = Cmd(name: string, desc: Option<string>)

  /** Return code and open flag after a port operation. */
  datatype PortStep = PortStep(rc: int, isOpen: bool)

  /**
   * `dla_port_open`: an open interface is refused with -1 and stays open; a
   * closed one becomes open with 0 when the device opens, else stays closed
   * and the call returns 1.
   */
  function OpenStep(isOpen: bool, openOk: bool): (s: PortStep)
    ensures isOpen ==> s == PortStep(-1, true)
    ensures !isOpen ==> s.isOpen == openOk && (s.rc == 0 <==> openOk) && s.rc != -1
  {
    if isOpen then PortStep(-1, true)
    else if openOk then PortStep(0, true)
    else PortStep(1, false)
  }

  /** `dla_port_close`: refuses a closed interface with -1, else closes it and returns 0. */
  function CloseStep(isOpen: bool): (s: PortStep)
    ensures !s.isOpen
    ensures s.rc == 0 <==> isOpen
    ensures s.rc == 0 || s.rc == -1
  {
    if isOpen then PortStep(0, false) else PortStep(-1, false)
  }

  /** A successful open followed by a close returns the interface to closed; closing again is refused. */
  lemma OpenCloseCycle()
    ensures OpenStep(false, true) == PortStep(0, true)
    ensures CloseStep(OpenStep(false, true).isOpen) == PortStep(0, false)
    ensures CloseStep(CloseStep(true).isOpen).rc == -1
    ensures OpenStep(OpenStep(false, true).isOpen, true).rc == -1
  {
  }

  /** `struct dla_intf`, reduced to the fields this logic reads and writes. */
  class DlaIntf {
    var port: int
    var isOpen: bool

    /** The interface after `memset(&intf, 0, ...)`. */
    constructor ()
      ensures port == 0 && !isOpen
    {
      port := 0;
      isOpen := false;
    }

    method PortOpen(openOk: bool) returns (rc: int)
      modifies this
      ensures PortStep(rc, isOpen) == OpenStep(old(isOpen), openOk)
      ensures port == old(port)
    {
      if isOpen {
        return -1;
      }
      if !openOk {
        return 1;
      }
      isOpen := true;
      rc := 0;
    }

    method PortClose() returns (rc: int)
      modifies this
      ensures PortStep(rc, isOpen) == CloseStep(old(isOpen))
      ensures port == old(port)
    {
      if !isOpen {
        return -1;
      }
      isOpen := false;
      rc := 0;
    }
  }

  // -------------------------------------------------------------------
  // dla_cmd_run
  // -------------------------------------------------------------------

  /** Index of the first entry named `name`, or `|table|` when there is none. */
  function FirstMatch(table: seq<Cmd>, name: string): (i: nat)
    ensures i <= |table|
    ensures i < |table| ==> table[i].name == name
    ensures forall j :: 0 <= j < i ==> table[j].name != name
  {
    if |table| == 0 then 0
    else if table[0].name == name then 0
    else 1 + FirstMatch(table[1..], name)
  }

  /** The search stops at the first entry with the name, and only there. */
  lemma {:induction false} FirstMatchIs(table: seq<Cmd>, name: string, i: nat)
    requires i <= |table|
    requires forall j :: 0 <= j < i ==> table[j].name != name
    requires i == |table| || table[i].name == name
    ensures FirstMatch(table, name) == i
  {
    if i > 0 {
      FirstMatchIs(table[1..], name, i - 1);
    }
  }

  /** A name is found exactly when some entry carries it. */
  lemma FirstMatchFound(table: seq<Cmd>, name: string)
    ensures FirstMatch(table, name) < |table| <==> exists j :: 0 <= j < |table| && table[j].name == name
  {
  }

  /** Which table entry runs, and with which arguments; `NoCommand` is a -1 return. */
  datatype Dispatch = RunCmd(index: nat, args: seq<string>) | NoCommand

  /** The first entry is the "default" command. */
  predicate HasDefault(table: seq<Cmd>)
  {
    |table| > 0 && table[0].name == "default"
  }

  /**
   * `dla_cmd_run` on the command words `command` (the name followed by its
   * arguments): the first entry with that name runs on the remaining words;
   * an unknown name runs a leading "default" entry on all the words, the
   * name included; with no name at all, "default" runs with no arguments.
   */
  function CmdDispatch(table: seq<Cmd>, command: seq<string>): (d: Dispatch)
    ensures d.RunCmd? ==> d.index < |table|
  {
    if command == [] then
      if HasDefault(table) then RunCmd(0, []) else NoCommand
    else
      var i := FirstMatch(table, command[0]);
      if i < |table| then RunCmd(i, command[1..])
      else if HasDefault(table) then RunCmd(0, command) else NoCommand
  }

  /** A known name runs its first entry, with the name's arguments passed unchanged. */
  lemma DispatchKnown(table: seq<Cmd>, command: seq<string>, i: nat)
    requires command != [] && i < |table| && table[i].name == command[0]
    requires forall j :: 0 <= j < i ==> table[j].name != command[0]
    ensures CmdDispatch(table, command) == RunCmd(i, command[1..])
  {
    FirstMatchIs(table, command[0], i);
  }

  /**
   * An unknown name goes to a leading "default" entry, which sees one more
   * argument than the name had: the name itself. Without such an entry the
   * call fails.
   */
  lemma DispatchUnknown(table: seq<Cmd>, command: seq<string>)
    requires command != [] && forall j :: 0 <= j < |table| ==> table[j].name != command[0]
    ensures HasDefault(table) ==> CmdDispatch(table, command) == RunCmd(0, command)
    ensures !HasDefault(table) ==> CmdDispatch(table, command) == NoCommand
  {
    FirstMatchIs(table, command[0], |table|);
  }

  /** The dispatched entry is always the named one or "default". */
  lemma DispatchRunsNamedOrDefault(table: seq<Cmd>, command: seq<string>)
    requires CmdDispatch(table, command).RunCmd?
    ensures var d := CmdDispatch(table, command);
            (command != [] && table[d.index].name == command[0]) || (d.index == 0 && table[0].name == "default")
  {
  }

  method CmdRun(table: seq<Cmd>, command: seq<string>) returns (d: Dispatch)
    ensures d == CmdDispatch(table, command)
  {
    if command == [] {
      if |table| == 0 {
        return NoCommand;
      }
      if table[0].name == "default" {
        return RunCmd(0, []);
      }
      return NoCommand;
    }
    var name := command[0];
    var i := 0;
    while i < |table| && table[i].name != name
      invariant 0 <= i <= |table|
      invariant forall j :: 0 <= j < i ==> table[j].name != name
    {
      i := i + 1;
    }
    FirstMatchIs(table, name, i);
    if i == |table| {
      if |table| > 0 && table[0].name == "default" {
        return RunCmd(0, command);
      }
      return NoCommand;
    }
    d := RunCmd(i, command[1..]);
  }

  // -------------------------------------------------------------------
  // dla_cmd_print
  // -------------------------------------------------------------------

  /** The listing, line by line. */
  datatype Line = CommandsHeading | CommandLine(name: string, desc: string) | BlankLine

  /** The entries that have help text, in table order. */
  function Described(table: seq<Cmd>): (s: seq<Cmd>)
    ensures |s| <= |table|
    ensures forall j :: 0 <= j < |s| ==> s[j] in table && s[j].desc.Some?
  {
    if |table| == 0 then []
    else if table[|table| - 1].desc.Some? then Described(table[..|table| - 1]) + [table[|table| - 1]]
    else Described(table[..|table| - 1])
  }

  /** No described entry is left out of the listing. */
  lemma {:induction false} DescribedComplete(table: seq<Cmd>, c: Cmd)
    requires c in table && c.desc.Some?
    ensures c in Described(table)
  {
    var n := |table|;
    if table[n - 1] != c {
      assert c in table[..n - 1];
      DescribedComplete(table[..n - 1], c);
    }
  }

  /** The heading (only when something is listed), one line per described entry. */
  function Listing(described: seq<Cmd>): (lines: seq<Line>)
    requires forall j :: 0 <= j < |described| ==> described[j].desc.Some?
    ensures |described| == 0 ==> lines == []
    ensures |described| > 0 ==> |lines| == |described| + 1 && lines[0] == CommandsHeading
    ensures forall j :: 0 <= j < |described| ==> lines[j + 1] == CommandLine(described[j].name, described[j].desc.value)
  {
    if |described| == 0 then []
    else [CommandsHeading] + seq(|described|, j requires 0 <= j < |described| => CommandLine(described[j].name, described[j].desc.value))
  }

  /** Listing one more entry appends its line, after the heading if it is the first. */
  lemma ListingStep(ds: seq<Cmd>, c: Cmd)
    requires forall j :: 0 <= j < |ds| ==> ds[j].desc.Some?
    requires c.desc.Some?
    ensures Listing(ds + [c]) == (if |ds| == 0 then [CommandsHeading] else Listing(ds)) + [CommandLine(c.name, c.desc.value)]
  {
    var l, r := Listing(ds + [c]), (if |ds| == 0 then [CommandsHeading] else Listing(ds)) + [CommandLine(c.name, c.desc.value)];
    assert |l| == |r|;
    forall j | 0 <= j < |l|
      ensures l[j] == r[j]
    {
      if j > 0 && j < |ds| + 1 {
        assert (ds + [c])[j - 1] == ds[j - 1];
      }
    }
  }

  /** Taking one more entry of the table into account. */
  lemma DescribedStep(table: seq<Cmd>, i: nat)
    requires i < |table|
    ensures Described(table[..i + 1]) == if table[i].desc.Some? then Described(table[..i]) + [table[i]] else Described(table[..i])
  {
    assert table[..i + 1][..i] == table[..i];
  }

  /**
   * `dla_cmd_print`: nothing for a missing table; otherwise the heading and
   * the described entries, then a blank line.
   */
  method CmdPrint(cmdlist: Option<seq<Cmd>>) returns (out: seq<Line>)
    ensures cmdlist.None? ==> out == []
    ensures cmdlist.Some? ==> out == Listing(Described(cmdlist.value)) + [BlankLine]
  {
    if cmdlist.None? {
      return [];
    }
    var table := cmdlist.value;
    out := [];
    var hdr := false;
    var i := 0;
    while i < |table|
      invariant 0 <= i <= |table|
      invariant out == Listing(Described(table[..i]))
      invariant hdr <==> |Described(table[..i])| > 0
    {
      DescribedStep(table, i);
      out, hdr := PrintEntry(out, hdr, Described(table[..i]), table[i]);
      i := i + 1;
    }
    assert table[..|table|] == table;
    out := out + [BlankLine];
  }

  /** One turn of `dla_cmd_print`: a described entry gets its line, after the heading if it is the first. */
  method PrintEntry(out: seq<Line>, hdr: bool, ghost ds: seq<Cmd>, c: Cmd) returns (out': seq<Line>, hdr': bool)
    requires forall j :: 0 <= j < |ds| ==> ds[j].desc.Some?
    requires out == Listing(ds) && (hdr <==> |ds| > 0)
    ensures c.desc.None? ==> out' == out && hdr' == hdr
    ensures c.desc.Some? ==> out' == Listing(ds + [c]) && hdr'
  {
    out', hdr' := out, hdr;
    if c.desc.Some? {
      ListingStep(ds, c);
      if !hdr' {
        out' := out' + [CommandsHeading];
        hdr' := true;
      }
      out' := out' + [CommandLine(c.name, c.desc.value)];
    }
  }

  // -------------------------------------------------------------------
  // dla_main
  // -------------------------------------------------------------------

  /**
   * One option as `getopt` hands it over: `-p` with the result of parsing
   * its argument (`None` when `str2int` fails), `-h`, `-v`, or anything else.
   */
  datatype MainOpt = PortOpt(value: Option<int>) | HelpOpt | VerboseOpt | OtherOpt

  /** The option loop either ends the program with a code or yields a port. */
  datatype OptOutcome = Stop(rc: int) | Go(port: int, verbose: nat)

  /**
   * The option loop from a given state: a bad or out-of-range port stops
   * with -1, `-h` stops with 0, `-v` raises the verbosity and anything else
   * is ignored; the last valid `-p` wins.
   */
  function ParseOptions(opts: seq<MainOpt>, port: int, verbose: nat): (r: OptOutcome)
    requires 0 <= port <= MAX_PORT
    ensures r.Go? ==> 0 <= r.port <= MAX_PORT && r.verbose >= verbose
    ensures r.Stop? ==> r.rc == 0 || r.rc == -1
    decreases |opts|
  {
    if |opts| == 0 then Go(port, verbose)
    else match opts[0]
      case PortOpt(v) =>
        if v.None? || v.value < 0 || v.value > MAX_PORT then Stop(-1)
        else ParseOptions(opts[1..], v.value, verbose)
      case HelpOpt => Stop(0)
      case VerboseOpt => ParseOptions(opts[1..], port, verbose + 1)
      case OtherOpt => ParseOptions(opts[1..], port, verbose)
  }

  /** Any out-of-range port stops the program with -1, whatever follows. */
  lemma PortOutOfRange(opts: seq<MainOpt>, port: int, verbose: nat, v: int)
    requires 0 <= port <= MAX_PORT && (v < 0 || v > MAX_PORT)
    ensures ParseOptions([PortOpt(Some(v))] + opts, port, verbose) == Stop(-1)
  {
  }

  /** What `dla_main` did: its code, the command it ran (if any) and whether the port ended open. */
  datatype MainResult = MainResult(rc: int, ran: Option<Dispatch>, portLeftOpen: bool)

  /**
   * `dla_main`: an option failure or `-h` returns at once; the "help"
   * command lists the table and returns 0 before any port is opened; a
   * port that fails to open makes the program return 0 without running
   * anything; otherwise the command is dispatched (its function returning
   * `cmdRc`) and the port is closed again.
   */
  method DlaMainRun(opts: seq<MainOpt>, command: seq<string>, table: seq<Cmd>, openOk: bool, cmdRc: int)
    returns (r: MainResult)
    ensures var p := ParseOptions(opts, 0, 0);
            && (p.Stop? ==> r == MainResult(p.rc, None, false))
            && (p.Go? && command != [] && command[0] == "help" ==> r == MainResult(0, None, false))
            && (p.Go? && !(command != [] && command[0] == "help") && !openOk ==> r == MainResult(0, None, false))
            && (p.Go? && !(command != [] && command[0] == "help") && openOk ==>
                  r.ran == Some(CmdDispatch(table, command)) && !r.portLeftOpen
                  && r.rc == (if CmdDispatch(table, command).RunCmd? then cmdRc else -1))
  {
    var iport := 0;
    var verbose: nat := 0;
    var i := 0;
    while i < |opts|
      invariant 0 <= i <= |opts| && 0 <= iport <= MAX_PORT
      invariant ParseOptions(opts[i..], iport, verbose) == ParseOptions(opts, 0, 0)
    {
      assert opts[i..][1..] == opts[i + 1..];
      var o := opts[i];
      if o.HelpOpt? {
        return MainResult(0, None, false);
      } else if o.PortOpt? {
        if o.value.None? || o.value.value < 0 || o.value.value > MAX_PORT {
          return MainResult(-1, None, false);
        }
        iport := o.value.value;
      } else if o.VerboseOpt? {
        verbose := verbose + 1;
      }
      i := i + 1;
    }
    var intf := new DlaIntf();
    if |command| > 0 && command[0] == "help" {
      return MainResult(0, None, false);
    }
    intf.port := iport;
    var openRc := intf.PortOpen(openOk);
    if openRc != 0 {
      return MainResult(0, None, intf.isOpen);
    }
    var d := CmdRun(table, command);
    var rc := if d.RunCmd? then cmdRc else -1;
    var closeRc := intf.PortClose();
    r := MainResult(rc, Some(d), intf.isOpen);
  }
}
