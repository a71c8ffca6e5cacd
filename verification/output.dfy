/** The interface's output switches and message formatting
    (`SCNR::UI::CLI::Output`).  The source keeps the switches in
    process-wide class variables; here they are an explicit value that
    every printing function receives. */
module Output {
  import opened Wrappers
  import Strings
  import Seqs

  /** The four switches: debug level, verbose, mute and only-positives. */
  datatype Flags = Flags(debug: int, verbose: bool, mute: bool, onlyPositives: bool)

  /** Everything `Output.initialize` resets. */
  datatype OutputState = OutputState(
    flags: Flags,
    rerouteToFile: bool,
    errorLogWrittenEnv: bool,
    errorBuffer: seq<string>,
    errorLogfile: string)

  const DefaultFlags := Flags(0, false, false, false)

  /** `Output.initialize`: every switch off, an empty error buffer and the
      error log named after the process id inside the logs directory. */
  function Initialize(logsDir: string, pid: nat): (st: OutputState)
    ensures st.flags.debug == 0 && !st.flags.verbose && !st.flags.mute && !st.flags.onlyPositives
    ensures !st.rerouteToFile && !st.errorLogWrittenEnv && st.errorBuffer == []
    ensures Strings.EndsWith(st.errorLogfile, ".log")
    ensures |st.errorLogfile| > |logsDir| + 10
    ensures st.errorLogfile[..|logsDir| + 6] == logsDir + "error-"
    ensures var digits := st.errorLogfile[|logsDir| + 6..|st.errorLogfile| - 4];
            Strings.AllDigits(digits) && Strings.ParseNat(digits) == pid
  {
    var digits := Strings.NatToString(pid);
    var name := logsDir + "error-" + digits + ".log";
    assert name[|logsDir| + 6..|name| - 4] == digits;
    Strings.ParseNatToString(pid);
    OutputState(DefaultFlags, false, false, [], name)
  }

  // ---- switches -------------------------------------------------------

  function VerboseOn(f: Flags): Flags { f.(verbose := true) }
  function VerboseOff(f: Flags): Flags { f.(verbose := false) }
  function Mute(f: Flags): Flags { f.(mute := true) }
  function Unmute(f: Flags): Flags { f.(mute := false) }
  function OnlyPositives(f: Flags): Flags { f.(onlyPositives := true) }
  function DisableOnlyPositives(f: Flags): Flags { f.(onlyPositives := false) }

  /** `debug_on(level = 1)`. */
  function DebugOn(f: Flags, level: int := 1): Flags { f.(debug := level) }
  function DebugOff(f: Flags): Flags { f.(debug := 0) }

  /** `debug?(level = 1)`. */
  predicate IsDebug(f: Flags, level: int := 1) { f.debug >= level }

  /** Each boolean setter fixes its own switch, leaves the three others as
      they were, and applying it twice is the same as applying it once. */
  lemma SettersTouchOneSwitch(f: Flags)
    ensures VerboseOn(f).verbose && !VerboseOff(f).verbose
    ensures Mute(f).mute && !Unmute(f).mute
    ensures OnlyPositives(f).onlyPositives && !DisableOnlyPositives(f).onlyPositives
    ensures VerboseOn(f) == Flags(f.debug, true, f.mute, f.onlyPositives)
    ensures VerboseOff(f) == Flags(f.debug, false, f.mute, f.onlyPositives)
    ensures Mute(f) == Flags(f.debug, f.verbose, true, f.onlyPositives)
    ensures Unmute(f) == Flags(f.debug, f.verbose, false, f.onlyPositives)
    ensures OnlyPositives(f) == Flags(f.debug, f.verbose, f.mute, true)
    ensures DisableOnlyPositives(f) == Flags(f.debug, f.verbose, f.mute, false)
    ensures VerboseOn(VerboseOn(f)) == VerboseOn(f) && VerboseOff(VerboseOff(f)) == VerboseOff(f)
    ensures Mute(Mute(f)) == Mute(f) && Unmute(Unmute(f)) == Unmute(f)
    ensures OnlyPositives(OnlyPositives(f)) == OnlyPositives(f)
    ensures DisableOnlyPositives(DisableOnlyPositives(f)) == DisableOnlyPositives(f)
  {
  }

  /** `debug?(l)` holds iff the level reaches `l`; the default `debug_on`
      enables level 1 only, and `debug_off` disables every level from 1. */
  lemma DebugLevels(f: Flags, l: int)
    ensures IsDebug(f, l) <==> f.debug >= l
    ensures IsDebug(DebugOn(f), 1) && !IsDebug(DebugOn(f), 2)
    ensures l >= 1 ==> !IsDebug(DebugOff(f), l)
    ensures IsDebug(DebugOn(f, l), l)
    ensures DebugOn(f, l).verbose == f.verbose && DebugOn(f, l).mute == f.mute
    ensures DebugOn(f, l).onlyPositives == f.onlyPositives
  {
  }

  // ---- formatting -----------------------------------------------------

  const Esc := "\U{1B}"

  /** The text `print_color` writes for one message: coloured when the
      stream is a terminal, plain otherwise. */
  function ColorLine(tty: bool, sign: string, color: nat, str: string): (line: string)
    ensures !tty ==> line == sign + " " + str + "\n"
    ensures tty ==> line == Esc + "[1;" + Strings.NatToString(color) + "m " + sign + Esc + "[1;00m " + str + "\n"
    ensures Strings.EndsWith(line, " " + str + "\n")
    ensures !tty ==> line[..|sign|] == sign
  {
    var tail := " " + str + "\n";
    var line := if tty then Esc + "[1;" + Strings.NatToString(color) + "m " + sign + Esc + "[1;00m" + tail
                else sign + tail;
    assert line[|line| - |tail|..] == tail;
    line
  }

  /** The terminal line opens with the colour escape, whose number reads
      back as the colour asked for. */
  lemma ColorCode(sign: string, color: nat, str: string)
    ensures var line := ColorLine(true, sign, color, str);
            var n := |Strings.NatToString(color)|;
            && line[..4] == Esc + "[1;"
            && 5 + n <= |line| && Strings.AllDigits(line[4..4 + n])
            && Strings.ParseNat(line[4..4 + n]) == color
  {
    var c := Strings.NatToString(color);
    var head := Esc + "[1;" + c;
    var line := ColorLine(true, sign, color, str);
    assert line == head + ("m " + sign + Esc + "[1;00m " + str + "\n");
    assert head[4..] == c;
    assert line[..|head|] == head;
    assert line[4..4 + |c|] == c;
    Strings.ReadBack(line[4..4 + |c|], color);
  }

  /** The coloured and the plain line carry the same sign and message:
      the terminal form is the plain form with a colour escape in front of
      the sign and a reset escape after it. */
  lemma ColorLineAgree(sign: string, color: nat, str: string)
    ensures var plain := ColorLine(false, sign, color, str);
            ColorLine(true, sign, color, str)
              == Esc + "[1;" + Strings.NatToString(color) + "m " + sign + Esc + "[1;00m" + plain[|sign|..]
  {
  }

  /** Message kinds, one per `print_*` method. */
  datatype Kind =
    | Bad | Status | Info | Ok | Verbose | Plain
    | Error(location: string)
    | Debug(level: nat, location: string)

  /** One `print_*` call: its kind and its text, before gating and
      formatting. */
  datatype Message = Message(kind: Kind, text: string)

  function Sign(k: Kind): string {
    match k
    case Bad => "[-]"
    case Status => "[*]"
    case Info => "[~]"
    case Ok => "[+]"
    case Verbose => "[v]"
    case Plain => ""
    case Error(loc) => "[-] " + loc
    case Debug(level, loc) => "[" + Strings.Repeat('!', level) + "] " + loc
  }

  function Color(k: Kind): nat {
    match k
    case Bad => 31
    case Status => 34
    case Info => 30
    case Ok => 32
    case Verbose => 37
    case Plain => 0
    case Error(_) => 31
    case Debug(_, _) => 36
  }

  /** `intercept_print_message`: classes that personalise their output
      prefix each message with their short class name. */
  function Personalize(personal: Option<string>, str: string): (r: string)
    ensures Strings.EndsWith(r, str)
    ensures r == str <==> personal.None?
    ensures personal.Some? ==> |personal.value| + 2 <= |r| && r[..|personal.value| + 2] == personal.value + ": "
  {
    match personal
    case Some(name) =>
      var r := name + ": " + str;
      assert r[|r| - |str|..] == str && r[..|name| + 2] == name + ": ";
      r
    case None => str
  }

  /** `puts`: adds a newline unless the string already ends with one. */
  function Puts(str: string): (out: string)
    ensures Strings.EndsWith(out, "\n")
    ensures |str| <= |out| && out[..|str|] == str
  {
    if Strings.EndsWith(str, "\n") then str else str + "\n"
  }

  /** The gate of each `print_*` method: does it emit anything at all? */
  predicate Emits(f: Flags, k: Kind, unmute: bool) {
    match k
    case Bad => !f.mute || unmute
    case Status => !f.onlyPositives && (!f.mute || unmute)
    case Info => !f.onlyPositives && (!f.mute || unmute)
    case Ok => !f.mute || unmute
    case Verbose => f.verbose && (!f.mute || unmute)
    case Plain => !f.onlyPositives && (!f.mute || unmute)
    case Error(_) => !f.mute
    case Debug(level, _) => IsDebug(f, level) && !f.mute
  }

  /** What one `print_*` call writes, or `None` when it is silent.
      `print_line` writes through `puts`; the others through `print_color`.
      Debug lines carry a wall-clock prefix ("[time - elapsed]"), supplied
      as `stamp`. */
  function Emit(f: Flags, k: Kind, str: string, unmute: bool, tty: bool,
                personal: Option<string>, stamp: string): (out: Option<string>)
    ensures out.Some? <==> Emits(f, k, unmute)
    ensures out.Some? && !k.Plain? && !k.Debug? ==>
              out.value == ColorLine(tty, Sign(k), Color(k), Personalize(personal, str))
    ensures out.Some? && k.Debug? ==>
              out.value == ColorLine(tty, stamp + " " + Sign(k), Color(k), Personalize(personal, str))
    ensures out.Some? && k.Plain? ==> out.value == Puts(str)
  {
    match k
    case Plain =>
      if f.onlyPositives then None
      else if f.mute && !unmute then None
      else Some(Puts(str))
    case Status =>
      if f.onlyPositives then None else PrintColor(f, k, str, unmute, tty, personal)
    case Info =>
      if f.onlyPositives then None else PrintColor(f, k, str, unmute, tty, personal)
    case Verbose =>
      if !f.verbose then None else PrintColor(f, k, str, unmute, tty, personal)
    case Bad =>
      if f.mute && !unmute then None else PrintColor(f, k, str, unmute, tty, personal)
    case Ok => PrintColor(f, k, str, unmute, tty, personal)
    case Error(_) => PrintColor(f, k, str, false, tty, personal)
    case Debug(level, _) =>
      if !IsDebug(f, level) then None
      else if f.mute then None
      else Some(ColorLine(tty, stamp + " " + Sign(k), Color(k), Personalize(personal, str)))
  }

  /** `print_color`: silent iff muted without the override. */
  function PrintColor(f: Flags, k: Kind, str: string, unmute: bool, tty: bool,
                      personal: Option<string>): (out: Option<string>)
    ensures out.None? <==> f.mute && !unmute
  {
    if f.mute && !unmute then None
    else Some(ColorLine(tty, Sign(k), Color(k), Personalize(personal, str)))
  }

  /** Under only-positives, status, info and plain lines are silent while
      good news still gets through; muting silences everything but the
      messages that override it. */
  lemma OnlyPositivesKeepsOk(f: Flags, str: string, unmute: bool, tty: bool, personal: Option<string>, stamp: string)
    requires f.onlyPositives
    ensures Emit(f, Status, str, unmute, tty, personal, stamp).None?
    ensures Emit(f, Info, str, unmute, tty, personal, stamp).None?
    ensures Emit(f, Plain, str, unmute, tty, personal, stamp).None?
    ensures !f.mute || unmute ==> Emit(f, Kind.Ok, str, unmute, tty, personal, stamp).Some?
    ensures !f.mute || unmute ==> Emit(f, Bad, str, unmute, tty, personal, stamp).Some?
  {
  }

  // ---- error log ------------------------------------------------------

  /** The HTTP part of the options dumped into the error log. */
  datatype HttpAuth = HttpAuth(username: Option<string>, password: Option<string>)

  const Masked := "*****"

  /** Credential masking in `log_error`: when a user name is present both it
      and the password become '*****'; otherwise nothing changes. */
  function MaskCredentials(h: HttpAuth): (r: HttpAuth)
    ensures h.username.Some? ==> r.username == Some(Masked) && r.password == Some(Masked)
    ensures h.username.None? ==> r == h
    ensures r.username.Some? ==> r.password == Some(Masked)
  {
    if h.username.Some? then
      var u := Some(Masked);
      HttpAuth(u, u)
    else h
  }

  /** The rendered parts of the header `log_error` writes once per process:
      the time stamp, the environment and the masked options, each already
      turned into YAML text by the caller. */
  datatype LogHeader = LogHeader(now: string, envYaml: string, optionsYaml: HttpAuth -> string, http: HttpAuth)

  function Dashes(): string { Strings.Repeat('-', 80) }

  /** The lines `log_error` adds to the error buffer before the first
      message.  Each block is split on "\n" as the source does. */
  function HeaderLines(hd: LogHeader): seq<string>
  {
    var options := hd.optionsYaml(MaskCredentials(hd.http));
    ["", hd.now + " " + Dashes()]
      + Strings.Split("ENV:", '\n') + Strings.Split(hd.envYaml, '\n')
      + Strings.Split(Dashes(), '\n') + Strings.Split("OPTIONS:", '\n')
      + Strings.Split(options, '\n')
      + [Dashes()]
  }

  /** `log_error(str)`: nothing happens when the log cannot be opened;
      otherwise the header is buffered exactly once, then the stamped
      message. */
  function LogError(st: OutputState, str: string, logOpen: bool, stamp: string, hd: LogHeader): (r: OutputState)
    ensures !logOpen ==> r == st
    ensures logOpen ==> r.errorLogWrittenEnv
    ensures logOpen ==> |r.errorBuffer| > 0 && r.errorBuffer[|r.errorBuffer| - 1] == "[" + stamp + "] " + str
    ensures logOpen && st.errorLogWrittenEnv ==> r.errorBuffer == st.errorBuffer + ["[" + stamp + "] " + str]
    ensures logOpen && !st.errorLogWrittenEnv ==>
              r.errorBuffer == st.errorBuffer + HeaderLines(hd) + ["[" + stamp + "] " + str]
    ensures r.flags == st.flags && r.errorLogfile == st.errorLogfile
  {
    if !logOpen then st
    else
      var header := if st.errorLogWrittenEnv then [] else HeaderLines(hd);
      st.(errorLogWrittenEnv := true,
          errorBuffer := st.errorBuffer + header + ["[" + stamp + "] " + str])
  }

  /** The header goes into the buffer once: a second message only appends
      its own line. */
  lemma HeaderOnce(st: OutputState, a: string, b: string, s1: string, s2: string, hd: LogHeader)
    ensures var r := LogError(LogError(st, a, true, s1, hd), b, true, s2, hd);
            r.errorBuffer == LogError(st, a, true, s1, hd).errorBuffer + ["[" + s2 + "] " + b]
  {
  }
}
