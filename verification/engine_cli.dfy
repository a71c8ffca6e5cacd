/** The framework CLI's interactive command handling (`CLI::Engine`): the
    command-screen toggle, the single-line commands read from the terminal
    and the output switches they flip.  The reader and screen threads are
    not modelled; each call interprets one stripped line against the
    screen state and the scan status at the time it is read. */
module EngineCli {
  import opened Wrappers
  import opened Scan
  import Output
  import Strings

  /** The parts of the CLI object the command handler reads and writes:
      whether the command screen is up, the output switches, and the
      only-positives setting saved by `capture_output_options`
      (`@only_positives_opt`, `nil` at first, modelled as false). */
  datatype Screen = Screen(shown: bool, flags: Output.Flags, captured: bool)

  /** What a command asks of the scan. */
  datatype Intent = NoIntent | AbortScan | PauseScan | ResumeScan | SuspendScan | GenerateReport

  datatype Outcome = Outcome(intent: Intent, screen: Screen)

  // ---- output options around the command screen -----------------------

  /** `capture_output_options`: remember only-positives, then disable it. */
  function Capture(sc: Screen): (r: Screen)
    ensures r.captured == sc.flags.onlyPositives
    ensures !r.flags.onlyPositives
    ensures r.shown == sc.shown
    ensures r.flags.(onlyPositives := sc.flags.onlyPositives) == sc.flags
  {
    sc.(captured := sc.flags.onlyPositives, flags := Output.DisableOnlyPositives(sc.flags))
  }

  /** `restore_output_options`: switch only-positives back on when it was
      captured on (it never switches it off), and unmute. */
  function Restore(sc: Screen): (r: Screen)
    ensures r.flags.onlyPositives == (sc.flags.onlyPositives || sc.captured)
    ensures !r.flags.mute
    ensures r.shown == sc.shown && r.captured == sc.captured
    ensures r.flags.debug == sc.flags.debug && r.flags.verbose == sc.flags.verbose
  {
    var f := if sc.captured then Output.OnlyPositives(sc.flags) else sc.flags;
    sc.(flags := Output.Unmute(f))
  }

  /** `hide_command_screen`: stop the screen and restore output options. */
  function Hide(sc: Screen): (r: Screen)
    ensures !r.shown
    ensures r.flags == Restore(sc).flags && r.captured == sc.captured
  {
    Restore(sc).(shown := false)
  }

  /** `show_command_screen`: the screen thread starts by muting output. */
  function Show(sc: Screen): (r: Screen)
    ensures r.shown && r.flags.mute
    ensures r.captured == sc.captured
    ensures r.flags.(mute := sc.flags.mute) == sc.flags
  {
    sc.(shown := true, flags := Output.Mute(sc.flags))
  }

  /** Capturing and then restoring gives back the captured only-positives
      setting, unmuted, whatever was captured before. */
  lemma CaptureRestore(sc: Screen)
    ensures Restore(Capture(sc)).flags == sc.flags.(mute := false)
    ensures Restore(Capture(sc)).captured == sc.flags.onlyPositives
  {
  }

  // ---- the `d` command ----------------------------------------------------

  /** How `/d(\d?)/` matches a line: not at all, with an empty group, or
      with one digit. */
  datatype DebugArg = NoMatch | Toggle | Level(n: nat)

  /** The position of the leftmost `c` in `s`, if any. */
  function FirstIndex(s: string, c: char): (r: Option<nat>)
    ensures r.None? <==> c !in s
    ensures r.Some? ==> r.value < |s| && s[r.value] == c && c !in s[..r.value]
  {
    if |s| == 0 then None
    else if s[0] == c then Some(0)
    else
      var t := FirstIndex(s[1..], c);
      assert s == [s[0]] + s[1..];
      if t.None? then None
      else
        assert s[..t.value + 1] == [s[0]] + s[1..][..t.value];
        Some(t.value + 1)
  }

  /** The unanchored match of `/d(\d?)/`: the leftmost 'd', and the digit
      right after it when there is one. */
  function MatchDebug(line: string): (a: DebugArg)
    ensures a == NoMatch <==> 'd' !in line
    ensures forall i | 0 <= i < |line| && line[i] == 'd' && 'd' !in line[..i] ::
              && (a.Level? <==> i + 1 < |line| && Strings.IsDigit(line[i + 1]))
              && (a.Level? ==> a.n == Strings.DigitValue(line[i + 1]))
    ensures a.Level? ==> a.n <= 9
  {
    match FirstIndex(line, 'd')
    case None => NoMatch
    case Some(j) =>
      if j + 1 < |line| && Strings.IsDigit(line[j + 1]) then Level(Strings.DigitValue(line[j + 1])) else Toggle
  }

  /** The debug switch after a matched `d` line. */
  function ApplyDebug(f: Output.Flags, a: DebugArg): (r: Output.Flags)
    requires a != NoMatch
    ensures a.Toggle? ==> (Output.IsDebug(r) <==> !Output.IsDebug(f))
    ensures a.Toggle? ==> r.debug == if Output.IsDebug(f) then 0 else 1
    ensures a.Level? ==> r.debug == a.n
    ensures r.(debug := f.debug) == f
  {
    match a
    case Toggle => if Output.IsDebug(f) then Output.DebugOff(f) else Output.DebugOn(f)
    case Level(n) => Output.DebugOn(f, n)
  }

  // ---- `get_user_command` ------------------------------------------------

  /** The exact-string commands, tried before the `d` pattern. */
  predicate IsKeyword(line: string) {
    line == "a" || line == "p" || line == "r" || line == "s" || line == "g" || line == "v"
  }

  /** One line as `get_user_command` handles it, as written.  With the
      command screen hidden only the empty line is acted on. */
  function Interpret(sc: Screen, st: ScanStatus, line: string): (o: Outcome)
    ensures !sc.shown && line != "" ==> o == Outcome(NoIntent, sc)
    ensures o.intent == AbortScan <==> sc.shown && line == "a"
    ensures o.intent == PauseScan <==> sc.shown && line == "p" && st == Scanning
    ensures o.intent == SuspendScan <==> sc.shown && line == "s" && st == Scanning
    ensures o.intent == GenerateReport <==> sc.shown && line == "g"
    ensures o.intent != ResumeScan
    ensures o.screen.flags.verbose != sc.flags.verbose <==> sc.shown && line == "v"
    ensures line == "" ==> o.screen.shown == !sc.shown
    ensures o.screen.flags.debug != sc.flags.debug ==>
              sc.shown && !IsKeyword(line) && MatchDebug(line) != NoMatch
    ensures line == "p" || line == "r" || line == "s" ==> o.screen == sc
  {
    if !sc.shown && line != "" then Outcome(NoIntent, sc)
    else if line == "a" then Outcome(AbortScan, Capture(sc))
    else if line == "p" then
      Outcome(if st == Scanning then PauseScan else NoIntent, sc)
    else if line == "r" then
      Outcome(if !(st == Pausing) || !(st == Paused) then NoIntent else ResumeScan, sc)
    else if line == "s" then
      Outcome(if st == Scanning then SuspendScan else NoIntent, sc)
    else if line == "g" then Outcome(GenerateReport, Restore(Capture(Hide(sc))))
    else if line == "v" then
      var h := Hide(sc);
      Outcome(NoIntent, h.(flags := if h.flags.verbose then Output.VerboseOff(h.flags) else Output.VerboseOn(h.flags)))
    else if MatchDebug(line) != NoMatch then
      var h := Hide(sc);
      Outcome(NoIntent, h.(flags := ApplyDebug(h.flags, MatchDebug(line))))
    else if line == "" then
      Outcome(NoIntent, if sc.shown then Hide(sc) else Show(Capture(sc)))
    else Outcome(NoIntent, sc)
  }

  /** With the screen up, a `d` line that is not one of the keywords
      toggles debugging when no digit follows the first 'd' and otherwise
      sets the level to that digit, even inside a longer line. */
  lemma DebugCommand(sc: Screen, st: ScanStatus, line: string)
    requires sc.shown && !IsKeyword(line) && 'd' in line
    ensures var o := Interpret(sc, st, line);
            && o.intent == NoIntent && !o.screen.shown
            && (MatchDebug(line).Toggle? ==> (Output.IsDebug(o.screen.flags) <==> !Output.IsDebug(sc.flags)))
            && (MatchDebug(line).Level? ==> o.screen.flags.debug == MatchDebug(line).n)
  {
  }

  /** Opening and then closing the command screen leaves the output
      switches as they were, except that output ends up unmuted. */
  lemma ToggleTwice(sc: Screen, st: ScanStatus)
    requires !sc.shown
    ensures var once := Interpret(sc, st, "");
            var twice := Interpret(once.screen, st, "");
            && once.screen.shown && once.screen.flags.mute && !once.screen.flags.onlyPositives
            && !twice.screen.shown
            && twice.screen.flags == sc.flags.(mute := false)
  {
  }

  /** Generating a report from the command screen closes it and leaves
      only-positives on iff it was on before the screen opened or is on
      now; the saved setting agrees. */
  lemma ReportRestores(sc: Screen, st: ScanStatus)
    requires sc.shown
    ensures var o := Interpret(sc, st, "g");
            && !o.screen.shown && !o.screen.flags.mute
            && o.screen.flags.onlyPositives == (sc.flags.onlyPositives || sc.captured)
            && o.screen.captured == o.screen.flags.onlyPositives
  {
  }

  /** `v` closes the screen, so a second `v` needs Enter to reopen it
      first; that reopening captures and mutes but leaves verbosity alone,
      and the second `v` gives verbosity back. */
  lemma VerboseTwice(sc: Screen, st: ScanStatus)
    requires sc.shown
    ensures var first := Interpret(sc, st, "v").screen;
            var reopened := Interpret(first, st, "").screen;
            var second := Interpret(reopened, st, "v").screen;
            && !first.shown && reopened.shown
            && reopened.flags.verbose == first.flags.verbose
            && second.flags.verbose == sc.flags.verbose
  {
  }

  // ---- the command-screen menu ------------------------------------------

  datatype EngineKey = EnterKey | PauseKey | ResumeKey | AbortKey | SuspendKey | ReportKey | VerboseKey | DebugKey

  function KeyLabel(k: EngineKey): string {
    match k
    case EnterKey => "Enter"
    case PauseKey => "p"
    case ResumeKey => "r"
    case AbortKey => "a"
    case SuspendKey => "s"
    case ReportKey => "g"
    case VerboseKey => "v"
    case DebugKey => "d"
  }

  /** The line the user types for a key. */
  function KeyText(k: EngineKey): string {
    if k == EnterKey then "" else KeyLabel(k)
  }

  /** The filter of `show_command_screen`. */
  predicate Offered(k: EngineKey, st: ScanStatus) {
    && !((k == EnterKey || k == SuspendKey || k == PauseKey) && st != Scanning)
    && !(k == ResumeKey && !(st == Paused || st == Pausing))
  }

  /** The keys listed under "Hit:", in display order; nothing is listed
      while suspending. */
  function MenuKeys(st: ScanStatus): (keys: seq<EngineKey>)
    ensures st == Suspending ==> keys == []
    ensures st != Suspending ==> AbortKey in keys && ReportKey in keys && VerboseKey in keys && DebugKey in keys
    ensures EnterKey in keys <==> st == Scanning
    ensures PauseKey in keys <==> st == Scanning
    ensures SuspendKey in keys <==> st == Scanning
    ensures ResumeKey in keys <==> st == Paused || st == Pausing
  {
    if st == Suspending then []
    else
      (if st == Scanning then [EnterKey, PauseKey] else [])
      + (if st == Paused || st == Pausing then [ResumeKey] else [])
      + [AbortKey]
      + (if st == Scanning then [SuspendKey] else [])
      + [ReportKey, VerboseKey, DebugKey]
  }

  /** The menu lists exactly the keys the per-entry filter admits. */
  lemma MenuKeysAreOffered(st: ScanStatus, k: EngineKey)
    ensures k in MenuKeys(st) <==> st != Suspending && Offered(k, st)
  {
    var keys := MenuKeys(st);
    if st != Suspending {
      match k
      case EnterKey =>
      case PauseKey =>
      case ResumeKey =>
      case AbortKey =>
      case SuspendKey =>
      case ReportKey =>
      case VerboseKey =>
      case DebugKey =>
    }
  }

  /** "en" or "dis" for a switch that is currently off or on. */
  function Able(on: bool): string {
    if on then "dis" else "en"
  }

  /** The action text of each key; those of `v` and `d` follow the
      current switches. */
  function Action(k: EngineKey, f: Output.Flags): string {
    match k
    case EnterKey => "go back to status messages"
    case PauseKey => "pause the scan"
    case ResumeKey => "resume the scan"
    case AbortKey => "abort the scan"
    case SuspendKey => "suspend the scan to disk"
    case ReportKey => "generate a report"
    case VerboseKey => Able(f.verbose) + "able verbose messages"
    case DebugKey =>
      Able(Output.IsDebug(f)) + "able debugging messages.\n" + Strings.Repeat(' ', 11)
      + "(You can set it to the desired level by sending d[1-4], current level is "
      + Strings.IntToString(f.debug) + ")"
  }

  function MenuLines(st: ScanStatus, f: Output.Flags): (lines: seq<string>)
    ensures |lines| == |MenuKeys(st)|
    ensures forall i | 0 <= i < |lines| ::
              lines[i] == "  '" + KeyLabel(MenuKeys(st)[i]) + "' to " + Action(MenuKeys(st)[i], f) + "."
  {
    var keys := MenuKeys(st);
    seq(|keys|, i requires 0 <= i < |keys| => "  '" + KeyLabel(keys[i]) + "' to " + Action(keys[i], f) + ".")
  }

  /** The `v` entry tells the truth: it says "enable" exactly when typing
      `v` on the screen turns verbose messages on. */
  lemma VerboseEntryHonest(sc: Screen, st: ScanStatus)
    requires sc.shown
    ensures Action(VerboseKey, sc.flags) == "enable verbose messages" <==> Interpret(sc, st, "v").screen.flags.verbose
  {
  }

  // ---- resume ---------------------------------------------------------

  /** The menu offers 'r' for a paused scan, yet the guard as written lets
      `resume!` through only for a scan both pausing and paused, which no
      single status is: the offered key does nothing. */
  lemma ResumeNeverIssued(sc: Screen)
    requires sc.shown
    ensures ResumeKey in MenuKeys(Paused) && ResumeKey in MenuKeys(Pausing)
    ensures Interpret(sc, Paused, "r").intent == NoIntent
    ensures Interpret(sc, Pausing, "r").intent == NoIntent
  {
  }

  /** The handler with the guard the menu advertises: resume a scan that
      is paused or pausing. */
  function InterpretCorrected(sc: Screen, st: ScanStatus, line: string): (o: Outcome)
    ensures o.intent == ResumeScan <==> sc.shown && line == "r" && (st == Paused || st == Pausing)
    ensures line != "r" ==> o == Interpret(sc, st, line)
  {
    if sc.shown && line == "r" then
      Outcome(if !(st == Pausing) && !(st == Paused) then NoIntent else ResumeScan, sc)
    else Interpret(sc, st, line)
  }

  /** With the corrected guard every command key on the menu other than
      the screen toggle and the output switches reaches the scan. */
  lemma OfferedCommandsReachScan(sc: Screen, st: ScanStatus, k: EngineKey)
    requires sc.shown && k in MenuKeys(st)
    requires k in {PauseKey, ResumeKey, AbortKey, SuspendKey, ReportKey}
    ensures InterpretCorrected(sc, st, KeyText(k)).intent != NoIntent
  {
  }
}
