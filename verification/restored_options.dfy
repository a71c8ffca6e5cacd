/** The option parser of the snapshot-restoring engine
    (`RestoredEngine::OptionParser`): the switches it records, the
    positional snapshot path and the order of its validations.  Turning
    `HOURS:MINUTES:SECONDS` into seconds and reading a snapshot's metadata
    are engine calls; the first is done before the option reaches the
    model, the second is a parameter answering `None` for a readable
    snapshot and the error text otherwise. */
module RestoredOptions {
  import opened Wrappers

  /** The options this parser defines. */
  datatype Opt =
    | Timeout(seconds: int)
    | TimeoutSuspend
    | SlotsOverride
    | PrintMetadata
    | SnapshotSavePath(path: string)
    | ReportSavePath(path: string)

  /** What the options leave behind, in the parser and in the shared
      engine options. */
  datatype Parsed = Parsed(
    timeout: Option<int>,
    timeoutSuspend: bool,
    printMetadata: bool,
    maxSlots: Option<int>,
    snapshotPath: Option<string>,
    reportPath: Option<string>)

  const Initial := Parsed(None, false, false, None, None, None)

  function Apply(p: Parsed, o: Opt): (q: Parsed)
    ensures o.SlotsOverride? ==> q.maxSlots == Some(1)
  {
    match o
    case Timeout(t) => p.(timeout := Some(t))
    case TimeoutSuspend => p.(timeoutSuspend := true)
    case SlotsOverride => p.(maxSlots := Some(1))
    case PrintMetadata => p.(printMetadata := true)
    case SnapshotSavePath(path) => p.(snapshotPath := Some(path))
    case ReportSavePath(path) => p.(reportPath := Some(path))
  }

  /** The options in the order given on the command line. */
  function ApplyAll(p: Parsed, os: seq<Opt>): (q: Parsed)
    ensures q.timeoutSuspend <==> p.timeoutSuspend || TimeoutSuspend in os
    ensures q.printMetadata <==> p.printMetadata || PrintMetadata in os
    ensures SlotsOverride in os ==> q.maxSlots == Some(1)
    ensures SlotsOverride !in os ==> q.maxSlots == p.maxSlots
    decreases |os|
  {
    if |os| == 0 then p
    else
      assert forall o | o in os[1..] :: o in os;
      assert forall o | o in os :: o == os[0] || o in os[1..];
      ApplyAll(Apply(p, os[0]), os[1..])
  }

  /** The last `--timeout` wins. */
  lemma {:induction false} LastTimeoutWins(p: Parsed, os: seq<Opt>, t: int)
    ensures ApplyAll(p, os + [Timeout(t)]).timeout == Some(t)
    decreases |os|
  {
    if |os| > 0 {
      assert (os + [Timeout(t)])[1..] == os[1..] + [Timeout(t)];
      LastTimeoutWins(Apply(p, os[0]), os[1..], t);
    }
  }

  /** `timeout_suspend?` and `print_metadata?` are false unless their
      switches were given. */
  lemma FlagsDefaultFalse(os: seq<Opt>)
    ensures ApplyAll(Initial, os).timeoutSuspend <==> TimeoutSuspend in os
    ensures ApplyAll(Initial, os).printMetadata <==> PrintMetadata in os
    ensures ApplyAll(Initial, os).maxSlots == (if SlotsOverride in os then Some(1) else None)
  {
  }

  /** `after_parse`: the snapshot path is the first positional argument,
      `nil` when there is none; it replaces any `--snapshot-save-path`. */
  function AfterParse(p: Parsed, args: seq<string>): (q: Parsed)
    ensures q.snapshotPath.None? <==> |args| == 0
    ensures q.snapshotPath.Some? ==> q.snapshotPath.value == args[0]
    ensures q == p.(snapshotPath := q.snapshotPath)
  {
    p.(snapshotPath := if |args| == 0 then None else Some(args[0]))
  }

  const InvalidTimeout := "Invalid timeout value."
  const NoSnapshot := "No snapshot file provided."

  /** `validate_timeout`: no timeout, or a positive one. */
  function ValidateTimeout(t: Option<int>): (r: Result<Unit>)
    ensures r.Ok? <==> t.None? || t.value > 0
    ensures r.Failure? ==> r == Failure(InvalidTimeout, 1)
  {
    if t.None? || t.value > 0 then Ok(Unit) else Failure(InvalidTimeout, 1)
  }

  /** `validate_snapshot_path`: a path must be given and its metadata must
      be readable. */
  function ValidateSnapshotPath(path: Option<string>, metadataError: string -> Option<string>): (r: Result<Unit>)
    ensures r.Ok? <==> path.Some? && metadataError(path.value).None?
    ensures path.None? ==> r == Failure(NoSnapshot, 1)
    ensures path.Some? && metadataError(path.value).Some? ==>
              r == Failure(metadataError(path.value).value, 1)
  {
    match path
    case None => Failure(NoSnapshot, 1)
    case Some(f) =>
      match metadataError(f)
      case Some(e) => Failure(e, 1)
      case None => Ok(Unit)
  }

  /** `validate`: the timeout, then the snapshot path. */
  function Validate(p: Parsed, metadataError: string -> Option<string>): (r: Result<Unit>)
    ensures r.Ok? <==> ValidateTimeout(p.timeout).Ok? && ValidateSnapshotPath(p.snapshotPath, metadataError).Ok?
    ensures ValidateTimeout(p.timeout).Failure? ==> r == Failure(InvalidTimeout, 1)
  {
    if ValidateTimeout(p.timeout).Failure? then ValidateTimeout(p.timeout)
    else ValidateSnapshotPath(p.snapshotPath, metadataError)
  }

  /** With a bad timeout the snapshot is never looked at: the outcome is
      the same with or without a path and whatever the file holds. */
  lemma TimeoutCheckedFirst(p: Parsed, m1: string -> Option<string>, m2: string -> Option<string>, path: Option<string>)
    requires p.timeout.Some? && p.timeout.value <= 0
    ensures Validate(p, m1) == Validate(p.(snapshotPath := path), m2) == Failure(InvalidTimeout, 1)
  {
  }
}
