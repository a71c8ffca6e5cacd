/** The attached-instance session (`RPC::Client::Instance`): the locally
    held view of a remote scan, refreshed from progress snapshots that
    carry only what is new, and the single-key commands a user can send.
    Threads, the mutex, terminal drawing and the RPC calls themselves are
    not modelled: a fetched snapshot and the status at the moment a
    command is read are inputs. */
module Session {
  import opened Wrappers
  import opened Scan
  import Seqs
  import Strings

  /** What `native_progress` returns: status, busy flag, the issues not
      excluded by the request and the error messages past the offset. */
  datatype Snapshot = Snapshot(status: ScanStatus, busy: bool, issues: seq<Issue>, errors: seq<string>)

  /** The session's mutable instance variables. */
  datatype State = State(
    issues: seq<Issue>,        // @issues
    digests: seq<Digest>,      // @issue_digests
    errorCount: nat,           // @error_messages_cnt
    errorLog: Option<string>,  // @error_log_file
    progress: Option<Snapshot>,// @progress
    abort: bool)               // @abort

  /** The state right after `initialize`; `||=` supplies the zero count and
      empty digest list on the first refresh. */
  const Initial := State([], [], 0, None, None, false)

  /** The request of `refresh_progress`: skip the first `errorOffset` error
      messages and every issue whose digest is listed. */
  datatype Request = Request(errorOffset: nat, withoutDigests: seq<Digest>)

  function ProgressRequest(s: State): (q: Request)
    ensures q.errorOffset == s.errorCount
    ensures q.withoutDigests == s.digests
    ensures s == Initial ==> q == Request(0, [])
  {
    Request(s.errorCount, s.digests)
  }

  /** What the session keeps true between refreshes: no issue twice (under
      the engine's issue equality, abstracted as `key`), issues ordered by
      severity, no digest twice, and every held issue's digest among the
      digests the next request excludes. */
  predicate Valid<K(==)>(s: State, key: Issue -> K) {
    && Seqs.KeyDistinct(s.issues, key)
    && NonIncreasing(s.issues)
    && Seqs.KeyDistinct(s.digests, Seqs.Identity)
    && forall x | x in s.issues :: x.digest in s.digests
  }

  /** Error log name: the instance URL with every ':' made '_', plus
      ".error.log". */
  function ErrorLogPath(url: string): (path: string)
    ensures |path| == |url| + 10
    ensures Strings.EndsWith(path, ".error.log")
    ensures forall i | 0 <= i < |url| :: path[i] == if url[i] == ':' then '_' else url[i]
    ensures ':' !in path
  {
    var p := Strings.ReplaceChar(url, ':', '_') + ".error.log";
    assert p[|url|..] == ".error.log";
    p
  }

  /** `has_errors?`: an error log has been named. */
  predicate HasErrors(s: State) {
    s.errorLog.Some?
  }

  /** `has_errors?` holds exactly when some error message has been
      received: a refresh keeps that link, so it holds from the initial
      state on. */
  lemma HasErrorsIffCounted<K>(s: State, fetched: Option<Snapshot>, url: string, key: Issue -> K)
    requires HasErrors(s) <==> s.errorCount > 0
    ensures var r := Refresh(s, fetched, url, key);
            HasErrors(r) <==> r.errorCount > 0
  {
  }

  /** `@issues |= new` followed by the severity sort: the duplicate-free
      union of what was held and what arrived, ordered by non-increasing
      severity.  Nothing held is dropped, every arrival is represented, and
      nothing else appears. */
  function MergeIssues<K(==)>(held: seq<Issue>, arrived: seq<Issue>, key: Issue -> K): (r: seq<Issue>)
    ensures multiset(r) == multiset(Seqs.UniqBy(held + arrived, key))
    ensures NonIncreasing(r) && Seqs.KeyDistinct(r, key)
    ensures Seqs.KeyDistinct(held, key) ==> forall x | x in held :: x in r
    ensures forall i | 0 <= i < |arrived| :: key(arrived[i]) in Seqs.Keys(r, key)
    ensures forall x | x in r :: x in held || x in arrived
  {
    var union := Seqs.UniqBy(held + arrived, key);
    var issues := SortBySeverity(union);
    SortKeyDistinct(union, key);
    MergeCoversArrived(held, arrived, key, union, issues);
    MergeFromSources(held, arrived, key, union, issues);
    assert Seqs.KeyDistinct(held, key) ==> forall x | x in held :: x in issues by {
      if Seqs.KeyDistinct(held, key) {
        MergeKeepsHeld(held, arrived, key, union, issues);
      }
    }
    issues
  }

  lemma MergeCoversArrived<K>(held: seq<Issue>, arrived: seq<Issue>, key: Issue -> K,
                              union: seq<Issue>, issues: seq<Issue>)
    requires union == Seqs.UniqBy(held + arrived, key)
    requires multiset(issues) == multiset(union)
    ensures forall i | 0 <= i < |arrived| :: key(arrived[i]) in Seqs.Keys(issues, key)
  {
    forall i | 0 <= i < |arrived|
      ensures key(arrived[i]) in Seqs.Keys(issues, key)
    {
      assert (held + arrived)[|held| + i] == arrived[i];
      assert key(arrived[i]) in Seqs.Keys(union, key);
      var j :| 0 <= j < |union| && Seqs.Keys(union, key)[j] == key(arrived[i]);
      assert union[j] in multiset(issues);
      var m :| 0 <= m < |issues| && issues[m] == union[j];
      assert Seqs.Keys(issues, key)[m] == key(arrived[i]);
    }
  }

  lemma MergeFromSources<K>(held: seq<Issue>, arrived: seq<Issue>, key: Issue -> K,
                            union: seq<Issue>, issues: seq<Issue>)
    requires union == Seqs.UniqBy(held + arrived, key)
    requires multiset(issues) == multiset(union)
    ensures forall x | x in issues :: x in held || x in arrived
  {
    forall x | x in issues
      ensures x in held || x in arrived
    {
      assert x in multiset(union);
      assert x in union;
      assert x in held + arrived;
    }
  }

  lemma MergeKeepsHeld<K>(held: seq<Issue>, arrived: seq<Issue>, key: Issue -> K,
                          union: seq<Issue>, issues: seq<Issue>)
    requires Seqs.KeyDistinct(held, key)
    requires union == Seqs.UniqBy(held + arrived, key)
    requires multiset(issues) == multiset(union)
    ensures forall x | x in held :: x in issues
  {
    Seqs.UnionKeepsLeft(held, arrived, key);
    forall x | x in held
      ensures x in issues
    {
      var i :| 0 <= i < |held| && held[i] == x;
      assert union[..|held|][i] == x;
      assert x in multiset(union);
    }
  }

  /** `@issue_digests |= new digests`: grows by union, holds no digest
      twice, and keeps the old list as its prefix. */
  function MergeDigests(held: seq<Digest>, arrived: seq<Digest>): (r: seq<Digest>)
    ensures forall d :: d in r <==> d in held || d in arrived
    ensures Seqs.KeyDistinct(r, Seqs.Identity)
    ensures Seqs.KeyDistinct(held, Seqs.Identity) ==> |held| <= |r| && r[..|held|] == held
  {
    var digests := Seqs.UniqBy(held + arrived, Seqs.Identity);
    assert forall d :: d in digests <==> d in held || d in arrived by {
      forall d
        ensures d in digests <==> d in held || d in arrived
      {
        if d in held + arrived {
          var i :| 0 <= i < |held + arrived| && (held + arrived)[i] == d;
          assert Seqs.Identity(d) in Seqs.Keys(digests, Seqs.Identity);
        }
      }
    }
    assert Seqs.KeyDistinct(held, Seqs.Identity) ==> |held| <= |digests| && digests[..|held|] == held by {
      if Seqs.KeyDistinct(held, Seqs.Identity) {
        Seqs.UnionKeepsLeft(held, arrived, Seqs.Identity);
      }
    }
    digests
  }

  /** `refresh_progress` given what `native_progress` returned.  A `nil`
      reply leaves the session untouched; otherwise the snapshot is kept,
      issues and digests are merged, the error count grows by the batch
      size and a non-empty batch names the error log. */
  function Refresh<K(==)>(s: State, fetched: Option<Snapshot>, url: string, key: Issue -> K): (r: State)
    ensures fetched.None? ==> r == s
    ensures r.abort == s.abort
    ensures fetched.Some? ==> r.progress == fetched
    ensures fetched.Some? ==> r.issues == MergeIssues(s.issues, fetched.value.issues, key)
    ensures fetched.Some? ==> r.digests == MergeDigests(s.digests, Digests(fetched.value.issues))
    ensures r.errorCount == s.errorCount + if fetched.Some? then |fetched.value.errors| else 0
    ensures r.errorLog == if fetched.Some? && |fetched.value.errors| > 0 then Some(ErrorLogPath(url)) else s.errorLog
  {
    match fetched
    case None => s
    case Some(p) =>
      var errorLog := if |p.errors| > 0 then Some(ErrorLogPath(url)) else s.errorLog;
      State(MergeIssues(s.issues, p.issues, key), MergeDigests(s.digests, Digests(p.issues)),
            s.errorCount + |p.errors|, errorLog, fetched, s.abort)
  }

  /** A refresh keeps the session valid and only ever grows it. */
  lemma RefreshValid<K>(s: State, fetched: Option<Snapshot>, url: string, key: Issue -> K)
    requires Valid(s, key)
    ensures Valid(Refresh(s, fetched, url, key), key)
    ensures forall x | x in s.issues :: x in Refresh(s, fetched, url, key).issues
  {
    if fetched.Some? {
      var r := Refresh(s, fetched, url, key);
      forall x | x in r.issues
        ensures x.digest in r.digests
      {
        if x in fetched.value.issues {
          DigestOfMember(fetched.value.issues, x);
        }
      }
    }
  }

  /** An issue's digest is among the digests of any list holding it. */
  lemma DigestOfMember(issues: seq<Issue>, x: Issue)
    requires x in issues
    ensures x.digest in Digests(issues)
  {
    var i :| 0 <= i < |issues| && issues[i] == x;
    assert Digests(issues)[i] == x.digest;
  }

  /** The next request carries exactly the grown count and digest list: the
      offset advances by the batch size and the exclusion list gains the
      new digests, each once, and loses none. */
  lemma RequestAfterRefresh<K>(s: State, p: Snapshot, url: string, key: Issue -> K)
    requires Valid(s, key)
    ensures var q := ProgressRequest(Refresh(s, Some(p), url, key));
            && q.errorOffset == ProgressRequest(s).errorOffset + |p.errors|
            && q.withoutDigests[..|s.digests|] == ProgressRequest(s).withoutDigests
            && Seqs.KeyDistinct(q.withoutDigests, Seqs.Identity)
            && forall i | 0 <= i < |p.issues| :: p.issues[i].digest in q.withoutDigests
  {
    var r := Refresh(s, Some(p), url, key);
    forall i | 0 <= i < |p.issues|
      ensures p.issues[i].digest in r.digests
    {
      assert Digests(p.issues)[i] == p.issues[i].digest;
    }
  }

  /** Absorbing the same snapshot twice leaves the same issues (as a
      multiset: the tie order is not fixed by the source), the same digests
      and the same log name; only the error count advances again, because
      the source adds the batch size unconditionally. */
  lemma RefreshTwice<K>(s: State, p: Snapshot, url: string, key: Issue -> K)
    requires Valid(s, key)
    ensures var once := Refresh(s, Some(p), url, key);
            var twice := Refresh(once, Some(p), url, key);
            && multiset(twice.issues) == multiset(once.issues)
            && twice.digests == once.digests
            && twice.errorLog == once.errorLog
            && twice.errorCount == once.errorCount + |p.errors|
  {
    MergeIssuesAgain(s.issues, p.issues, key);
    MergeDigestsAgain(s.digests, Digests(p.issues));
  }

  lemma MergeIssuesAgain<K>(held: seq<Issue>, arrived: seq<Issue>, key: Issue -> K)
    ensures var once := MergeIssues(held, arrived, key);
            multiset(MergeIssues(once, arrived, key)) == multiset(once)
  {
    var once := MergeIssues(held, arrived, key);
    Seqs.UnionAbsorbed(once, arrived, key);
  }

  lemma MergeDigestsAgain(held: seq<Digest>, arrived: seq<Digest>)
    ensures var once := MergeDigests(held, arrived);
            MergeDigests(once, arrived) == once
  {
    var once := MergeDigests(held, arrived);
    forall i | 0 <= i < |arrived|
      ensures Seqs.Identity(arrived[i]) in Seqs.Keys(once, Seqs.Identity)
    {
      assert arrived[i] in once;
      var j :| 0 <= j < |once| && once[j] == arrived[i];
      assert Seqs.Keys(once, Seqs.Identity)[j] == arrived[i];
    }
    Seqs.UnionAbsorbed(once, arrived, Seqs.Identity);
  }

  // ---- absorbing a whole sequence of replies -------------------------

  /** Successive refreshes, oldest reply first. */
  function AbsorbAll<K(==)>(s: State, fetched: seq<Option<Snapshot>>, url: string, key: Issue -> K): State
  {
    if |fetched| == 0 then s
    else Refresh(AbsorbAll(s, fetched[..|fetched| - 1], url, key), fetched[|fetched| - 1], url, key)
  }

  function ErrorsIn(fetched: seq<Option<Snapshot>>): nat {
    if |fetched| == 0 then 0
    else
      var last := fetched[|fetched| - 1];
      ErrorsIn(fetched[..|fetched| - 1]) + if last.Some? then |last.value.errors| else 0
  }

  predicate DigestReported(fetched: seq<Option<Snapshot>>, d: Digest) {
    exists i | 0 <= i < |fetched| :: fetched[i].Some? && d in Digests(fetched[i].value.issues)
  }

  /** Over any run of replies the delta tracker stays exact: the error
      offset is the number of messages received, the exclusion list holds
      exactly the digests seen so far, every issue ever held is still
      held, and the session stays valid. */
  lemma {:induction false} AbsorbAllTracks<K>(s: State, fetched: seq<Option<Snapshot>>, url: string, key: Issue -> K)
    requires Valid(s, key)
    ensures var r := AbsorbAll(s, fetched, url, key);
            && Valid(r, key)
            && r.errorCount == s.errorCount + ErrorsIn(fetched)
            && (forall d :: d in r.digests <==> d in s.digests || DigestReported(fetched, d))
            && (forall x | x in s.issues :: x in r.issues)
            && r.abort == s.abort
  {
    if |fetched| > 0 {
      var init := fetched[..|fetched| - 1];
      var last := fetched[|fetched| - 1];
      assert fetched == init + [last];
      AbsorbAllTracks(s, init, url, key);
      var m := AbsorbAll(s, init, url, key);
      RefreshValid(m, last, url, key);
      forall d {
        ReportedSnoc(init, last, d);
      }
    }
  }

  /** A digest is reported by a longer run iff by the shorter run or by
      the added reply. */
  lemma ReportedSnoc(init: seq<Option<Snapshot>>, last: Option<Snapshot>, d: Digest)
    ensures DigestReported(init + [last], d) <==>
              DigestReported(init, d) || (last.Some? && d in Digests(last.value.issues))
  {
    var f := init + [last];
    if DigestReported(f, d) && !DigestReported(init, d) {
      var i :| 0 <= i < |f| && f[i].Some? && d in Digests(f[i].value.issues);
    }
    if DigestReported(init, d) {
      var i :| 0 <= i < |init| && init[i].Some? && d in Digests(init[i].value.issues);
      assert f[i] == init[i];
    }
    if last.Some? && d in Digests(last.value.issues) {
      assert f[|init|] == last;
    }
  }

  // ---- status ----------------------------------------------------------

  /** `status` read off a state: the local abort flag wins over whatever
      the remote side reported; otherwise the held snapshot's status.
      `None` when no snapshot is held: the source would fetch one first,
      which `StatusNow` models. */
  function Status(s: State): (st: Option<ScanStatus>)
    ensures s.abort ==> st == Some(Aborting)
    ensures !s.abort ==> st == if s.progress.Some? then Some(s.progress.value.status) else None
  {
    if s.abort then Some(Aborting)
    else if s.progress.None? then None
    else Some(s.progress.value.status)
  }

  /** `busy?` read off a state: not aborting (locally or remotely) and the
      held snapshot says busy; `None` when there is neither an abort nor a
      snapshot (see `BusyNow`). */
  function Busy(s: State): (b: Option<bool>)
    ensures s.abort ==> b == Some(false)
    ensures b.None? <==> !s.abort && s.progress.None?
    ensures b == Some(true) <==>
              !s.abort && s.progress.Some? && s.progress.value.busy && s.progress.value.status != Aborting
  {
    match Status(s)
    case None => None
    case Some(st) => Some(st != Aborting && s.progress.Some? && s.progress.value.busy)
  }

  /** `status` as the source computes it: the abort flag answers at once;
      otherwise `progress` is `@progress or refresh_progress`, so a session
      holding no snapshot fetches one (the reply is `fetched`) and keeps
      what it absorbed.  `None` is the `nil[:status]` crash of a `nil`
      reply. */
  function StatusNow<K(==)>(s: State, fetched: Option<Snapshot>, url: string, key: Issue -> K)
    : (r: (Option<ScanStatus>, State))
    ensures r.0 == Status(r.1)
    ensures s.abort || s.progress.Some? ==> r.1 == s
    ensures r.0.None? <==> !s.abort && s.progress.None? && fetched.None?
    ensures !s.abort && s.progress.None? && fetched.Some? ==> r.0 == Some(fetched.value.status)
  {
    if s.abort || s.progress.Some? then (Status(s), s)
    else
      var s1 := Refresh(s, fetched, url, key);
      (Status(s1), s1)
  }

  /** `busy?` as the source computes it: `aborting?` goes through `status`,
      which may fetch, and `progress[:busy]` then reads the snapshot held. */
  function BusyNow<K(==)>(s: State, fetched: Option<Snapshot>, url: string, key: Issue -> K)
    : (r: (Option<bool>, State))
    ensures r.0 == Busy(r.1)
    ensures r.1 == StatusNow(s, fetched, url, key).1
    ensures r.0.None? <==> !s.abort && s.progress.None? && fetched.None?
    ensures s.abort ==> r.0 == Some(false)
  {
    var (st, s1) := StatusNow(s, fetched, url, key);
    (Busy(s1), s1)
  }

  /** Once the abort flag is set no reply can bring the session back:
      status stays `:aborting` and `busy?` stays false. */
  lemma {:induction false} AbortIsFinal<K>(s: State, fetched: seq<Option<Snapshot>>, url: string, key: Issue -> K)
    requires s.abort
    ensures AbsorbAll(s, fetched, url, key).abort
    ensures Status(AbsorbAll(s, fetched, url, key)) == Some(Aborting)
    ensures Busy(AbsorbAll(s, fetched, url, key)) == Some(false)
  {
    if |fetched| > 0 {
      var init := fetched[..|fetched| - 1];
      AbortIsFinal(s, init, url, key);
      var m := AbsorbAll(s, init, url, key);
      assert m.abort;
      assert AbsorbAll(s, fetched, url, key) == Refresh(m, fetched[|fetched| - 1], url, key);
      assert AbsorbAll(s, fetched, url, key).abort;
    }
  }

  // ---- single-key commands -------------------------------------------

  /** The RPC calls a key can cause. */
  datatype Call = PauseCall | ResumeCall | SuspendCall | ReportCall

  /** What reading one line does: the call sent to the instance (if any),
      whether the local abort flag is raised, whether the screen is then
      refreshed and redrawn (a gated key leaves the reader thread through
      `return` before that), and how many readers the handler re-arms. */
  datatype Reaction = Reaction(call: Option<Call>, setsAbort: bool, refreshes: bool, readersArmed: nat)

  /** `get_user_command` as written, given the stripped line and `status`
      at the time it is read. */
  function HandleLine(line: string, st: ScanStatus): (re: Reaction)
    ensures re.call == Some(PauseCall) <==> line == "p" && st == Scanning
    ensures re.call == Some(SuspendCall) <==> line == "s" && st == Scanning
    ensures re.call == Some(ResumeCall) <==> line == "r" && st == Paused
    ensures re.call == Some(ReportCall) <==> line == "g"
    ensures re.setsAbort <==> line == "a"
    ensures !re.refreshes <==>
              (line == "p" && st != Scanning) || (line == "s" && st != Scanning) || (line == "r" && st != Paused)
    ensures re.readersArmed == if line == "" then 2 else 1
  {
    if line == "a" then Reaction(None, true, true, 1)
    else if line == "p" then
      (if st == Scanning then Reaction(Some(PauseCall), false, true, 1) else Reaction(None, false, false, 1))
    else if line == "r" then
      (if st == Paused then Reaction(Some(ResumeCall), false, true, 1) else Reaction(None, false, false, 1))
    else if line == "s" then
      (if st == Scanning then Reaction(Some(SuspendCall), false, true, 1) else Reaction(None, false, false, 1))
    else if line == "g" then Reaction(Some(ReportCall), false, true, 1)
    else if line == "" then Reaction(None, false, true, 2)
    else Reaction(None, false, true, 1)
  }

  /** The local effect of a reaction on the session. */
  function React(s: State, re: Reaction): (r: State)
    ensures r.abort == (s.abort || re.setsAbort)
    ensures r.issues == s.issues && r.digests == s.digests && r.progress == s.progress
    ensures r.errorCount == s.errorCount && r.errorLog == s.errorLog
  {
    if re.setsAbort then s.(abort := true) else s
  }

  /** `a` sends nothing to the instance, yet from then on the session reports
      `:aborting` and is no longer busy. */
  lemma AbortKeyIsLocal(s: State, st: ScanStatus)
    ensures HandleLine("a", st).call.None?
    ensures Status(React(s, HandleLine("a", st))) == Some(Aborting)
    ensures Busy(React(s, HandleLine("a", st))) == Some(false)
  {
  }

  // ---- the "Hit:" menu ----------------------------------------------

  /** The keys of the "Hit:" menu, in display order. */
  datatype MenuKey = EnterKey | PauseKey | ResumeKey | AbortKey | SuspendKey | ReportKey

  /** The line the user types for each key (Enter is the empty line). */
  function KeyText(k: MenuKey): string {
    match k
    case EnterKey => ""
    case PauseKey => "p"
    case ResumeKey => "r"
    case AbortKey => "a"
    case SuspendKey => "s"
    case ReportKey => "g"
  }

  /** How the menu names each key. */
  function KeyLabel(k: MenuKey): string {
    if k == EnterKey then "Enter" else KeyText(k)
  }

  function Action(k: MenuKey): string {
    match k
    case EnterKey => "force refresh"
    case PauseKey => "pause the scan"
    case ResumeKey => "resume the scan"
    case AbortKey => "abort the scan"
    case SuspendKey => "suspend the scan to disk"
    case ReportKey => "generate a report"
  }

  /** Whether `print_progress` lists key `k` for status `st`. */
  predicate Offered(k: MenuKey, st: ScanStatus) {
    && !((k == EnterKey || k == SuspendKey || k == PauseKey) && st != Scanning)
    && !(k == ResumeKey && !(st == Paused || st == Pausing))
  }

  /** The keys `print_progress` lists under "Hit:", in display order; the
      whole menu is skipped while suspending or aborting. */
  function MenuKeys(st: ScanStatus): (keys: seq<MenuKey>)
    ensures st == Suspending || st == Aborting ==> keys == []
    ensures st != Suspending && st != Aborting ==> AbortKey in keys && ReportKey in keys
    ensures EnterKey in keys <==> st == Scanning
    ensures PauseKey in keys <==> st == Scanning
    ensures SuspendKey in keys <==> st == Scanning
    ensures ResumeKey in keys <==> st == Paused || st == Pausing
  {
    if st == Suspending || st == Aborting then []
    else
      (if st == Scanning then [EnterKey, PauseKey] else [])
      + (if st == Paused || st == Pausing then [ResumeKey] else [])
      + [AbortKey]
      + (if st == Scanning then [SuspendKey] else [])
      + [ReportKey]
  }

  /** The menu lists exactly the keys the per-entry rules admit. */
  lemma MenuKeysAreOffered(st: ScanStatus, k: MenuKey)
    ensures k in MenuKeys(st) <==> st != Suspending && st != Aborting && Offered(k, st)
  {
  }

  /** The menu's text lines, one per offered key. */
  function MenuLines(st: ScanStatus): (lines: seq<string>)
    ensures |lines| == |MenuKeys(st)|
    ensures forall i | 0 <= i < |lines| ::
              lines[i] == "  '" + KeyLabel(MenuKeys(st)[i]) + "' to " + Action(MenuKeys(st)[i]) + "."
  {
    var keys := MenuKeys(st);
    seq(|keys|, i requires 0 <= i < |keys| => "  '" + KeyLabel(keys[i]) + "' to " + Action(keys[i]) + ".")
  }

  /** The menu offers 'r' while pausing, but the handler only resumes a
      paused scan: the offered key does nothing at all. */
  lemma ResumeOfferedButIgnored()
    ensures ResumeKey in MenuKeys(Pausing)
    ensures HandleLine("r", Pausing).call.None?
    ensures !HandleLine("r", Pausing).refreshes
  {
  }

  /** The handler with the gate the menu advertises: 'r' resumes a paused
      or pausing scan. */
  function HandleLineCorrected(line: string, st: ScanStatus): (re: Reaction)
    ensures re.call == Some(ResumeCall) <==> line == "r" && (st == Paused || st == Pausing)
    ensures line != "r" ==> re == HandleLine(line, st)
  {
    if line == "r" then
      (if st == Paused || st == Pausing then Reaction(Some(ResumeCall), false, true, 1)
       else Reaction(None, false, false, 1))
    else HandleLine(line, st)
  }

  /** With the corrected gate every command key the menu offers reaches the
      instance (or, for 'a', the local flag). */
  lemma OfferedKeysAreHonoured(st: ScanStatus, k: MenuKey)
    requires k in MenuKeys(st) && k != EnterKey
    ensures HandleLineCorrected(KeyText(k), st).call.Some? || HandleLineCorrected(KeyText(k), st).setsAbort
  {
  }

  // ---- the `run` loop --------------------------------------------------

  /** How the polling loop of `run` ends.  `Unfinished` means the given
      replies ran out while the scan was still busy. */
  datatype Exit = Finished | TimedOut | Detached | Crashed | Unfinished

  datatype RunResult = RunResult(
    scanStarted: bool,
    exit: Exit,
    state: State,
    iterations: nat,
    reportAndShutdown: bool,
    timeoutMessage: bool)

  /** `while busy?`: `busy?` reads `progress`, which fetches a snapshot first
      when none is held; a `nil` first reply makes `progress[:busy]` raise. */
  function PollLoop<K(==)>(s: State, feed: seq<Option<Snapshot>>, url: string, key: Issue -> K,
                           k: nat, deadline: Option<nat>, interruptAt: Option<nat>): (res: (Exit, State, nat))
    ensures res.2 >= k
    ensures res.1.abort == s.abort
    ensures res.0 == Finished ==> Busy(res.1) == Some(false)
    ensures res.0 == TimedOut ==> deadline.Some? && res.2 >= deadline.value
    ensures res.0 == Detached ==> interruptAt == Some(res.2)
    ensures res.0 == Crashed ==> res.2 == k && s.progress.None?
    ensures s.abort ==> res == (Finished, s, k)
    ensures Valid(s, key) ==> Valid(res.1, key) && forall x | x in s.issues :: x in res.1.issues
    ensures res.1.errorCount >= s.errorCount
    decreases |feed|, 1
  {
    if !s.abort && s.progress.None? then
      if |feed| == 0 then (Unfinished, s, k)
      else
        var s1 := Refresh(s, feed[0], url, key);
        if s1.progress.None? then (Crashed, s1, k)
        else
          assert Valid(s, key) ==> Valid(s1, key) by {
            if Valid(s, key) { RefreshValid(s, feed[0], url, key); }
          }
          PollStep(s1, feed[1..], url, key, k, deadline, interruptAt)
    else PollStep(s, feed, url, key, k, deadline, interruptAt)
  }

  /** One pass of the loop body once a snapshot is held: stop when not
      busy, break on the deadline, detach on Ctrl+C, else draw, sleep and
      refresh. */
  function PollStep<K(==)>(s: State, feed: seq<Option<Snapshot>>, url: string, key: Issue -> K,
                           k: nat, deadline: Option<nat>, interruptAt: Option<nat>): (res: (Exit, State, nat))
    requires s.abort || s.progress.Some?
    ensures res.2 >= k
    ensures res.1.abort == s.abort
    ensures res.0 == Finished ==> Busy(res.1) == Some(false)
    ensures res.0 == TimedOut ==> deadline.Some? && res.2 >= deadline.value
    ensures res.0 == Detached ==> interruptAt == Some(res.2)
    ensures res.0 != Crashed
    ensures s.abort ==> res == (Finished, s, k)
    ensures Valid(s, key) ==> Valid(res.1, key) && forall x | x in s.issues :: x in res.1.issues
    ensures res.1.errorCount >= s.errorCount
    decreases |feed|, 0
  {
    if Busy(s) == Some(false) then (Finished, s, k)
    else if deadline.Some? && k >= deadline.value then (TimedOut, s, k)
    else if interruptAt == Some(k) then (Detached, s, k)
    else if |feed| == 0 then (Unfinished, s, k)
    else
      var s1 := Refresh(s, feed[0], url, key);
      assert Valid(s, key) ==> Valid(s1, key) by {
        if Valid(s, key) { RefreshValid(s, feed[0], url, key); }
      }
      PollLoop(s1, feed[1..], url, key, k + 1, deadline, interruptAt)
  }

  /** `run`: start the scan only when the instance is `:ready` (re-attaching
      must not start it again), poll, and then report and shut down —
      except on Ctrl+C, which detaches and leaves the instance running.
      `deadline` is the first iteration at which the clock has passed the
      timeout, if a timeout was given. */
  function Run<K(==)>(s: State, remote: ScanStatus, feed: seq<Option<Snapshot>>, url: string,
                      key: Issue -> K, deadline: Option<nat>, interruptAt: Option<nat>): (r: RunResult)
    ensures r.scanStarted <==> remote == Ready
    ensures r.reportAndShutdown <==> r.exit in {Finished, TimedOut, Crashed}
    ensures r.exit == Detached ==> !r.reportAndShutdown && interruptAt == Some(r.iterations)
    ensures r.timeoutMessage <==> r.exit == TimedOut
    ensures r.exit == TimedOut ==> deadline.Some?
    ensures r.exit == Finished ==> Busy(r.state) == Some(false)
    ensures s.abort ==> r.exit == Finished && r.iterations == 0 && r.state == s
    ensures Valid(s, key) ==> Valid(r.state, key) && forall x | x in s.issues :: x in r.state.issues
  {
    var res := PollLoop(s, feed, url, key, 0, deadline, interruptAt);
    var e := res.0;
    RunResult(remote == Ready, e, res.1, res.2,
              e == Finished || e == TimedOut || e == Crashed, e == TimedOut)
  }
}
