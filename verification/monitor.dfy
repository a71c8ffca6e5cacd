/** The formatting helpers of the agent and dispatcher monitors
    (`RPC::Client::AgentMonitor`, `RPC::Client::DispatcherMonitor`).  Both
    classes carry identical copies of `seconds_to_hms`, `proc_mem`,
    `proc_state` and the instance table; they differ only in the labels of
    their peer lists.  The refresh loop, the RPC statistics call and the
    table renderer are not modelled. */
module Monitor {
  import opened Wrappers
  import Output
  import Strings

  // ---- seconds_to_hms --------------------------------------------------

  /** The three numbers `seconds_to_hms` prints: hours (uncapped), minutes
      and seconds, under Ruby's flooring `/` and `%`. */
  function Hms(secs: int): (f: (int, int, int))
    ensures secs >= 0 ==> f.0 >= 0 && 0 <= f.1 < 60 && 0 <= f.2 < 60
    ensures secs >= 0 ==> f.0 * 3600 + f.1 * 60 + f.2 == secs
    ensures f.0 * 3600 <= secs < f.0 * 3600 + 3600
  {
    (secs / 3600, secs / 60 % 60, secs % 60)
  }

  /** One field: the number left-padded with '0' to two characters. */
  function Pad2(n: int): (s: string)
    ensures |s| >= 2
    ensures n >= 0 ==> Strings.AllDigits(s) && Strings.ParseNat(s) == n
  {
    var s := Strings.RJust(Strings.IntToString(n), 2, '0');
    assert n >= 0 ==> Strings.AllDigits(s) && Strings.ParseNat(s) == n by {
      if n >= 0 {
        Strings.ParseNatToString(n);
        Strings.ParseNatRJust(Strings.NatToString(n), 2);
      }
    }
    s
  }

  /** `seconds_to_hms`: "HH:MM:SS" with each field at least two wide. The
      argument is taken as already truncated by `to_i`. */
  function SecondsToHms(secs: int): (t: string)
    ensures |t| >= 8
  {
    var f := Hms(secs);
    var parts := [Pad2(f.0), Pad2(f.1), Pad2(f.2)];
    Join3(parts[0], parts[1], parts[2]);
    Strings.Join(parts, ":")
  }

  /** For a non-negative duration the ':'-separated fields are the three
      padded numbers. */
  lemma HmsFields(secs: nat)
    ensures Strings.Fields(SecondsToHms(secs), ':') == [Pad2(Hms(secs).0), Pad2(Hms(secs).1), Pad2(Hms(secs).2)]
  {
    var f := Hms(secs);
    Fields3(Pad2(f.0), Pad2(f.1), Pad2(f.2));
  }

  lemma Fields3(a: string, b: string, c: string)
    requires Strings.AllDigits(a) && Strings.AllDigits(b) && Strings.AllDigits(c)
    ensures Strings.Fields(Strings.Join([a, b, c], ":"), ':') == [a, b, c]
  {
    var parts := [a, b, c];
    assert forall i | 0 <= i < 3 :: Strings.AllDigits(parts[i]);
    FieldsOfDigits(parts);
  }

  lemma Join3(a: string, b: string, c: string)
    ensures Strings.Join([a, b, c], ":") == a + ":" + b + ":" + c
  {
    assert [a, b, c][1..] == [b, c];
    assert [b, c][1..] == [c];
    assert Strings.Join([c], ":") == c;
    assert Strings.Join([b, c], ":") == b + ":" + c;
    assert Strings.Join([a, b, c], ":") == a + ":" + (b + ":" + c);
  }

  /** Minutes and seconds are always exactly two characters wide. */
  lemma MinutesSecondsWidth(secs: nat)
    ensures var f := Strings.Fields(SecondsToHms(secs), ':');
            |f| == 3 && |f[0]| >= 2 && |f[1]| == 2 && |f[2]| == 2
  {
    HmsFields(secs);
    var h := Hms(secs);
    var parts := Strings.Fields(SecondsToHms(secs), ':');
    assert parts == [Pad2(h.0), Pad2(h.1), Pad2(h.2)];
    TwoDigits(h.1);
    TwoDigits(h.2);
  }

  lemma TwoDigits(n: nat)
    requires n < 100
    ensures |Pad2(n)| == 2
  {
    if n >= 10 {
      assert Strings.NatToString(n) == Strings.NatToString(n / 10) + [Strings.DigitChar(n % 10)];
    }
  }

  lemma FieldsOfDigits(parts: seq<string>)
    requires |parts| >= 1
    requires forall i | 0 <= i < |parts| :: Strings.AllDigits(parts[i])
    ensures Strings.Fields(Strings.Join(parts, ":"), ':') == parts
  {
    assert forall i | 0 <= i < |parts| :: ':' !in parts[i];
    assert ":" == [':'];
    Strings.FieldsJoin(parts, ':');
  }

  /** The seconds a list of "H", "M", "S" digit fields stands for; `None`
      unless there are exactly three all-digit fields. */
  function HmsValue(fields: seq<string>): (r: Option<nat>)
    ensures r.Some? ==> |fields| == 3
  {
    if |fields| == 3 && Strings.AllDigits(fields[0]) && Strings.AllDigits(fields[1]) && Strings.AllDigits(fields[2])
    then Some(Seconds(Strings.ParseNat(fields[0]), Strings.ParseNat(fields[1]), Strings.ParseNat(fields[2])))
    else None
  }

  /** The seconds in `h` hours, `m` minutes and `s` seconds. */
  function Seconds(h: nat, m: nat, s: nat): nat {
    h * 3600 + m * 60 + s
  }

  /** For a non-negative duration the display loses nothing: splitting it
      at ':' and reading the fields back gives the number of seconds. */
  lemma HmsRoundTrip(secs: nat)
    ensures HmsValue(Strings.Fields(SecondsToHms(secs), ':')) == Some(secs)
  {
    HmsFields(secs);
    var f := Hms(secs);
    assert Seconds(f.0, f.1, f.2) == secs;
    PadsValue(f.0, f.1, f.2);
  }

  lemma PadsValue(h: nat, m: nat, s: nat)
    ensures HmsValue([Pad2(h), Pad2(m), Pad2(s)]) == Some(Seconds(h, m, s))
  {
  }

  /** Hours are not capped: from 100 hours on the first field is wider
      than two characters. */
  lemma HoursUncapped(secs: nat)
    requires secs >= 100 * 3600
    ensures |Strings.Fields(SecondsToHms(secs), ':')[0]| > 2
  {
    HmsFields(secs);
    var h := Hms(secs).0;
    assert Strings.Fields(SecondsToHms(secs), ':')[0] == Pad2(h);
    WidePad(h);
  }

  /** A number of three or more digits is not padded. */
  lemma WidePad(n: nat)
    requires n >= 100
    ensures |Pad2(n)| >= 3
  {
    var q := n / 10;
    assert q >= 10;
    assert Strings.NatToString(n) == Strings.NatToString(q) + [Strings.DigitChar(n % 10)];
    assert |Strings.IntToString(n)| >= 3;
  }

  // ---- proc_mem / proc_state ------------------------------------------

  /** `proc_mem`: a resident-set size in 4096-byte pages, shown as whole
      mebibytes followed by "MB". */
  function ProcMem(rss: int): (r: string)
    ensures Strings.EndsWith(r, "MB")
    ensures r[..|r| - 2] == Strings.IntToString(rss / 256)
  {
    var mb := rss * 4096 / 1024 / 1024;
    assert mb == rss / 256 by {
      assert rss * 4096 / 1024 == rss * 4;
    }
    var r := Strings.IntToString(mb) + "MB";
    assert r[..|r| - 2] == Strings.IntToString(mb);
    r
  }

  /** The number shown is the size rounded down to whole mebibytes. */
  lemma ProcMemBounds(rss: nat)
    ensures var r := ProcMem(rss);
            var shown := r[..|r| - 2];
            && Strings.AllDigits(shown)
            && Strings.ParseNat(shown) * 1048576 <= rss * 4096 < (Strings.ParseNat(shown) + 1) * 1048576
  {
    Strings.ParseNatToString(rss / 256);
  }

  /** `proc_state`: the label of a process state letter, `nil` for any
      other string. */
  function ProcState(state: string): (name: Option<string>)
    ensures name.Some? <==> state in {"S", "D", "Z", "T", "W"}
  {
    if state == "S" then Some("Sleeping")
    else if state == "D" then Some("Disk Sleep")
    else if state == "Z" then Some("Zombie")
    else if state == "T" then Some("Traced/Stoped")
    else if state == "W" then Some("Paging")
    else None
  }

  /** Different letters get different labels. */
  lemma ProcStateDistinct(a: string, b: string)
    requires ProcState(a).Some? && ProcState(b).Some? && a != b
    ensures ProcState(a) != ProcState(b)
  {
  }

  // ---- the instance table and the statistics block ------------------------

  /** One running instance as the statistics report it. */
  datatype Instance = Instance(pid: int, url: string, token: string, owner: string,
                               birthdate: string, now: string, age: int)

  /** The rows of `print_instance_table`; `None` when there is no instance
      and nothing is printed. */
  function InstanceRows(instances: seq<Instance>): (rows: Option<seq<seq<string>>>)
    ensures rows.None? <==> |instances| == 0
    ensures rows.Some? ==> |rows.value| == |instances|
    ensures rows.Some? ==> forall i | 0 <= i < |instances| ::
              && |rows.value[i]| == 6
              && rows.value[i][1] == Address(instances[i])
              && rows.value[i][5] == SecondsToHms(instances[i].age)
  {
    if |instances| == 0 then None
    else
      Some(seq(|instances|, i requires 0 <= i < |instances| => Row(instances[i])))
  }

  /** One row: PID, URL/token, owner, birth date, start time, age. */
  function Row(x: Instance): (row: seq<string>)
    ensures |row| == 6 && row[1] == Address(x) && row[5] == SecondsToHms(x.age)
  {
    [Strings.IntToString(x.pid)] + [Address(x), x.owner, x.birthdate, x.now, SecondsToHms(x.age)]
  }

  /** The instance's "URL/token" column. */
  function Address(x: Instance): string {
    x.url + "/" + x.token
  }

  /** A titled list of peers, printed only when the list is non-empty. */
  function PeerSection(title: string, peers: seq<string>): (ms: seq<Output.Message>)
    ensures |peers| == 0 <==> |ms| == 0
    ensures |peers| > 0 ==> |ms| == |peers| + 1 && ms[0] == Output.Message(Output.Info, title)
    ensures |peers| > 0 ==> forall i | 0 <= i < |peers| :: ms[i + 1] == Output.Message(Output.Info, "* " + peers[i])
  {
    if |peers| == 0 then []
    else [Output.Message(Output.Info, title)]
         + seq(|peers|, i requires 0 <= i < |peers| => Output.Message(Output.Info, "* " + peers[i]))
  }

  /** `print_stats` after the utilisation line: instance counts, a blank
      line, then the two peer lists under the given titles. */
  function Stats(running: nat, finished: nat, peersTitle: string, peers: seq<string>,
                 unreachableTitle: string, unreachable: seq<string>): (ms: seq<Output.Message>)
    ensures |ms| == 3 + |PeerSection(peersTitle, peers)| + |PeerSection(unreachableTitle, unreachable)|
    ensures ms[0].text == "Running instances:  " + Strings.NatToString(running)
    ensures ms[1].text == "Finished instances: " + Strings.NatToString(finished)
    ensures ms[2] == Output.Message(Output.Plain, "")
    ensures |peers| > 0 ==> ms[3].text == peersTitle
    ensures |peers| == 0 && |unreachable| > 0 ==> ms[3].text == unreachableTitle
    ensures |peers| == 0 && |unreachable| == 0 ==> |ms| == 3
  {
    Counts(running, finished) + PeerSection(peersTitle, peers) + PeerSection(unreachableTitle, unreachable)
  }

  /** The two instance counts and the blank line after them. */
  function Counts(running: nat, finished: nat): (ms: seq<Output.Message>)
    ensures |ms| == 3
    ensures |ms[0].text| > 0 && ms[0].text[0] == 'R' && |ms[1].text| > 0 && ms[1].text[0] == 'F' && ms[2].text == ""
  {
    [Output.Message(Output.Info, "Running instances:  " + Strings.NatToString(running)),
     Output.Message(Output.Info, "Finished instances: " + Strings.NatToString(finished)),
     Output.Message(Output.Plain, "")]
  }

  /** The agent monitor titles its lists "Neighbours:" and "Unreachable
      peers:". */
  function AgentStats(running: nat, finished: nat, peers: seq<string>, unreachable: seq<string>): (ms: seq<Output.Message>)
    ensures ms == Stats(running, finished, "Neighbours:", peers, "Unreachable peers:", unreachable)
  {
    Stats(running, finished, "Neighbours:", peers, "Unreachable peers:", unreachable)
  }

  /** The dispatcher monitor titles them "Neighbours:" and "Unreachable
      neighbours:". */
  function DispatcherStats(running: nat, finished: nat, neighbours: seq<string>, unreachable: seq<string>): (ms: seq<Output.Message>)
    ensures ms == Stats(running, finished, "Neighbours:", neighbours, "Unreachable neighbours:", unreachable)
  {
    Stats(running, finished, "Neighbours:", neighbours, "Unreachable neighbours:", unreachable)
  }

  /** A peer list is shown iff it is non-empty, and then every peer is
      listed in order. */
  lemma SectionsGated(running: nat, finished: nat, peers: seq<string>, unreachable: seq<string>)
    ensures var ms := AgentStats(running, finished, peers, unreachable);
            && (Output.Message(Output.Info, "Neighbours:") in ms <==> |peers| > 0)
            && (Output.Message(Output.Info, "Unreachable peers:") in ms <==> |unreachable| > 0)
  {
    var n := Output.Message(Output.Info, "Neighbours:");
    var u := Output.Message(Output.Info, "Unreachable peers:");
    InStats(n, running, finished, "Neighbours:", peers, "Unreachable peers:", unreachable);
    InStats(u, running, finished, "Neighbours:", peers, "Unreachable peers:", unreachable);
    TitleNotIn("Unreachable peers:", unreachable, n);
    TitleNotIn("Neighbours:", peers, u);
  }

  /** A message other than the three opening lines is in the statistics
      block iff it is in one of the peer sections. */
  lemma InStats(m: Output.Message, running: nat, finished: nat, peersTitle: string, peers: seq<string>,
                unreachableTitle: string, unreachable: seq<string>)
    requires |m.text| > 0 && m.text[0] != 'R' && m.text[0] != 'F'
    ensures m in Stats(running, finished, peersTitle, peers, unreachableTitle, unreachable) <==>
            m in PeerSection(peersTitle, peers) || m in PeerSection(unreachableTitle, unreachable)
  {
    var h := Counts(running, finished);
    assert m !in h;
    InConcat(m, h, PeerSection(peersTitle, peers), PeerSection(unreachableTitle, unreachable));
  }

  lemma InConcat<T>(m: T, x: seq<T>, y: seq<T>, z: seq<T>)
    requires m !in x
    ensures m in x + y + z <==> m in y || m in z
  {
  }

  /** A message that is neither the title nor a "* " line is not in a
      peer section. */
  lemma TitleNotIn(title: string, peers: seq<string>, m: Output.Message)
    requires m.text != title && |m.text| > 0 && m.text[0] != '*'
    ensures m !in PeerSection(title, peers)
  {
    var ps := PeerSection(title, peers);
    forall i | 0 <= i < |ps|
      ensures ps[i] != m
    {
      if i > 0 { assert ps[i].text[0] == '*'; }
    }
  }
}
