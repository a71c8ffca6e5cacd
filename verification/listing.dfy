/** The scan listings of the scheduler and the queue clients
    (`RPC::Client::Scheduler::List`, `RPC::Client::Queue::List`): which
    sections are printed, in what order, and the text of every line.  The
    two classes differ only in how entries are marked: the scheduler
    numbers them from 1, the queue bullets (queued ids) or leaves them bare.
    The RPC calls that fetch the lists are inputs. */
module Listing {
  import Output
  import Strings

  // ---- which sections ---------------------------------------------------

  datatype Section = Queued | Running | Completed | Failed

  /** The four sections in print order. */
  const Order: seq<Section> := [Queued, Running, Completed, Failed]

  /** The status switches of the list option parser. */
  datatype ListFlags = ListFlags(queued: bool, running: bool, completed: bool, failed: bool)

  const NoFlags := ListFlags(false, false, false, false)

  function Flag(f: ListFlags, s: Section): bool {
    match s
    case Queued => f.queued
    case Running => f.running
    case Completed => f.completed
    case Failed => f.failed
  }

  /** `--queued`, `--running`, `--completed`, `--failed`: each sets its own
      switch and nothing else. */
  function Select(f: ListFlags, s: Section): (r: ListFlags)
    ensures Flag(r, s)
    ensures forall t | t != s :: Flag(r, t) == Flag(f, t)
  {
    match s
    case Queued => f.(queued := true)
    case Running => f.(running := true)
    case Completed => f.(completed := true)
    case Failed => f.(failed := true)
  }

  /** The switches after parsing the given status options, in any order. */
  function SelectAll(f: ListFlags, given: seq<Section>): (r: ListFlags)
    ensures forall s :: Flag(r, s) <==> Flag(f, s) || s in given
    decreases |given|
  {
    if |given| == 0 then f else SelectAll(Select(f, given[0]), given[1..])
  }

  /** `list_all?`: no status switch is set. */
  predicate ListAll(f: ListFlags) {
    !f.queued && !f.running && !f.completed && !f.failed
  }

  /** `list_all?` holds exactly when no status option was given. */
  lemma ListAllIffNoneGiven(given: seq<Section>)
    ensures ListAll(SelectAll(NoFlags, given)) <==> |given| == 0
  {
    if |given| > 0 {
      assert Flag(SelectAll(NoFlags, given), given[0]);
    }
  }

  /** A section is printed iff its switch is set or none is. */
  predicate Shown(f: ListFlags, s: Section) {
    Flag(f, s) || ListAll(f)
  }

  /** The printed sections, in print order. */
  function ShownSections(f: ListFlags): (ss: seq<Section>)
    ensures |ss| >= 1
    ensures forall i | 0 <= i < |ss| - 1 :: IndexOf(ss[i]) < IndexOf(ss[i + 1])
  {
    (if Shown(f, Queued) then [Queued] else [])
    + (if Shown(f, Running) then [Running] else [])
    + (if Shown(f, Completed) then [Completed] else [])
    + (if Shown(f, Failed) then [Failed] else [])
  }

  /** Exactly the sections whose switch is set are printed, or all four
      when none is set. */
  lemma ShownSectionsMembers(f: ListFlags)
    ensures forall s :: s in ShownSections(f) <==> Flag(f, s) || ListAll(f)
  {
    var q: seq<Section> := if Shown(f, Queued) then [Queued] else [];
    var r: seq<Section> := if Shown(f, Running) then [Running] else [];
    var c: seq<Section> := if Shown(f, Completed) then [Completed] else [];
    var x: seq<Section> := if Shown(f, Failed) then [Failed] else [];
    assert ShownSections(f) == q + r + c + x;
    forall s ensures s in ShownSections(f) <==> Shown(f, s) {
      match s
      case Queued => assert s !in r + c + x;
      case Running => assert s !in q + c + x;
      case Completed => assert s !in q + r + x;
      case Failed => assert s !in q + r + c;
    }
  }

  function IndexOf(s: Section): (i: nat)
    ensures i < |Order| && Order[i] == s
  {
    match s
    case Queued => 0
    case Running => 1
    case Completed => 2
    case Failed => 3
  }

  // ---- the data and the lines -------------------------------------------

  datatype RunningScan = RunningScan(id: string, url: string, token: string)
  datatype CompletedScan = CompletedScan(id: string, report: string)
  datatype FailedScan = FailedScan(id: string, error: string, description: string)

  /** What the four RPC calls return; queued ids come grouped by priority,
      in the order the server sends them. */
  datatype Lists = Lists(
    queued: seq<(string, seq<string>)>,
    running: seq<RunningScan>,
    completed: seq<CompletedScan>,
    failed: seq<FailedScan>)

  /** The scheduler numbers entries; the queue does not. */
  datatype Style = Numbered | Unnumbered

  /** `q.values.flatten`. */
  function Flatten(q: seq<(string, seq<string>)>): (ids: seq<string>)
  {
    if |q| == 0 then [] else q[0].1 + Flatten(q[1..])
  }

  /** The sum of the per-priority counts. */
  function SumSizes(q: seq<(string, seq<string>)>): nat {
    if |q| == 0 then 0 else |q[0].1| + SumSizes(q[1..])
  }

  /** The "Queued [n]" total agrees with the "[k]" of every priority block. */
  lemma {:induction false} QueuedTotal(q: seq<(string, seq<string>)>)
    ensures |Flatten(q)| == SumSizes(q)
  {
    if |q| > 0 {
      QueuedTotal(q[1..]);
    }
  }

  /** An entry's text, with the 1-based counter in front for `Numbered`. */
  function Entry(style: Style, i: nat, text: string): (line: string)
    ensures style == Unnumbered ==> line == text
    ensures style == Numbered ==>
              && |line| == 3 + |Strings.NatToString(i + 1)| + |text|
              && line[0] == '['
              && line[1..1 + |Strings.NatToString(i + 1)|] == Strings.NatToString(i + 1)
              && line[|line| - |text|..] == text
  {
    match style
    case Unnumbered => text
    case Numbered =>
      var n := Strings.NatToString(i + 1);
      var line := "[" + n + "] " + text;
      assert line[1..1 + |n|] == n;
      assert line[|line| - |text|..] == text;
      line
  }

  /** The counter of the `i`-th numbered entry reads back as `i + 1`. */
  lemma EntryCounter(i: nat, text: string)
    ensures var line := Entry(Numbered, i, text);
            Strings.ParseNat(line[1..1 + |Strings.NatToString(i + 1)|]) == i + 1
  {
    Strings.ParseNatToString(i + 1);
  }

  /** The entries of one priority: bulleted "* id" without numbers for the
      queue, "[i] id" for the scheduler. */
  function IdLines(style: Style, ids: seq<string>): (ls: seq<string>)
    ensures |ls| == |ids|
    ensures forall i | 0 <= i < |ids| ::
              ls[i] == if style == Numbered then Entry(Numbered, i, ids[i]) else "* " + ids[i]
  {
    seq(|ids|, i requires 0 <= i < |ids| =>
      if style == Numbered then Entry(Numbered, i, ids[i]) else "* " + ids[i])
  }

  /** The title of one priority block: "Priority: p [k]" with `k` the
      number of ids queued at that priority. */
  function PriorityTitle(p: string, k: nat): (t: string)
    ensures |t| == 13 + |p| + |Strings.NatToString(k)|
    ensures t[..10] == "Priority: " && t[10..10 + |p|] == p && t[10 + |p|..12 + |p|] == " ["
    ensures t[12 + |p|..|t| - 1] == Strings.NatToString(k) && t[|t| - 1] == ']'
  {
    var n := Strings.NatToString(k);
    var t := "Priority: " + p + " [" + n + "]";
    assert t[10..10 + |p|] == p;
    assert t[12 + |p|..|t| - 1] == n;
    t
  }

  /** The bracketed count of a priority title reads back as `k`. */
  lemma PriorityCount(p: string, k: nat)
    ensures var t := PriorityTitle(p, k);
            Strings.ParseNat(t[12 + |p|..|t| - 1]) == k
  {
    Strings.ParseNatToString(k);
  }

  /** One priority block: its title, a blank, its id lines and a blank. */
  function PriorityBlock(style: Style, p: string, ids: seq<string>): (b: seq<string>)
    ensures |b| == 3 + |ids|
    ensures b[0] == PriorityTitle(p, |ids|) && b[1] == "" && b[2 + |ids|] == ""
    ensures b[2..2 + |ids|] == IdLines(style, ids)
  {
    var b := [PriorityTitle(p, |ids|), ""] + IdLines(style, ids) + [""];
    assert b[2..2 + |ids|] == IdLines(style, ids);
    b
  }

  /** The body of the queued section: the priority blocks in order. */
  function PriorityLines(style: Style, q: seq<(string, seq<string>)>): (ls: seq<string>)
    ensures |ls| == 3 * |q| + SumSizes(q)
    decreases |q|
  {
    if |q| == 0 then []
    else PriorityBlock(style, q[0].0, q[0].1) + PriorityLines(style, q[1..])
  }

  /** Where the `i`-th priority block sits: after the blocks of every
      earlier priority, that is three framing lines per priority plus their
      ids. */
  lemma PriorityBlockAt(style: Style, q: seq<(string, seq<string>)>, i: nat)
    requires i < |q|
    ensures Occurs(PriorityLines(style, q), PriorityOffset(q, i), PriorityBlock(style, q[i].0, q[i].1))
  {
    var f := BlockOf(style);
    var blk := PriorityBlock(style, q[i].0, q[i].1);
    assert f(q[i]) == blk;
    PriorityLinesConcat(style, q);
    PriorityLinesConcat(style, q[..i]);
    assert |ConcatMap(f, q[..i])| == |PriorityLines(style, q[..i])| == PriorityOffset(q, i);
    ConcatMapAt(f, q, i, PriorityLines(style, q), blk, PriorityOffset(q, i));
  }

  /** `blk` appears in `ls` starting at offset `o`. */
  predicate Occurs<T(==)>(ls: seq<T>, o: nat, blk: seq<T>) {
    o + |blk| <= |ls| && ls[o..o + |blk|] == blk
  }

  /** Where block `i` starts: three lines per earlier priority plus the ids
      queued before it. */
  function PriorityOffset(q: seq<(string, seq<string>)>, i: nat): nat
    requires i <= |q|
  {
    3 * i + SumSizes(q[..i])
  }

  /** The block of one `(priority, ids)` pair, as a function value. */
  function BlockOf(style: Style): ((string, seq<string>)) -> seq<string> {
    (e: (string, seq<string>)) => PriorityBlock(style, e.0, e.1)
  }

  /** The queued body is the blocks of the priorities, concatenated. */
  lemma {:induction false} PriorityLinesConcat(style: Style, q: seq<(string, seq<string>)>)
    ensures PriorityLines(style, q) == ConcatMap(BlockOf(style), q)
    decreases |q|
  {
    if |q| > 0 {
      PriorityLinesConcat(style, q[1..]);
    }
  }

  /** `xs.map(f).flatten`. */
  function ConcatMap<A, T>(f: A -> seq<T>, xs: seq<A>): seq<T>
    decreases |xs|
  {
    if |xs| == 0 then [] else f(xs[0]) + ConcatMap(f, xs[1..])
  }

  /** Flattening distributes over splitting the list. */
  lemma {:induction false} ConcatMapSplit<A, T>(f: A -> seq<T>, xs: seq<A>, i: nat)
    requires i <= |xs|
    ensures ConcatMap(f, xs) == ConcatMap(f, xs[..i]) + ConcatMap(f, xs[i..])
    decreases i
  {
    if i == 0 {
      assert xs[..0] == [] && xs[0..] == xs;
    } else {
      ConcatMapSplit(f, xs[1..], i - 1);
      assert xs[1..][i - 1..] == xs[i..];
      var pre := xs[..i];
      assert pre[0] == xs[0] && pre[1..] == xs[1..][..i - 1];
    }
  }

  /** The image `blk` of `xs[i]` sits at offset `o` of the flattening,
      right after the images of the elements before it. */
  lemma ConcatMapAt<A, T>(f: A -> seq<T>, xs: seq<A>, i: nat, ls: seq<T>, blk: seq<T>, o: nat)
    requires i < |xs| && ls == ConcatMap(f, xs) && f(xs[i]) == blk
    requires o == |ConcatMap(f, xs[..i])|
    ensures Occurs(ls, o, blk)
  {
    ConcatMapSplit(f, xs, i);
    var post := xs[i..];
    assert post[0] == xs[i] && post[1..] == xs[i + 1..];
    assert ConcatMap(f, post) == blk + ConcatMap(f, post[1..]);
  }

  function RunningLines(style: Style, r: seq<RunningScan>): (ls: seq<string>)
    ensures |ls| == |r|
    ensures forall i | 0 <= i < |r| :: ls[i] == Entry(style, i, r[i].id + ": " + r[i].url + "/" + r[i].token)
  {
    seq(|r|, i requires 0 <= i < |r| => Entry(style, i, r[i].id + ": " + r[i].url + "/" + r[i].token))
  }

  function CompletedLines(style: Style, c: seq<CompletedScan>): (ls: seq<string>)
    ensures |ls| == |c|
    ensures forall i | 0 <= i < |c| :: ls[i] == Entry(style, i, c[i].id + ": " + c[i].report)
  {
    seq(|c|, i requires 0 <= i < |c| => Entry(style, i, c[i].id + ": " + c[i].report))
  }

  function FailedLines(style: Style, f: seq<FailedScan>): (ls: seq<string>)
    ensures |ls| == |f|
    ensures forall i | 0 <= i < |f| ::
              ls[i] == Entry(style, i, f[i].id + ": [" + f[i].error + "] " + f[i].description)
  {
    seq(|f|, i requires 0 <= i < |f| => Entry(style, i, f[i].id + ": [" + f[i].error + "] " + f[i].description))
  }

  // ---- sections ----------------------------------------------------------

  /** The heading of a section: queued in the info colour with the
      flattened total, running as status, completed as good news, failed
      as bad news. */
  function Header(s: Section, d: Lists): (m: Output.Message)
    ensures !m.kind.Plain?
    ensures m.kind == Output.Info <==> s == Queued
    ensures m.kind == Output.Status <==> s == Running
    ensures m.kind == Output.Ok <==> s == Completed
    ensures m.kind == Output.Bad <==> s == Failed
  {
    var kind := match s
      case Queued => Output.Info
      case Running => Output.Status
      case Completed => Output.Ok
      case Failed => Output.Bad;
    Output.Message(kind, Title(s) + " [" + Strings.NatToString(Count(s, d)) + "]")
  }

  function Title(s: Section): string {
    match s
    case Queued => "Queued"
    case Running => "Running"
    case Completed => "Completed"
    case Failed => "Failed"
  }

  /** The number a section's heading announces: every queued id across
      the priorities, or the length of the other lists. */
  function Count(s: Section, d: Lists): nat {
    match s
    case Queued => |Flatten(d.queued)|
    case Running => |d.running|
    case Completed => |d.completed|
    case Failed => |d.failed|
  }

  /** A heading is the section's title and its bracketed count, and the
      count reads back as the number of entries; for the queue that is the
      sum of the per-priority counts the blocks print. */
  lemma HeaderCount(s: Section, d: Lists)
    ensures var t := Header(s, d).text;
            var n := |Title(s)|;
            && n + 3 <= |t| && t[..n] == Title(s) && t[n..n + 2] == " [" && t[|t| - 1] == ']'
            && Strings.AllDigits(t[n + 2..|t| - 1])
            && Strings.ParseNat(t[n + 2..|t| - 1]) == Count(s, d)
    ensures s == Queued ==> Count(s, d) == SumSizes(d.queued)
  {
    var c := Strings.NatToString(Count(s, d));
    var t := Title(s) + " [" + c + "]";
    var n := |Title(s)|;
    assert t[..n] == Title(s) && t[n..n + 2] == " [";
    assert t[n + 2..|t| - 1] == c;
    Strings.ParseNatToString(Count(s, d));
    QueuedTotal(d.queued);
  }

  /** Plain lines, as `print_line` writes them. */
  function Plain(ls: seq<string>): (ms: seq<Output.Message>)
    ensures |ms| == |ls|
    ensures forall i | 0 <= i < |ls| :: ms[i] == Output.Message(Output.Plain, ls[i])
  {
    seq(|ls|, i requires 0 <= i < |ls| => Output.Message(Output.Plain, ls[i]))
  }

  /** One section: heading, blank line, entries. */
  function Block(style: Style, s: Section, d: Lists): (ms: seq<Output.Message>)
    ensures |ms| >= 2 && ms[0] == Header(s, d)
    ensures forall i | 1 <= i < |ms| :: ms[i].kind.Plain?
  {
    var body :=
      match s
      case Queued => PriorityLines(style, d.queued)
      case Running => RunningLines(style, d.running)
      case Completed => CompletedLines(style, d.completed)
      case Failed => FailedLines(style, d.failed);
    [Header(s, d)] + Plain([""] + body)
  }

  /** The given sections in turn, each but the queued one preceded by a
      blank line. */
  function Sections(style: Style, ss: seq<Section>, d: Lists): seq<Output.Message>
  {
    if |ss| == 0 then [] else Part(style, ss[0], d) + Sections(style, ss[1..], d)
  }

  /** The whole listing: the printed sections, then a final blank line. */
  function Render(style: Style, f: ListFlags, d: Lists): (ms: seq<Output.Message>)
    ensures |ms| >= 3 && ms[|ms| - 1] == Output.Message(Output.Plain, "")
    ensures Shown(f, Queued) ==> ms[0] == Header(Queued, d)
    ensures !Shown(f, Queued) ==> ms[0] == Output.Message(Output.Plain, "")
  {
    var ss := ShownSections(f);
    var body := Sections(style, ss, d);
    assert |Block(style, ss[0], d)| >= 2;
    assert body == Part(style, ss[0], d) + Sections(style, ss[1..], d);
    body + Plain([""])
  }

  /** The messages that are not plain lines, in order. */
  function Headings(ms: seq<Output.Message>): seq<Output.Message> {
    if |ms| == 0 then []
    else (if ms[0].kind.Plain? then [] else [ms[0]]) + Headings(ms[1..])
  }

  lemma {:induction false} HeadingsAppend(a: seq<Output.Message>, b: seq<Output.Message>)
    ensures Headings(a + b) == Headings(a) + Headings(b)
  {
    if |a| > 0 {
      assert (a + b)[1..] == a[1..] + b;
      HeadingsAppend(a[1..], b);
    } else {
      assert a + b == b;
    }
  }

  lemma {:induction false} HeadingsPlain(ms: seq<Output.Message>)
    requires forall i | 0 <= i < |ms| :: ms[i].kind.Plain?
    ensures Headings(ms) == []
  {
    if |ms| > 0 {
      HeadingsPlain(ms[1..]);
    }
  }

  lemma BlockHeadings(style: Style, s: Section, d: Lists)
    ensures Headings(Block(style, s, d)) == [Header(s, d)]
  {
    var b := Block(style, s, d);
    assert b == [b[0]] + b[1..];
    HeadingsAppend([b[0]], b[1..]);
    HeadingsPlain(b[1..]);
  }

  /** The headings of the given sections, in order. */
  function Headers(ss: seq<Section>, d: Lists): (hs: seq<Output.Message>)
    ensures |hs| == |ss|
    ensures forall i | 0 <= i < |ss| :: hs[i] == Header(ss[i], d)
  {
    if |ss| == 0 then [] else [Header(ss[0], d)] + Headers(ss[1..], d)
  }

  /** One section with its leading separator. */
  function Part(style: Style, s: Section, d: Lists): seq<Output.Message> {
    (if s == Queued then [] else Plain([""])) + Block(style, s, d)
  }

  lemma PartHeadings(style: Style, s: Section, d: Lists)
    ensures Headings(Part(style, s, d)) == [Header(s, d)]
  {
    var sep: seq<Output.Message> := if s == Queued then [] else Plain([""]);
    HeadingsPlain(sep);
    BlockHeadings(style, s, d);
    HeadingsAppend(sep, Block(style, s, d));
  }

  lemma {:induction false} SectionsHeadings(style: Style, ss: seq<Section>, d: Lists)
    ensures Headings(Sections(style, ss, d)) == Headers(ss, d)
  {
    if |ss| > 0 {
      var part := Part(style, ss[0], d);
      var rest := Sections(style, ss[1..], d);
      assert Sections(style, ss, d) == part + rest;
      PartHeadings(style, ss[0], d);
      SectionsHeadings(style, ss[1..], d);
      HeadingsAppend(part, rest);
      assert Headers(ss, d) == [Header(ss[0], d)] + Headers(ss[1..], d);
    }
  }

  /** Reading only the section headings of a listing gives one heading per
      printed section, in the fixed order queued, running, completed,
      failed. */
  lemma RenderHeadings(style: Style, f: ListFlags, d: Lists)
    ensures Headings(Render(style, f, d)) == Headers(ShownSections(f), d)
  {
    var ss := ShownSections(f);
    SectionsHeadings(style, ss, d);
    HeadingsAppend(Sections(style, ss, d), Plain([""]));
    HeadingsPlain(Plain([""]));
  }
}
