/** Issue reproduction (`CLI::Reproduce`): centred headings, the choice of
    issues to re-check, their split into reproduced and missing, and the
    one-line issue summary.  Re-checking an issue is a call into the
    engine and is a parameter here. */
module Reproduce {
  import opened Wrappers
  import opened Scan
  import Output
  import Strings

  /** `COLUMNS`: the width headings are centred in. */
  const Columns: nat := 120

  // ---- headings ----------------------------------------------------------

  /** How many marks go on each side of a heading: none for a string at
      least as wide as the columns, otherwise the floor of half the slack. */
  function Marks(size: nat): (m: nat)
    ensures size >= Columns ==> m == 0
    ensures size < Columns ==> 2 * m <= Columns - size <= 2 * m + 1
  {
    if size >= Columns then 0 else (Columns - size) / 2
  }

  /** `h`: the string between two equal runs of `c`, each separated from
      it by one space. */
  function Heading(s: string, c: char): (line: string)
    ensures |line| == |s| + 2 + 2 * Marks(|s|)
    ensures |s| < Columns ==> |line| == Columns + 1 || |line| == Columns + 2
    ensures line[Marks(|s|) + 1..Marks(|s|) + 1 + |s|] == s
    ensures line[Marks(|s|)] == ' ' && line[|line| - Marks(|s|) - 1] == ' '
    ensures forall i | 0 <= i < Marks(|s|) :: line[i] == c
    ensures forall i | |line| - Marks(|s|) <= i < |line| :: line[i] == c
  {
    var m := Marks(|s|);
    var line := Strings.Repeat(c, m) + " " + s + " " + Strings.Repeat(c, m);
    assert line[m + 1..m + 1 + |s|] == s;
    line
  }

  /** A heading reads the same from either end, up to the string itself:
      mirrored positions outside the string hold the same character. */
  lemma HeadingSymmetric(s: string, c: char, i: nat)
    requires i < Marks(|s|) + 1
    ensures var line := Heading(s, c); line[i] == line[|line| - 1 - i]
  {
  }

  /** `h1`, `h2`, `h3`: the mark characters '=', '-' and '.'. */
  function H1(s: string, kind: Output.Kind): (m: Output.Message)
    ensures m.kind == kind && m.text == Heading(s, '=')
  {
    Output.Message(kind, Heading(s, '='))
  }

  function H2(s: string, kind: Output.Kind): (m: Output.Message)
    ensures m.kind == kind && m.text == Heading(s, '-')
  {
    Output.Message(kind, Heading(s, '-'))
  }

  function H3(s: string, kind: Output.Kind): (m: Output.Message)
    ensures m.kind == kind && m.text == Heading(s, '.')
  {
    Output.Message(kind, Heading(s, '.'))
  }

  // ---- which issues, and what became of them ------------------------------

  /** The issues given on the command line when there are any, otherwise
      those of the report. */
  function IssueSource(given: seq<Issue>, report: seq<Issue>): (issues: seq<Issue>)
    ensures |given| > 0 ==> issues == given
    ensures |given| == 0 ==> issues == report
  {
    if |given| > 0 then given else report
  }

  /** What re-checking yields, issue by issue and in order: the fresh issue
      for each stale one that re-checks. */
  function Reproduced(issues: seq<Issue>, recheck: Issue -> Option<Issue>): seq<Issue>
  {
    if |issues| == 0 then []
    else
      var last := issues[|issues| - 1];
      Reproduced(issues[..|issues| - 1], recheck) + if recheck(last).Some? then [recheck(last).value] else []
  }

  /** The stale issues that no longer re-check, in order. */
  function Missing(issues: seq<Issue>, recheck: Issue -> Option<Issue>): seq<Issue>
  {
    if |issues| == 0 then []
    else
      var last := issues[|issues| - 1];
      Missing(issues[..|issues| - 1], recheck) + if recheck(last).None? then [last] else []
  }

  /** The loop of `run`: each issue is re-checked once and lands in exactly
      one of the two lists. */
  method Partition(issues: seq<Issue>, recheck: Issue -> Option<Issue>)
    returns (reproduced: seq<Issue>, missing: seq<Issue>)
    ensures reproduced == Reproduced(issues, recheck)
    ensures missing == Missing(issues, recheck)
    ensures |reproduced| + |missing| == |issues|
  {
    reproduced, missing := [], [];
    var i := 0;
    while i < |issues|
      invariant 0 <= i <= |issues|
      invariant reproduced == Reproduced(issues[..i], recheck)
      invariant missing == Missing(issues[..i], recheck)
      invariant |reproduced| + |missing| == i
    {
      assert issues[..i + 1][..i] == issues[..i];
      var rechecked := recheck(issues[i]);
      if rechecked.Some? {
        reproduced := reproduced + [rechecked.value];
      } else {
        missing := missing + [issues[i]];
      }
      i := i + 1;
    }
    assert issues[..i] == issues;
  }

  /** Exactly the stale issues that fail to re-check are missing, and
      every reproduced issue is what some stale issue re-checked to. */
  lemma {:induction false} PartitionMembers(issues: seq<Issue>, recheck: Issue -> Option<Issue>)
    ensures forall x :: x in Missing(issues, recheck) <==> x in issues && recheck(x).None?
    ensures forall y | y in Reproduced(issues, recheck) :: exists x | x in issues :: recheck(x) == Some(y)
    ensures forall x | x in issues && recheck(x).Some? :: recheck(x).value in Reproduced(issues, recheck)
  {
    if |issues| > 0 {
      var init := issues[..|issues| - 1];
      var last := issues[|issues| - 1];
      PartitionMembers(init, recheck);
      assert issues == init + [last];
      forall y | y in Reproduced(issues, recheck)
        ensures exists x | x in issues :: recheck(x) == Some(y)
      {
        if y in Reproduced(init, recheck) {
          var x :| x in init && recheck(x) == Some(y);
          assert x in issues;
        } else {
          assert recheck(last) == Some(y);
        }
      }
    }
  }

  /** Order is kept: when two stale issues both fail to re-check, the
      earlier one is listed among the missing ahead of the later one. */
  lemma MissingKeepsOrder(issues: seq<Issue>, recheck: Issue -> Option<Issue>, i: nat, j: nat)
    requires i < j < |issues|
    requires recheck(issues[i]).None? && recheck(issues[j]).None?
    ensures var m := Missing(issues, recheck);
            var k := |Missing(issues[..i + 1], recheck)|;
            && 0 < k <= |m| && m[k - 1] == issues[i]
            && issues[j] in m[k..]
  {
    var m := Missing(issues, recheck);
    assert issues[..i + 1][..i] == issues[..i];
    MissingPrefix(issues, recheck, i + 1);
    assert issues[..j][..i + 1] == issues[..i + 1];
    MissingPrefix(issues[..j], recheck, i + 1);
    assert issues[..j + 1][..j] == issues[..j];
    MissingPrefix(issues, recheck, j + 1);
    var p := |Missing(issues[..j], recheck)|;
    assert Missing(issues[..j + 1], recheck) == Missing(issues[..j], recheck) + [issues[j]];
    assert m[p] == issues[j];
  }

  lemma {:induction false} MissingPrefix(issues: seq<Issue>, recheck: Issue -> Option<Issue>, k: nat)
    requires k <= |issues|
    ensures Missing(issues[..k], recheck) <= Missing(issues, recheck)
    decreases |issues|
  {
    if k < |issues| {
      var init := issues[..|issues| - 1];
      assert init[..k] == issues[..k];
      MissingPrefix(init, recheck, k);
    } else {
      assert issues[..k] == issues;
    }
  }

  // ---- text ----------------------------------------------------------------

  /** The character an escape `\x` of `String#inspect` stands for: the
      named control escapes, and otherwise the character itself (`\"`,
      `\\`, `\#`). */
  function UnescapeCode(x: char): char {
    match x
    case 'n' => '\n'
    case 'r' => '\r'
    case 't' => '\t'
    case 'f' => '\U{000C}'
    case 'v' => '\U{000B}'
    case 'b' => '\U{0008}'
    case 'a' => '\U{0007}'
    case 'e' => '\U{001B}'
    case _ => x
  }

  /** How `String#inspect` writes one character, given the one after it:
      `"` and `\` are escaped, `#` is escaped in front of `{`, `$` and `@`
      (where it would start an interpolation), and the named control
      characters get their letter escapes. */
  function EscapeChar(c: char, next: Option<char>): (e: string)
    ensures |e| == 1 || |e| == 2
    ensures |e| == 1 ==> e == [c] && c != '\\' && c != '"'
    ensures |e| == 2 ==> e[0] == '\\' && UnescapeCode(e[1]) == c
    ensures c == '#' ==> (|e| == 2 <==> next.Some? && next.value in "{$@")
  {
    if c == '"' || c == '\\' then ['\\', c]
    else if c == '#' && next.Some? && next.value in "{$@" then ['\\', '#']
    else if c == '\n' then "\\n"
    else if c == '\r' then "\\r"
    else if c == '\t' then "\\t"
    else if c == '\U{000C}' then "\\f"
    else if c == '\U{000B}' then "\\v"
    else if c == '\U{0008}' then "\\b"
    else if c == '\U{0007}' then "\\a"
    else if c == '\U{001B}' then "\\e"
    else [c]
  }

  /** The inside of `inspect`'s quotes: every character escaped in turn. */
  function Escape(s: string): (e: string)
    ensures |s| <= |e| <= 2 * |s|
    decreases |s|
  {
    if |s| == 0 then ""
    else EscapeChar(s[0], if |s| > 1 then Some(s[1]) else None) + Escape(s[1..])
  }

  /** Reading escaped text back: a backslash and the character after it
      stand for one character. */
  function Unescape(e: string): string
    decreases |e|
  {
    if |e| == 0 then ""
    else if e[0] == '\\' && |e| >= 2 then [UnescapeCode(e[1])] + Unescape(e[2..])
    else [e[0]] + Unescape(e[1..])
  }

  lemma UnescapeChunk(chunk: string, rest: string, c: char)
    requires (chunk == [c] && c != '\\') || (|chunk| == 2 && chunk[0] == '\\' && UnescapeCode(chunk[1]) == c)
    ensures Unescape(chunk + rest) == [c] + Unescape(rest)
  {
    var e := chunk + rest;
    assert e[0] == chunk[0];
    if |chunk| == 2 {
      assert e[1] == chunk[1];
      assert e[2..] == rest;
    } else {
      assert e[1..] == rest;
    }
  }

  /** Escaping loses nothing: the escaped text reads back as the string. */
  lemma {:induction false} UnescapeEscape(s: string)
    ensures Unescape(Escape(s)) == s
    decreases |s|
  {
    if |s| > 0 {
      var chunk := EscapeChar(s[0], if |s| > 1 then Some(s[1]) else None);
      UnescapeChunk(chunk, Escape(s[1..]), s[0]);
      UnescapeEscape(s[1..]);
      assert s == [s[0]] + s[1..];
    }
  }

  /** `inspect` of a string: the escaped text between double quotes; what
      is between the quotes reads back as the string. */
  function Inspect(s: string): (r: string)
    ensures |r| >= 2 && r[0] == '"' && r[|r| - 1] == '"'
    ensures Unescape(r[1..|r| - 1]) == s
  {
    var e := Escape(s);
    UnescapeEscape(s);
    var r := "\"" + e + "\"";
    assert r[1..|r| - 1] == e;
    r
  }

  /** The counter in front of a heading title: "(index/total) ". */
  function Counter(index: nat, total: nat): (c: string)
    ensures var i := Strings.NatToString(index);
            var n := Strings.NatToString(total);
            && |c| == |i| + |n| + 4
            && c[0] == '(' && c[1..1 + |i|] == i && c[1 + |i|] == '/'
            && c[2 + |i|..2 + |i| + |n|] == n && c[2 + |i| + |n|..] == ") "
  {
    var i := Strings.NatToString(index);
    var n := Strings.NatToString(total);
    var c := "(" + i + "/" + n + ") ";
    assert c[1..1 + |i|] == i;
    assert c[2 + |i|..2 + |i| + |n|] == n;
    c
  }

  /** What both the heading and `print_issue` say about an issue: digest,
      name and vector type. */
  function Describe(x: Issue): string {
    "[" + Strings.NatToString(x.digest) + "] " + x.name + " in " + x.vectorType
  }

  /** The heading's input part: " input " and the `inspect` form of the
      input's name, when the issue names one. */
  function InputPart(x: Issue): string {
    if x.affectedInputName.Some? then " input " + Inspect(x.affectedInputName.value) else ""
  }

  /** The first line of `print_issue_heading` for the `index`-th of `total`
      issues: the counter, then what `print_issue` says about the issue
      (without its trailing space), with the input named by `inspect`. */
  function HeadingTitle(total: nat, index: nat, x: Issue): (t: string)
    ensures |Counter(index, total)| <= |t| && t[..|Counter(index, total)|] == Counter(index, total)
    ensures x.affectedInputName.None? ==> t + " " == Counter(index, total) + IssueLine(x)
  {
    var c := Counter(index, total);
    var t := c + (Describe(x) + InputPart(x));
    assert t[..|c|] == c;
    t
  }

  /** Naming the input only appends " input " and its `inspect` form. */
  lemma HeadingTitleInput(total: nat, index: nat, x: Issue, n: string)
    ensures HeadingTitle(total, index, x.(affectedInputName := Some(n)))
            == HeadingTitle(total, index, x.(affectedInputName := None)) + " input " + Inspect(n)
  {
  }

  /** Both numbers of a counter read back: `index` and `total`.  With
      `HeadingTitle` starting with the counter, the `i`-th heading of a run
      is read as `i + 1` out of the number of issues. */
  lemma CounterReadBack(index: nat, total: nat)
    ensures var c := Counter(index, total);
            var a := |Strings.NatToString(index)|;
            var b := |Strings.NatToString(total)|;
            && Strings.ParseNat(c[1..1 + a]) == index
            && Strings.ParseNat(c[2 + a..2 + a + b]) == total
  {
    var c := Counter(index, total);
    var a := |Strings.NatToString(index)|;
    var b := |Strings.NatToString(total)|;
    Strings.ReadBack(c[1..1 + a], index);
    Strings.ReadBack(c[2 + a..2 + a + b], total);
  }

  /** `print_issue_heading`: title, origin and page, for an active issue
      the value used, and a blank line. */
  function IssueHeading(total: nat, index: nat, x: Issue): (ms: seq<Output.Message>)
    ensures |ms| == if x.active then 5 else 4
    ensures ms[0] == H1(HeadingTitle(total, index, x), Output.Info)
    ensures ms[1] == H1("From: " + x.referringUrl, Output.Info)
    ensures ms[2] == H1("At: " + x.pageUrl, Output.Info)
    ensures x.active ==> ms[3] == H1("Using: " + x.affectedInputValue, Output.Info)
    ensures ms[|ms| - 1] == Output.Message(Output.Plain, "")
  {
    var head := [H1(HeadingTitle(total, index, x), Output.Info)]
                + [H1("From: " + x.referringUrl, Output.Info), H1("At: " + x.pageUrl, Output.Info)];
    var using := if x.active then [H1("Using: " + x.affectedInputValue, Output.Info)] else [];
    var ms := head + using + [Output.Message(Output.Plain, "")];
    assert ms[..3] == head;
    ms
  }

  /** The headings of a whole run, numbered 1 to n out of n. */
  function RunTitles(issues: seq<Issue>): (ts: seq<string>)
    ensures |ts| == |issues|
    ensures forall i | 0 <= i < |issues| :: ts[i] == HeadingTitle(|issues|, i + 1, issues[i])
  {
    seq(|issues|, i requires 0 <= i < |issues| => HeadingTitle(|issues|, i + 1, issues[i]))
  }

  /** The summary line of `print_issue`: digest, name and vector type,
      then the input part for an issue that names its input. */
  function IssueLine(x: Issue): (s: string)
    ensures Strings.EndsWith(s, " ")
    ensures |s| > |Strings.NatToString(x.digest)| + 2
    ensures s[..|Strings.NatToString(x.digest)| + 3] == "[" + Strings.NatToString(x.digest) + "] "
    ensures x.affectedInputName.Some? ==> Strings.EndsWith(s, "input '" + x.affectedInputName.value + "' ")
  {
    var d := Strings.NatToString(x.digest);
    var base := Describe(x) + " ";
    assert base[..|d| + 3] == "[" + d + "] ";
    match x.affectedInputName
    case None =>
      assert base[|base| - 1..] == " ";
      base
    case Some(n) =>
      var tail := "input '" + n + "' ";
      var s := base + tail;
      assert s[|s| - |tail|..] == tail;
      assert s[|s| - 1..] == " ";
      assert s[..|d| + 3] == "[" + d + "] ";
      s
  }

  /** Naming the input only appends the input part to the line. */
  lemma IssueLineInput(x: Issue, n: string)
    ensures IssueLine(x.(affectedInputName := Some(n)))
            == IssueLine(x.(affectedInputName := None)) + "input '" + n + "' "
  {
  }

  const AllReplayed := "All issues were successfully replayed."
  const NoneReplayed := "No issues were successfully replayed."
  const SomeReplayed := "These issues were successfully replayed."
  const NotReplayed := "These issues could not be replayed, they may have been fixed or require a workflow that can only be triggered by a full scan."

  /** The closing headings and their info lines, in print order: counts
      that agree with the partition, good news in green and the missing in
      red.  The blank lines and the `print_issue` listing printed after each
      info line are not part of this sequence. */
  function Summary(reproduced: seq<Issue>, missing: seq<Issue>): (ms: seq<Output.Message>)
    ensures |ms| == 4
    ensures ms[0] == H1("Reproduced " + Strings.NatToString(|reproduced|) + " issues", Output.Ok)
    ensures ms[2] == H1("Missing " + Strings.NatToString(|missing|) + " issues", Output.Bad)
    ensures ms[1].kind == Output.Info && ms[3].kind == Output.Info
    ensures ms[3].text == AllReplayed <==> |missing| == 0
    ensures ms[1].text == NoneReplayed <==> |reproduced| == 0
  {
    var first := H1("Reproduced " + Strings.NatToString(|reproduced|) + " issues", Output.Ok);
    var second := H1("Missing " + Strings.NatToString(|missing|) + " issues", Output.Bad);
    var repInfo := if |reproduced| > 0 then SomeReplayed else NoneReplayed;
    var missInfo := if |missing| > 0 then NotReplayed else AllReplayed;
    assert SomeReplayed != NoneReplayed by { assert SomeReplayed[0] != NoneReplayed[0]; }
    assert NotReplayed != AllReplayed by { assert |NotReplayed| != |AllReplayed|; }
    [first, Output.Message(Output.Info, repInfo), second, Output.Message(Output.Info, missInfo)]
  }
}
