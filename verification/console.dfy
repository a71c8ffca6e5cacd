/** The permanent history of the interactive console (`bin/scnr_console.rb`):
    lines are loaded from the history file at start-up and, at exit, the
    session's history is saved with repeats removed (keeping each line's
    last occurrence) and cut to the newest 300 lines.  The file's contents
    are a string parameter; nothing here touches a file system. */
module Console {
  import Strings
  import Seqs

  const MaxHistSize: nat := 300

  /** `IO.readlines(file).map(&:chomp)`: one entry per line, the line
      terminator removed; a final line without "\n" still counts, and an
      empty file has no lines. */
  function Load(content: string): (lines: seq<string>)
    ensures forall i | 0 <= i < |lines| :: '\n' !in lines[i]
  {
    ChompAll(Lines(content))
  }

  /** The lines of a text: the pieces between line breaks, the empty
      piece after a final line break not counted. */
  function Lines(content: string): (ls: seq<string>)
    ensures forall i | 0 <= i < |ls| :: '\n' !in ls[i]
  {
    DropFinalEmpty(Strings.Fields(content, '\n'))
  }

  /** The fields of a text, the empty one after a final separator
      dropped. */
  function DropFinalEmpty(fs: seq<string>): (ls: seq<string>)
    requires |fs| >= 1
    ensures |fs[|fs| - 1]| > 0 ==> ls == fs
    ensures |fs[|fs| - 1]| == 0 ==> ls == fs[..|fs| - 1]
  {
    if |fs[|fs| - 1]| == 0 then fs[..|fs| - 1] else fs
  }

  function ChompAll(ls: seq<string>): (r: seq<string>)
    ensures |r| == |ls|
    ensures forall i | 0 <= i < |ls| :: r[i] == Strings.Chomp(ls[i])
    ensures forall i | 0 <= i < |ls| :: '\n' !in ls[i] ==> '\n' !in r[i]
  {
    seq(|ls|, i requires 0 <= i < |ls| => Strings.Chomp(ls[i]))
  }

  /** No line occurs twice. */
  predicate NoRepeats(r: seq<string>) {
    forall i, j | 0 <= i < j < |r| :: r[i] != r[j]
  }

  /** `history.reverse.uniq.reverse`. */
  function KeepLast(h: seq<string>): seq<string> {
    Seqs.Reverse(Seqs.UniqBy(Seqs.Reverse(h), Seqs.Identity))
  }

  /** An independent statement of the same rule: walking from the front,
      a line is kept iff it does not occur again later. */
  function KeepLastRef(h: seq<string>): (r: seq<string>)
    ensures forall i | 0 <= i < |r| :: r[i] in h
    ensures NoRepeats(r)
  {
    if |h| == 0 then []
    else
      var rest := KeepLastRef(h[1..]);
      assert forall i | 0 <= i < |rest| :: rest[i] in h;
      if h[0] in h[1..] then rest else [h[0]] + rest
  }

  /** Every line of the history survives in `KeepLastRef`. */
  lemma {:induction false} KeepLastRefCovers(h: seq<string>)
    ensures forall i | 0 <= i < |h| :: h[i] in KeepLastRef(h)
  {
    if |h| > 0 {
      KeepLastRefCovers(h[1..]);
      forall i | 1 <= i < |h| ensures h[i] in KeepLastRef(h) {
        assert h[i] == h[1..][i - 1];
      }
    }
  }

  lemma {:induction false} ReverseAppend<T>(a: seq<T>, b: seq<T>)
    ensures Seqs.Reverse(a + b) == Seqs.Reverse(b) + Seqs.Reverse(a)
  {
    if |a| > 0 {
      assert (a + b)[1..] == a[1..] + b;
      ReverseAppend(a[1..], b);
    } else {
      assert a + b == b;
    }
  }

  lemma InReversedKeys(t: seq<string>, x: string)
    ensures x in Seqs.Keys(Seqs.Reverse(t), Seqs.Identity) <==> x in t
  {
    var ks := Seqs.Keys(Seqs.Reverse(t), Seqs.Identity);
    if x in t {
      var j :| 0 <= j < |t| && t[j] == x;
      assert ks[|t| - 1 - j] == x;
    }
    if x in ks {
      var j :| 0 <= j < |ks| && ks[j] == x;
      assert t[|t| - 1 - j] == x;
    }
  }

  /** Reversing, removing repeats from the front and reversing back keeps
      exactly the last occurrence of every line, in order. */
  lemma {:induction false} KeepLastIsRef(h: seq<string>)
    ensures KeepLast(h) == KeepLastRef(h)
  {
    if |h| > 0 {
      KeepLastStep(h);
      KeepLastIsRef(h[1..]);
    }
  }

  /** `reverse.uniq.reverse` keeps every line of the history, adds none,
      and keeps no line twice. */
  lemma KeepLastDistinct(h: seq<string>)
    ensures NoRepeats(KeepLast(h))
    ensures forall x :: x in KeepLast(h) <==> x in h
  {
    KeepLastIsRef(h);
    KeepLastRefCovers(h);
  }

  /** Peeling the oldest line off the history. */
  lemma KeepLastStep(h: seq<string>)
    requires |h| > 0
    ensures KeepLast(h) == if h[0] in h[1..] then KeepLast(h[1..]) else [h[0]] + KeepLast(h[1..])
  {
    var t := h[1..];
    var rt := Seqs.Reverse(t);
    ReverseCons(h);
    var u := Seqs.UniqBy(rt, Seqs.Identity);
    assert KeepLast(t) == Seqs.Reverse(u);
    Seqs.UniqBySnoc(rt, h[0], Seqs.Identity);
    InReversedKeys(t, h[0]);
    if h[0] !in t {
      ReverseAppend(u, [h[0]]);
      assert Seqs.Reverse([h[0]]) == [h[0]];
    }
  }

  lemma ReverseCons(h: seq<string>)
    requires |h| > 0
    ensures Seqs.Reverse(h) == Seqs.Reverse(h[1..]) + [h[0]]
  {
  }

  /** What is written at exit: the last `MaxHistSize` lines of
      `KeepLast(history)`. */
  function Saved(h: seq<string>): (r: seq<string>)
    ensures |r| <= MaxHistSize
    ensures |KeepLast(h)| <= MaxHistSize ==> r == KeepLast(h)
    ensures r == KeepLast(h)[|KeepLast(h)| - |r|..]
  {
    Seqs.LastAtMost(KeepLast(h), MaxHistSize)
  }

  /** The text of the saved lines. */
  function SaveText(h: seq<string>): string {
    Strings.Join(Saved(h), "\n")
  }

  /** A line that is safe to store: no line break inside, no carriage
      return at the end (which `chomp` would strip on reading). */
  predicate Storable(line: string) {
    '\n' !in line && !Strings.EndsWith(line, "\r")
  }

  /** Lines joined with "\n" read back as the same lines, provided the last
      one is not empty (a trailing empty line is read as no line). */
  lemma LoadJoin(lines: seq<string>)
    requires |lines| >= 1 && lines[|lines| - 1] != ""
    requires forall i | 0 <= i < |lines| :: Storable(lines[i])
    ensures Load(Strings.Join(lines, "\n")) == lines
  {
    LinesJoin(lines);
    ChompAllStorable(lines);
  }

  lemma LinesJoin(lines: seq<string>)
    requires |lines| >= 1 && lines[|lines| - 1] != ""
    requires forall i | 0 <= i < |lines| :: '\n' !in lines[i]
    ensures Lines(Strings.Join(lines, "\n")) == lines
  {
    Strings.FieldsJoin(lines, '\n');
    assert |lines[|lines| - 1]| > 0;
  }

  lemma ChompAllStorable(ls: seq<string>)
    requires forall i | 0 <= i < |ls| :: Storable(ls[i])
    ensures ChompAll(ls) == ls
  {
    forall i | 0 <= i < |ls| ensures Strings.Chomp(ls[i]) == ls[i] {
      ChompStorable(ls[i]);
    }
  }

  lemma ChompStorable(line: string)
    requires Storable(line)
    ensures Strings.Chomp(line) == line
  {
  }

  /** Saving as written: the file is opened for appending and the text is
      written after whatever the file already holds, with no line break
      in between. */
  function SaveAppending(file: string, h: seq<string>): (after: string)
    ensures |after| >= |file| && after[..|file|] == file
  {
    file + SaveText(h)
  }

  /** Two sessions with the append-mode save: the first saves `x` and
      `y`; the second loads them, adds `z` and saves again.  Reading the
      file back merges the first session's last line with the second
      session's first line, and repeats `y`: with "a", "b" and "c" the
      history reads "a", "ba", "b", "c". */
  lemma AppendingMergesLines(x: string, y: string, z: string)
    requires Storable(x) && Storable(y) && Storable(z)
    requires x != "" && y != "" && z != ""
    requires x != y && z != x && z != y
    ensures var first := SaveAppending("", [x, y]);
            var second := SaveAppending(first, Load(first) + [z]);
            Load(second) == [x, y + x, y, z]
  {
    SaveTwo(x, y);
    Snoc(x, y, z);
    SecondSave(x, y, z);
    StorableConcat(y, x);
    LoadFour(x, y + x, y, z);
  }

  lemma SecondSave(x: string, y: string, z: string)
    requires x != y && z != x && z != y
    ensures SaveAppending(x + "\n" + y, [x, y, z]) == x + "\n" + (y + x) + "\n" + y + "\n" + z
  {
    SaveThree(x, y, z);
    var f := x + "\n" + y;
    var t := x + "\n" + y + "\n" + z;
    assert SaveAppending(f, [x, y, z]) == f + t;
    Assoc(x, y, z);
  }

  lemma Assoc(x: string, y: string, z: string)
    ensures x + "\n" + y + (x + "\n" + y + "\n" + z) == x + "\n" + (y + x) + "\n" + y + "\n" + z
  {
  }

  lemma Snoc<T>(x: T, y: T, z: T)
    ensures [x, y] + [z] == [x, y, z]
  {
  }

  lemma StorableConcat(y: string, x: string)
    requires '\n' !in y && Storable(x) && x != ""
    ensures Storable(y + x)
  {
    var yx := y + x;
    assert yx[|yx| - 1..] == x[|x| - 1..];
  }

  lemma SaveTwo(x: string, y: string)
    requires Storable(x) && Storable(y) && y != "" && x != y
    ensures SaveAppending("", [x, y]) == x + "\n" + y
    ensures Load(x + "\n" + y) == [x, y]
  {
    assert NoRepeats([x, y]);
    SaveTextOf([x, y]);
    JoinLines([x, y]);
    LoadTwo(x, y);
  }

  lemma LoadTwo(x: string, y: string)
    requires Storable(x) && Storable(y) && y != ""
    ensures Load(x + "\n" + y) == [x, y]
  {
    JoinLines([x, y]);
    LoadJoin([x, y]);
  }

  lemma SaveThree(x: string, y: string, z: string)
    requires x != y && z != x && z != y
    ensures SaveText([x, y, z]) == x + "\n" + y + "\n" + z
  {
    SaveTextOf([x, y, z]);
    JoinThree(x, y, z);
  }

  lemma JoinThree(x: string, y: string, z: string)
    ensures Strings.Join([x, y, z], "\n") == x + "\n" + y + "\n" + z
  {
    JoinLines([y, z]);
    assert [x, y, z][1..] == [y, z];
    JoinLines([x, y, z]);
  }

  /** Unfolding one step of a "\n"-join. */
  lemma JoinLines(ls: seq<string>)
    requires |ls| >= 2
    ensures Strings.Join(ls, "\n") == ls[0] + "\n" + Strings.Join(ls[1..], "\n")
    ensures |ls| == 2 ==> Strings.Join(ls, "\n") == ls[0] + "\n" + ls[1]
  {
  }

  lemma LoadFour(a: string, b: string, c: string, d: string)
    requires Storable(a) && Storable(b) && Storable(c) && Storable(d) && d != ""
    ensures Load(a + "\n" + b + "\n" + c + "\n" + d) == [a, b, c, d]
  {
    JoinFour(a, b, c, d);
    LoadJoin([a, b, c, d]);
  }

  lemma JoinFour(a: string, b: string, c: string, d: string)
    ensures Strings.Join([a, b, c, d], "\n") == a + "\n" + b + "\n" + c + "\n" + d
  {
    JoinThree(b, c, d);
    assert [a, b, c, d][1..] == [b, c, d];
    JoinLines([a, b, c, d]);
  }

  /** A short history of distinct lines is saved whole. */
  lemma SaveTextOf(h: seq<string>)
    requires |h| <= MaxHistSize && NoRepeats(h)
    ensures SaveText(h) == Strings.Join(h, "\n")
  {
    KeepLastIsRef(h);
    DistinctKept(h);
    assert KeepLast(h) == h;
    assert Saved(h) == h;
  }

  /** Without repeats every line is its own last occurrence. */
  lemma {:induction false} DistinctKept(h: seq<string>)
    requires NoRepeats(h)
    ensures KeepLastRef(h) == h
  {
    if |h| > 0 {
      DistinctKept(h[1..]);
      assert h[0] !in h[1..];
      assert [h[0]] + h[1..] == h;
    }
  }

  /** Saving as evidently intended: the file is replaced by the saved
      lines. */
  function SaveReplacing(file: string, h: seq<string>): (after: string)
    ensures SaveAppending(file, h) == file + after
  {
    SaveText(h)
  }

  /** With a replacing save the history file always reads back as the
      saved lines: at most 300 of them, no repeats, each line's newest
      occurrence. */
  lemma ReplacingReadsBack(file: string, h: seq<string>)
    requires forall i | 0 <= i < |h| :: Storable(h[i])
    requires |h| >= 1 && h[|h| - 1] != ""
    ensures Load(SaveReplacing(file, h)) == Saved(h)
    ensures |Load(SaveReplacing(file, h))| <= MaxHistSize
  {
    var k := KeepLast(h);
    var r := Saved(h);
    assert |k| >= 1 && k[|k| - 1] == h[|h| - 1] by {
      KeepLastIsRef(h);
      LastKept(h);
    }
    assert r[|r| - 1] == k[|k| - 1];
    SavedStorable(h);
    LoadJoin(r);
  }

  /** Saved lines come from the history, so they are storable when the
      history's lines are. */
  lemma SavedStorable(h: seq<string>)
    requires forall i | 0 <= i < |h| :: Storable(h[i])
    ensures forall i | 0 <= i < |Saved(h)| :: Storable(Saved(h)[i])
  {
    var k := KeepLast(h);
    var r := Saved(h);
    KeepLastDistinct(h);
    forall i | 0 <= i < |r| ensures Storable(r[i]) {
      assert r[i] == k[|k| - |r| + i];
      assert r[i] in h;
      var j :| 0 <= j < |h| && h[j] == r[i];
    }
  }

  /** The newest line always survives, as the last one. */
  lemma {:induction false} LastKept(h: seq<string>)
    requires |h| >= 1
    ensures |KeepLastRef(h)| >= 1 && KeepLastRef(h)[|KeepLastRef(h)| - 1] == h[|h| - 1]
  {
    if |h| > 1 {
      var t := h[1..];
      LastKept(t);
      assert t[|t| - 1] == h[|h| - 1];
      var rt := KeepLastRef(t);
      assert KeepLastRef(h) == if h[0] in t then rt else [h[0]] + rt;
    } else {
      assert h[1..] == [];
      assert KeepLastRef(h) == [h[0]];
    }
  }
}
