/** The scan's lifecycle status and the issue records the interface shows.
    Both belong to the engine; only the parts the interface reads are kept. */
module Scan {
  import opened Wrappers
  import Seqs

  /** Status symbols reported by the engine (`:ready`, `:scanning`, ...);
      `OtherStatus` stands for any symbol the interface never tests for. */
  datatype ScanStatus =
    | Ready | Preparing | Scanning | Pausing | Paused
    | Suspending | Suspended | Aborting | Aborted | Cleanup | Done
    | OtherStatus(name: string)

  type Digest = nat

  /** A finding.  `severity` is the rank of the engine's severity object:
      a larger rank is more severe. */
  datatype Issue = Issue(
    digest: Digest,
    severity: nat,
    name: string,
    vectorType: string,
    affectedInputName: Option<string>,
    affectedInputValue: string,
    referringUrl: string,
    pageUrl: string,
    active: bool)

  function Digests(issues: seq<Issue>): (ds: seq<Digest>)
    ensures |ds| == |issues|
    ensures forall i | 0 <= i < |issues| :: ds[i] == issues[i].digest
  {
    seq(|issues|, i requires 0 <= i < |issues| => issues[i].digest)
  }

  /** Severity never increases along the sequence. */
  predicate NonIncreasing(s: seq<Issue>) {
    forall i, j | 0 <= i < j < |s| :: s[i].severity >= s[j].severity
  }

  /** Place `x` before the first element that is not more severe. */
  function Insert(x: Issue, s: seq<Issue>): (r: seq<Issue>)
    requires NonIncreasing(s)
    ensures NonIncreasing(r)
    ensures multiset(r) == multiset(s) + multiset{x}
    ensures |r| == |s| + 1
  {
    if |s| == 0 || x.severity >= s[0].severity then [x] + s
    else
      var t := Insert(x, s[1..]);
      InsertBehind(x, s, t);
      [s[0]] + t
  }

  /** Putting the head of `s` in front of `x` inserted into the tail. */
  lemma InsertBehind(x: Issue, s: seq<Issue>, t: seq<Issue>)
    requires |s| > 0 && NonIncreasing(s) && x.severity < s[0].severity
    requires NonIncreasing(t) && multiset(t) == multiset(s[1..]) + multiset{x}
    ensures NonIncreasing([s[0]] + t)
    ensures multiset([s[0]] + t) == multiset(s) + multiset{x}
  {
    assert s == [s[0]] + s[1..];
    InsertBounded(x, s[1..], t, s[0].severity);
    var r := [s[0]] + t;
    assert forall j | 1 <= j < |r| :: r[j] == t[j - 1];
  }

  /** Every element of a permutation of `s + [x]` is bounded when those are. */
  lemma InsertBounded(x: Issue, s: seq<Issue>, t: seq<Issue>, bound: nat)
    requires multiset(t) == multiset(s) + multiset{x}
    requires x.severity <= bound
    requires forall k | 0 <= k < |s| :: s[k].severity <= bound
    ensures forall k | 0 <= k < |t| :: t[k].severity <= bound
  {
    forall k | 0 <= k < |t|
      ensures t[k].severity <= bound
    {
      assert t[k] in multiset(t);
      if t[k] != x {
        assert t[k] in multiset(s);
        var m :| 0 <= m < |s| && s[m] == t[k];
      }
    }
  }

  /** One admissible result of the source's
      `sort_by(&:digest).sort_by(&:severity).reverse`: ordered by
      non-increasing severity.  Ruby's `sort_by` is not stable, so the
      order among equally severe issues is not fixed by the source; this
      model happens to keep arrival order among them. */
  function SortBySeverity(s: seq<Issue>): (r: seq<Issue>)
    ensures NonIncreasing(r)
    ensures multiset(r) == multiset(s)
    ensures |r| == |s|
  {
    if |s| == 0 then []
    else
      assert s == [s[0]] + s[1..];
      Insert(s[0], SortBySeverity(s[1..]))
  }

  /** Inserting an issue whose key is new keeps keys distinct. */
  lemma {:induction false} InsertKeyDistinct<K>(x: Issue, s: seq<Issue>, key: Issue -> K)
    requires NonIncreasing(s) && Seqs.KeyDistinct(s, key)
    requires forall k | 0 <= k < |s| :: key(s[k]) != key(x)
    ensures Seqs.KeyDistinct(Insert(x, s), key)
  {
    if |s| > 0 && x.severity < s[0].severity {
      var t := Insert(x, s[1..]);
      InsertKeyDistinct(x, s[1..], key);
      assert Insert(x, s) == [s[0]] + t;
      forall k | 0 <= k < |t|
        ensures key(t[k]) != key(s[0])
      {
        var m := FromInserted(x, s[1..], t, k);
        if m >= 0 {
          assert s[m + 1] == t[k];
        }
      }
      var r := [s[0]] + t;
      assert forall j | 1 <= j < |r| :: r[j] == t[j - 1];
    }
  }

  /** Every element of a permutation of `s + [x]` is `x` (answer -1) or
      sits at some index of `s`. */
  lemma FromInserted(x: Issue, s: seq<Issue>, t: seq<Issue>, k: int) returns (m: int)
    requires multiset(t) == multiset(s) + multiset{x}
    requires 0 <= k < |t|
    ensures m == -1 ==> t[k] == x
    ensures m != -1 ==> 0 <= m < |s| && s[m] == t[k]
  {
    assert t[k] in multiset(t);
    if t[k] == x {
      m := -1;
    } else {
      assert t[k] in multiset(s);
      m :| 0 <= m < |s| && s[m] == t[k];
    }
  }

  /** Sorting by severity keeps keys distinct. */
  lemma {:induction false} SortKeyDistinct<K>(s: seq<Issue>, key: Issue -> K)
    requires Seqs.KeyDistinct(s, key)
    ensures Seqs.KeyDistinct(SortBySeverity(s), key)
  {
    if |s| > 0 {
      var t := SortBySeverity(s[1..]);
      SortKeyDistinct(s[1..], key);
      forall k | 0 <= k < |t|
        ensures key(t[k]) != key(s[0])
      {
        assert t[k] in multiset(t);
        assert t[k] in multiset(s[1..]);
        var m :| 0 <= m < |s[1..]| && s[1..][m] == t[k];
        assert s[m + 1] == t[k];
      }
      InsertKeyDistinct(s[0], t, key);
    }
  }
}
