/** Sequence helpers with Ruby's `Array#uniq`, `Array#|` and
    `Array#reverse` semantics.  Element equality for `uniq` and `|` is
    Ruby's `eql?`; it is modelled as equality of an abstract key, so any
    equivalence relation can be plugged in. */
module Seqs {

  function Identity<T>(x: T): T { x }

  /** The key of every element, in order. */
  function Keys<T, K>(s: seq<T>, key: T -> K): (ks: seq<K>)
    ensures |ks| == |s|
    ensures forall i | 0 <= i < |s| :: ks[i] == key(s[i])
  {
    seq(|s|, i requires 0 <= i < |s| => key(s[i]))
  }

  /** No two elements share a key. */
  predicate KeyDistinct<T, K(==)>(s: seq<T>, key: T -> K) {
    forall i, j | 0 <= i < j < |s| :: key(s[i]) != key(s[j])
  }

  /** `s.uniq` under `key`: an element is kept iff no earlier element has
      its key, so the first occurrence of every key survives. */
  function UniqBy<T, K(==)>(s: seq<T>, key: T -> K): (r: seq<T>)
    ensures |r| <= |s|
    ensures forall i | 0 <= i < |r| :: r[i] in s
    ensures forall i | 0 <= i < |s| :: key(s[i]) in Keys(r, key)
    ensures KeyDistinct(r, key)
  {
    if |s| == 0 then []
    else
      var init := s[..|s| - 1];
      var x := s[|s| - 1];
      var u := UniqBy(init, key);
      assert forall i | 0 <= i < |u| :: key(u[i]) in Keys(init, key) by {
        KeysOfMembers(u, init, key);
      }
      if key(x) in Keys(init, key) then
        assert forall i | 0 <= i < |init| :: key(init[i]) in Keys(u, key);
        u
      else
        assert Keys(u + [x], key) == Keys(u, key) + [key(x)];
        u + [x]
  }

  /** The keys of elements drawn from `t` are keys of `t`. */
  lemma KeysOfMembers<T, K>(u: seq<T>, t: seq<T>, key: T -> K)
    requires forall i | 0 <= i < |u| :: u[i] in t
    ensures forall i | 0 <= i < |u| :: key(u[i]) in Keys(t, key)
  {
    forall i | 0 <= i < |u|
      ensures key(u[i]) in Keys(t, key)
    {
      var j :| 0 <= j < |t| && t[j] == u[i];
      assert Keys(t, key)[j] == key(u[i]);
    }
  }

  /** A sequence whose keys are already distinct is its own `uniq`. */
  lemma {:induction false} UniqByDistinct<T, K>(s: seq<T>, key: T -> K)
    requires KeyDistinct(s, key)
    ensures UniqBy(s, key) == s
  {
    if |s| > 0 {
      var init := s[..|s| - 1];
      var x := s[|s| - 1];
      assert s == init + [x];
      UniqByDistinct(init, key);
      forall j | 0 <= j < |init| ensures Keys(init, key)[j] != key(x) {
        assert init[j] == s[j];
      }
      UniqBySnoc(init, x, key);
    }
  }

  /** `uniq` only ever appends: the result for a prefix is a prefix of the
      result for the whole sequence. */
  lemma {:induction false} UniqByPrefix<T, K>(a: seq<T>, b: seq<T>, key: T -> K)
    ensures |UniqBy(a, key)| <= |UniqBy(a + b, key)|
    ensures UniqBy(a + b, key)[..|UniqBy(a, key)|] == UniqBy(a, key)
    decreases |b|
  {
    if |b| == 0 {
      assert a + b == a;
    } else {
      var b' := b[..|b| - 1];
      assert (a + b)[..|a + b| - 1] == a + b';
      UniqByPrefix(a, b', key);
    }
  }

  /** `a | b` keeps every element of a duplicate-free `a`, in place. */
  lemma UnionKeepsLeft<T, K>(a: seq<T>, b: seq<T>, key: T -> K)
    requires KeyDistinct(a, key)
    ensures |a| <= |UniqBy(a + b, key)|
    ensures UniqBy(a + b, key)[..|a|] == a
  {
    UniqByPrefix(a, b, key);
    UniqByDistinct(a, key);
  }

  function Reverse<T>(s: seq<T>): (r: seq<T>)
    ensures |r| == |s|
    ensures forall i | 0 <= i < |s| :: r[i] == s[|s| - 1 - i]
  {
    if |s| == 0 then [] else Reverse(s[1..]) + [s[0]]
  }

  /** `s[-n, n] if s.size > n`: at most the last `n` elements. */
  function LastAtMost<T>(s: seq<T>, n: nat): (r: seq<T>)
    ensures |r| == if |s| > n then n else |s|
    ensures r == s[|s| - |r|..]
  {
    if |s| > n then s[|s| - n..] else s
  }

  /** Merging elements whose keys are all present already changes nothing:
      `a | b == a` when every key of `b` occurs in a duplicate-free `a`. */
  lemma {:induction false} UnionAbsorbed<T, K>(a: seq<T>, b: seq<T>, key: T -> K)
    requires KeyDistinct(a, key)
    requires forall i | 0 <= i < |b| :: key(b[i]) in Keys(a, key)
    ensures UniqBy(a + b, key) == a
    decreases |b|
  {
    if |b| == 0 {
      assert a + b == a;
      UniqByDistinct(a, key);
    } else {
      var b' := b[..|b| - 1];
      assert (a + b)[..|a + b| - 1] == a + b';
      UnionAbsorbed(a, b', key);
      var y := b[|b| - 1];
      assert key(y) in Keys(a, key);
      assert Keys(a + b', key)[..|a|] == Keys(a, key);
    }
  }

  /** Index of the first element with key `k`, or `|s|` when there is none. */
  function FirstWith<T, K(==)>(s: seq<T>, key: T -> K, k: K): (i: nat)
    ensures i <= |s|
    ensures i < |s| ==> key(s[i]) == k
    ensures forall j | 0 <= j < i && j < |s| :: key(s[j]) != k
  {
    if |s| == 0 then 0
    else if key(s[0]) == k then 0
    else 1 + FirstWith(s[1..], key, k)
  }

  /** Appending an element moves no first occurrence that already exists. */
  lemma {:induction false} FirstWithAppend<T, K>(s: seq<T>, x: T, key: T -> K, k: K)
    ensures FirstWith(s + [x], key, k) ==
              if FirstWith(s, key, k) < |s| then FirstWith(s, key, k)
              else if key(x) == k then |s| else |s| + 1
  {
    if |s| > 0 {
      assert (s + [x])[1..] == s[1..] + [x];
      FirstWithAppend(s[1..], x, key, k);
    }
  }

  /** One step of `uniq`: a further element survives iff its key is new. */
  lemma UniqBySnoc<T, K>(s: seq<T>, x: T, key: T -> K)
    ensures UniqBy(s + [x], key) ==
              if key(x) in Keys(s, key) then UniqBy(s, key) else UniqBy(s, key) + [x]
  {
    assert (s + [x])[..|s|] == s;
  }

  /** Every element of `r` is the first element of `s` with its key. */
  ghost predicate KeptFirst<T, K>(s: seq<T>, key: T -> K, r: seq<T>) {
    forall i | 0 <= i < |r| ::
      FirstWith(s, key, key(r[i])) < |s| && r[i] == s[FirstWith(s, key, key(r[i]))]
  }

  /** The elements of `r` appear in the order of their keys' first
      occurrences in `s`. */
  ghost predicate InFirstOrder<T, K>(s: seq<T>, key: T -> K, r: seq<T>) {
    forall i, j | 0 <= i < j < |r| :: FirstWith(s, key, key(r[i])) < FirstWith(s, key, key(r[j]))
  }

  lemma FirstWithAbsent<T, K>(s: seq<T>, key: T -> K, k: K)
    requires k !in Keys(s, key)
    ensures FirstWith(s, key, k) == |s|
  {
  }

  /** `uniq` keeps, for every key, the first element that has it, and the
      kept elements appear in the order of those first occurrences. */
  lemma {:induction false} UniqByFirst<T, K>(s: seq<T>, key: T -> K)
    ensures KeptFirst(s, key, UniqBy(s, key))
    ensures InFirstOrder(s, key, UniqBy(s, key))
  {
    if |s| > 0 {
      var init := s[..|s| - 1];
      var x := s[|s| - 1];
      assert s == init + [x];
      UniqByFirst(init, key);
      UniqBySnoc(init, x, key);
      if key(x) in Keys(init, key) {
        FirstStepOld(init, x, key, UniqBy(init, key));
      } else {
        FirstStepNew(init, x, key, UniqBy(init, key));
      }
    }
  }

  /** An element with a key seen before leaves the first occurrences as
      they were. */
  lemma FirstStepOld<T, K>(init: seq<T>, x: T, key: T -> K, u: seq<T>)
    requires KeptFirst(init, key, u) && InFirstOrder(init, key, u)
    ensures KeptFirst(init + [x], key, u) && InFirstOrder(init + [x], key, u)
  {
    forall i | 0 <= i < |u|
      ensures FirstWith(init + [x], key, key(u[i])) == FirstWith(init, key, key(u[i]))
    {
      FirstWithAppend(init, x, key, key(u[i]));
    }
  }

  /** An element with a new key is its own first occurrence, after all
      earlier ones. */
  lemma FirstStepNew<T, K>(init: seq<T>, x: T, key: T -> K, u: seq<T>)
    requires KeptFirst(init, key, u) && InFirstOrder(init, key, u)
    requires key(x) !in Keys(init, key)
    ensures KeptFirst(init + [x], key, u + [x]) && InFirstOrder(init + [x], key, u + [x])
  {
    var s := init + [x];
    var r := u + [x];
    FirstWithAbsent(init, key, key(x));
    FirstWithAppend(init, x, key, key(x));
    assert FirstWith(s, key, key(x)) == |init|;
    forall i | 0 <= i < |u|
      ensures FirstWith(s, key, key(u[i])) == FirstWith(init, key, key(u[i])) < |init|
    {
      FirstWithAppend(init, x, key, key(u[i]));
    }
    assert forall i | 0 <= i < |u| :: r[i] == u[i];
    assert r[|u|] == x;
  }
}
