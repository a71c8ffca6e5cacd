/** String helpers with Ruby's semantics: `Integer#to_s`, `String#rjust`,
    `Array#join`, `String#split` with a one-character separator,
    `String#chomp`, `String#gsub` of one character and `String#*`. */
module Strings {

  predicate IsDigit(c: char) {
    '0' <= c <= '9'
  }

  function DigitChar(d: nat): (c: char)
    requires d < 10
    ensures IsDigit(c)
  {
    "0123456789"[d]
  }

  function DigitValue(c: char): (d: nat)
    requires IsDigit(c)
    ensures d < 10
  {
    (c as int - '0' as int) as nat
  }

  lemma DigitRoundTrip(d: nat)
    requires d < 10
    ensures DigitValue(DigitChar(d)) == d
  {
  }

  predicate AllDigits(s: string) {
    forall i | 0 <= i < |s| :: IsDigit(s[i])
  }

  /** Decimal rendering of a natural number, as `Integer#to_s`. */
  function NatToString(n: nat): (s: string)
    ensures |s| >= 1 && AllDigits(s)
    ensures n < 10 <==> |s| == 1
    decreases n
  {
    if n < 10 then [DigitChar(n)] else NatToString(n / 10) + [DigitChar(n % 10)]
  }

  /** Decimal rendering of an integer, with a leading '-' when negative. */
  function IntToString(i: int): (s: string)
    ensures |s| >= 1
    ensures i >= 0 ==> s == NatToString(i)
    ensures i < 0 ==> s == "-" + NatToString(-i)
    ensures s[0] == '-' <==> i < 0
    ensures i >= 0 ==> AllDigits(s) && ParseNat(s) == i
    ensures i < 0 ==> AllDigits(s[1..]) && ParseNat(s[1..]) == -i
  {
    if i < 0 then
      ParseNatToString(-i);
      var s := "-" + NatToString(-i);
      assert s[1..] == NatToString(-i);
      s
    else
      ParseNatToString(i);
      NatToString(i)
  }

  /** A piece of text known to be the rendering of `n` reads back as `n`. */
  lemma ReadBack(s: string, n: nat)
    requires s == NatToString(n)
    ensures AllDigits(s) && ParseNat(s) == n
  {
    ParseNatToString(n);
  }

  /** The value of a string of decimal digits; leading zeros are allowed. */
  function ParseNat(s: string): nat
    requires AllDigits(s)
  {
    if |s| == 0 then 0 else ParseNat(s[..|s| - 1]) * 10 + DigitValue(s[|s| - 1])
  }

  lemma {:induction false} ParseNatToString(n: nat)
    ensures ParseNat(NatToString(n)) == n
    decreases n
  {
    if n >= 10 {
      var s := NatToString(n);
      assert s[..|s| - 1] == NatToString(n / 10);
      ParseNatToString(n / 10);
      DigitRoundTrip(n % 10);
    } else {
      DigitRoundTrip(n);
    }
  }

  function Pow10(k: nat): (p: nat)
    ensures p >= 1
  {
    if k == 0 then 1 else 10 * Pow10(k - 1)
  }

  lemma {:induction false} ParseNatAppend(a: string, b: string)
    requires AllDigits(a) && AllDigits(b)
    ensures AllDigits(a + b)
    ensures ParseNat(a + b) == ParseNat(a) * Pow10(|b|) + ParseNat(b)
    decreases |b|
  {
    if |b| > 0 {
      var ab := a + b;
      var b' := b[..|b| - 1];
      assert ab[..|ab| - 1] == a + b';
      assert ab[|ab| - 1] == b[|b| - 1];
      ParseNatAppend(a, b');
      var d := DigitValue(b[|b| - 1]);
      calc {
        ParseNat(ab);
        ParseNat(a + b') * 10 + d;
        (ParseNat(a) * Pow10(|b'|) + ParseNat(b')) * 10 + d;
        { ShiftDecimal(ParseNat(a), ParseNat(b'), Pow10(|b'|)); }
        ParseNat(a) * (10 * Pow10(|b'|)) + (ParseNat(b') * 10 + d);
        ParseNat(a) * Pow10(|b|) + ParseNat(b);
      }
    } else {
      assert a + b == a;
    }
  }

  lemma ShiftDecimal(x: nat, y: nat, p: nat)
    ensures (x * p + y) * 10 == x * (10 * p) + y * 10
  {
  }

  /** `c * n` for a one-character string `c`. */
  function Repeat(c: char, n: nat): (s: string)
    ensures |s| == n
    ensures forall i | 0 <= i < n :: s[i] == c
  {
    seq(n, _ => c)
  }

  lemma {:induction false} ParseNatZeros(n: nat)
    ensures AllDigits(Repeat('0', n))
    ensures ParseNat(Repeat('0', n)) == 0
    decreases n
  {
    if n > 0 {
      assert Repeat('0', n)[..n - 1] == Repeat('0', n - 1);
      ParseNatZeros(n - 1);
    }
  }

  /** `s.rjust(width, pad)`: left-pad with `pad` up to `width` characters;
      never truncates. */
  function RJust(s: string, width: nat, pad: char): (r: string)
    ensures |r| == if |s| >= width then |s| else width
    ensures r[|r| - |s|..] == s
    ensures forall i | 0 <= i < |r| - |s| :: r[i] == pad
  {
    if |s| >= width then s else Repeat(pad, width - |s|) + s
  }

  /** Zero-padding keeps the value of a digit string. */
  lemma ParseNatRJust(s: string, width: nat)
    requires AllDigits(s)
    ensures AllDigits(RJust(s, width, '0'))
    ensures ParseNat(RJust(s, width, '0')) == ParseNat(s)
  {
    if |s| < width {
      ParseNatZeros(width - |s|);
      ParseNatAppend(Repeat('0', width - |s|), s);
    }
  }

  /** `parts.join(sep)`. */
  function Join(parts: seq<string>, sep: string): string
  {
    if |parts| == 0 then ""
    else if |parts| == 1 then parts[0]
    else parts[0] + sep + Join(parts[1..], sep)
  }

  /** A join starts with the first part and ends with the last, with one
      separator between neighbours: its length is the parts' lengths plus
      one separator fewer than there are parts. */
  lemma {:induction false} JoinShape(parts: seq<string>, sep: string)
    requires |parts| > 0
    ensures var r := Join(parts, sep);
            && |parts[0]| <= |r| && r[..|parts[0]|] == parts[0]
            && EndsWith(r, parts[|parts| - 1])
            && |r| == TotalLength(parts) + (|parts| - 1) * |sep|
  {
    if |parts| > 1 {
      JoinShape(parts[1..], sep);
      var r := Join(parts, sep);
      var rest := Join(parts[1..], sep);
      assert r == parts[0] + sep + rest;
      assert r[..|parts[0]|] == parts[0];
      assert parts[1..][|parts| - 2] == parts[|parts| - 1];
      assert r[|r| - |parts[|parts| - 1]|..] == rest[|rest| - |parts[|parts| - 1]|..];
    }
  }

  /** The summed lengths of the parts. */
  function TotalLength(parts: seq<string>): nat {
    if |parts| == 0 then 0 else |parts[0]| + TotalLength(parts[1..])
  }

  /** Every field between occurrences of `c`, empty ones included; the
      first step of Ruby's `String#split(c)`. */
  function Fields(s: string, c: char): (r: seq<string>)
    ensures |r| >= 1
    ensures forall i | 0 <= i < |r| :: c !in r[i]
  {
    if |s| == 0 then [""]
    else
      var rest := Fields(s[1..], c);
      if s[0] == c then [""] + rest else [[s[0]] + rest[0]] + rest[1..]
  }

  lemma {:induction false} JoinFields(s: string, c: char)
    ensures Join(Fields(s, c), [c]) == s
  {
    if |s| > 0 {
      JoinFields(s[1..], c);
      var rest := Fields(s[1..], c);
      if s[0] != c {
        if |rest| == 1 {
        } else {
          assert rest == [rest[0]] + rest[1..];
          assert Join(rest, [c]) == rest[0] + [c] + Join(rest[1..], [c]);
        }
      }
    }
  }

  lemma {:induction false} FieldsJoin(parts: seq<string>, c: char)
    requires |parts| >= 1
    requires forall i | 0 <= i < |parts| :: c !in parts[i]
    ensures Fields(Join(parts, [c]), c) == parts
    decreases |parts|, |parts[0]|
  {
    if |parts[0]| > 0 {
      var p0 := parts[0];
      var tail := [p0[1..]] + parts[1..];
      assert Join(parts, [c]) == [p0[0]] + Join(tail, [c]) by {
        if |parts| > 1 {
          assert Join(tail, [c]) == p0[1..] + [c] + Join(parts[1..], [c]);
        }
      }
      FieldsJoin(tail, c);
      var j := Join(parts, [c]);
      assert j[1..] == Join(tail, [c]);
      assert j[0] == p0[0] && p0[0] != c;
      assert Fields(j, c) == [[p0[0]] + p0[1..]] + parts[1..];
      assert [p0[0]] + p0[1..] == p0;
      assert [p0] + parts[1..] == parts;
    } else if |parts| > 1 {
      var j := Join(parts, [c]);
      assert j == [c] + Join(parts[1..], [c]);
      assert j[1..] == Join(parts[1..], [c]);
      FieldsJoin(parts[1..], c);
      assert [""] + parts[1..] == parts;
    }
  }

  /** A separator after a field without one starts the next field. */
  lemma {:induction false} FieldsAppend(a: string, b: string, c: char)
    requires c !in a
    ensures Fields(a + [c] + b, c) == [a] + Fields(b, c)
  {
    var s := a + [c] + b;
    if |a| == 0 {
      assert s == [c] + b;
      assert s[1..] == b;
    } else {
      assert s[1..] == a[1..] + [c] + b;
      FieldsAppend(a[1..], b, c);
      assert [a[0]] + a[1..] == a;
    }
  }

  /** Drop empty fields from the end, as Ruby's `split` does. */
  function DropTrailingEmpty(fs: seq<string>): (r: seq<string>)
    ensures |r| <= |fs| && r == fs[..|r|]
    ensures |r| > 0 ==> r[|r| - 1] != ""
    ensures forall i | |r| <= i < |fs| :: fs[i] == ""
  {
    if |fs| == 0 then []
    else if fs[|fs| - 1] == "" then DropTrailingEmpty(fs[..|fs| - 1])
    else fs
  }

  /** `s.split(c)` for a one-character separator other than space. */
  function Split(s: string, c: char): (r: seq<string>)
    ensures forall i | 0 <= i < |r| :: c !in r[i]
    ensures |r| > 0 ==> r[|r| - 1] != ""
    ensures |r| <= |Fields(s, c)| && r == Fields(s, c)[..|r|]
    ensures forall i | |r| <= i < |Fields(s, c)| :: Fields(s, c)[i] == ""
    ensures s == "" ==> r == []
    ensures c !in s && s != "" ==> r == [s]
  {
    if c !in s then
      FieldsJoin([s], c);
      DropTrailingEmpty(Fields(s, c))
    else
      DropTrailingEmpty(Fields(s, c))
  }

  /** `s.gsub(from, to)` for one-character strings. */
  function ReplaceChar(s: string, from: char, to: char): (r: string)
    ensures |r| == |s|
    ensures forall i | 0 <= i < |s| :: r[i] == if s[i] == from then to else s[i]
  {
    seq(|s|, i requires 0 <= i < |s| => if s[i] == from then to else s[i])
  }

  predicate EndsWith(s: string, suffix: string) {
    |suffix| <= |s| && s[|s| - |suffix|..] == suffix
  }

  /** `line.chomp`: removes one trailing "\r\n", "\n" or "\r". */
  function Chomp(line: string): (r: string)
    ensures |line| - 2 <= |r| <= |line|
    ensures r == line[..|r|]
    ensures r == line <==> !(EndsWith(line, "\n") || EndsWith(line, "\r"))
  {
    if EndsWith(line, "\r\n") then line[..|line| - 2]
    else if EndsWith(line, "\n") || EndsWith(line, "\r") then line[..|line| - 1]
    else line
  }
}
