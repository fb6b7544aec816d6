/** The handful of Python string operations the file-name builders use:
    `str(int)`, `str.zfill`, `str.split`, `str.join` and `str.replace`. */
module Text {

  predicate IsDigit(c: char) { '0' <= c <= '9' }

  predicate AllDigits(s: string) { forall k :: 0 <= k < |s| ==> IsDigit(s[k]) }

  function DigitChar(d: nat): (c: char)
    requires d < 10
    ensures IsDigit(c)
  {
    "0123456789"[d]
  }

  /** The value of a string of decimal digits. */
  function DigitsValue(s: string): nat
    requires AllDigits(s)
  {
    if |s| == 0 then 0
    else DigitsValue(s[..|s| - 1]) * 10 + ((s[|s| - 1] as int) - ('0' as int))
  }

  /** `str(n)` for a non-negative integer: its shortest decimal form. */
  function NatToStr(n: nat): (s: string)
    ensures |s| >= 1 && AllDigits(s)
    ensures |s| > 1 ==> s[0] != '0'
    ensures DigitsValue(s) == n
    decreases n
  {
    if n < 10 then [DigitChar(n)]
    else
      var prefix := NatToStr(n / 10);
      var s := prefix + [DigitChar(n % 10)];
      assert s[..|s| - 1] == prefix;
      s
  }

  /** `str(x)` for any Python int. */
  function IntToStr(x: int): (s: string)
    ensures |s| >= 1
    ensures x >= 0 ==> AllDigits(s) && DigitsValue(s) == x
    ensures x < 0 ==> s[0] == '-' && AllDigits(s[1..]) && DigitsValue(s[1..]) == -x
  {
    if x >= 0 then NatToStr(x) else "-" + NatToStr(-x)
  }

  function Repeat(c: char, n: nat): (s: string)
    ensures |s| == n
    ensures forall k :: 0 <= k < n ==> s[k] == c
  {
    seq(n, _ => c)
  }

  /** Python's `str.zfill(width)`: pad with '0' on the left up to `width`
      characters, keeping a leading sign in front of the padding. */
  function ZFill(s: string, width: nat): (r: string)
  {
    if |s| >= width then s
    else
      var pad := Repeat('0', width - |s|);
      if |s| > 0 && (s[0] == '+' || s[0] == '-') then [s[0]] + pad + s[1..]
      else pad + s
  }

  lemma {:induction false} LeadingZerosKeepValue(zeros: nat, s: string)
    requires AllDigits(s)
    ensures AllDigits(Repeat('0', zeros) + s)
    ensures DigitsValue(Repeat('0', zeros) + s) == DigitsValue(s)
    decreases |s|
  {
    var t := Repeat('0', zeros) + s;
    if |s| == 0 {
      assert t == Repeat('0', zeros);
      AllZerosValue(zeros);
    } else {
      assert t[..|t| - 1] == Repeat('0', zeros) + s[..|s| - 1];
      LeadingZerosKeepValue(zeros, s[..|s| - 1]);
    }
  }

  lemma {:induction false} AllZerosValue(n: nat)
    ensures AllDigits(Repeat('0', n))
    ensures DigitsValue(Repeat('0', n)) == 0
  {
    if n > 0 {
      assert Repeat('0', n)[..n - 1] == Repeat('0', n - 1);
      AllZerosValue(n - 1);
    }
  }

  /** `str(n).zfill(width)` of a non-negative number is a digit string of at
      least `width` characters that still reads as `n`; it is exactly `width`
      long when `n` has at most `width` digits. */
  lemma {:induction false} ZFillNatKeepsValue(n: nat, width: nat)
    ensures AllDigits(ZFill(NatToStr(n), width))
    ensures DigitsValue(ZFill(NatToStr(n), width)) == n
    ensures |ZFill(NatToStr(n), width)| == (if |NatToStr(n)| >= width then |NatToStr(n)| else width)
  {
    var s := NatToStr(n);
    if |s| < width {
      assert IsDigit(s[0]);
      assert ZFill(s, width) == Repeat('0', width - |s|) + s;
      LeadingZerosKeepValue(width - |s|, s);
    } else {
      assert ZFill(s, width) == s;
    }
  }

  /** Index of the first occurrence of `c` in `s`. */
  function IndexOf(s: string, c: char): (k: nat)
    requires c in s
    ensures k < |s| && s[k] == c && c !in s[..k]
  {
    if s[0] == c then 0
    else
      var k := 1 + IndexOf(s[1..], c);
      assert s[..k] == [s[0]] + s[1..][..k - 1];
      k
  }

  lemma FirstOccurrenceAt(s: string, c: char, p: nat)
    requires p < |s| && s[p] == c && c !in s[..p]
    ensures IndexOf(s, c) == p
  {
  }

  /** Python's `sep.join(parts)`. */
  function JoinWith(parts: seq<string>, sep: char): string
  {
    if |parts| == 0 then ""
    else if |parts| == 1 then parts[0]
    else parts[0] + [sep] + JoinWith(parts[1..], sep)
  }

  /** Joining two non-empty field lists is joining their joins. */
  lemma {:induction false} JoinAppend(xs: seq<string>, ys: seq<string>, sep: char)
    requires |xs| >= 1 && |ys| >= 1
    ensures JoinWith(xs + ys, sep) == JoinWith(xs, sep) + [sep] + JoinWith(ys, sep)
    decreases |xs|
  {
    if |xs| > 1 {
      assert (xs + ys)[1..] == xs[1..] + ys;
      JoinAppend(xs[1..], ys, sep);
    }
  }

  /** Python's `s.split(sep)` for a one-character separator: always at least
      one field, no field contains the separator, and joining the fields
      back with the separator gives `s` again. */
  function Split(s: string, sep: char): (parts: seq<string>)
    ensures |parts| >= 1
    ensures forall k :: 0 <= k < |parts| ==> sep !in parts[k]
    ensures JoinWith(parts, sep) == s
    decreases |s|
  {
    if sep !in s then [s]
    else
      var k := IndexOf(s, sep);
      var rest := Split(s[k + 1..], sep);
      var parts := [s[..k]] + rest;
      assert parts[1..] == rest;
      assert s == s[..k] + [sep] + s[k + 1..];
      parts
  }

  /** The other direction of the round trip: splitting a join of
      separator-free fields gives the fields back. */
  lemma {:induction false} SplitJoin(parts: seq<string>, sep: char)
    requires |parts| >= 1
    requires forall k :: 0 <= k < |parts| ==> sep !in parts[k]
    ensures Split(JoinWith(parts, sep), sep) == parts
    decreases |parts|
  {
    if |parts| > 1 {
      var tail := JoinWith(parts[1..], sep);
      assert JoinWith(parts, sep) == parts[0] + [sep] + tail;
      SplitCons(parts[0], tail, sep);
      SplitJoin(parts[1..], sep);
      assert parts == [parts[0]] + parts[1..];
    }
  }

  /** Splitting at the first separator: a separator-free head becomes the
      first field. */
  lemma SplitCons(head: string, tail: string, sep: char)
    requires sep !in head
    ensures Split(head + [sep] + tail, sep) == [head] + Split(tail, sep)
  {
    var s := head + [sep] + tail;
    assert s[|head|] == sep;
    assert s[..|head|] == head;
    FirstOccurrenceAt(s, sep, |head|);
    assert s[|head| + 1..] == tail;
  }

  predicate StartsWith(s: string, prefix: string)
  {
    |prefix| <= |s| && s[..|prefix|] == prefix
  }

  /** `pat` occurs in `s` at position `k`. */
  predicate OccursAt(s: string, pat: string, k: int)
  {
    0 <= k <= |s| - |pat| && s[k..k + |pat|] == pat
  }

  /** `pat` occurs somewhere in `s`. */
  predicate Occurs(s: string, pat: string)
  {
    exists k :: 0 <= k <= |s| && OccursAt(s, pat, k)
  }

  /** Python's `s.replace(pat, rep)`: every non-overlapping occurrence of
      `pat`, scanned left to right, becomes `rep`. */
  function ReplaceAll(s: string, pat: string, rep: string): string
    requires |pat| > 0
    decreases |s|
  {
    if |s| < |pat| then s
    else if StartsWith(s, pat) then rep + ReplaceAll(s[|pat|..], pat, rep)
    else [s[0]] + ReplaceAll(s[1..], pat, rep)
  }

  /** A string without the pattern is left as it is by `replace`. */
  lemma {:induction false} ReplaceAbsent(s: string, pat: string, rep: string)
    requires |pat| > 0
    requires !Occurs(s, pat)
    ensures ReplaceAll(s, pat, rep) == s
    decreases |s|
  {
    if |s| >= |pat| {
      assert !OccursAt(s, pat, 0);
      assert !StartsWith(s, pat);
      forall k | OccursAt(s[1..], pat, k)
        ensures false
      {
        assert s[1..][k..k + |pat|] == s[k + 1..k + 1 + |pat|];
        assert OccursAt(s, pat, k + 1);
      }
      ReplaceAbsent(s[1..], pat, rep);
    }
  }
  /** The first character of `pat` occurs nowhere else in it. */
  predicate HeadUnique(pat: string)
  {
    |pat| > 0 && forall k :: 0 < k < |pat| ==> pat[k] != pat[0]
  }

  /** A unique-headed pattern that is absent from a non-empty `head` does
      not start `head + pat`. */
  lemma TailNotAtFront(head: string, pat: string)
    requires HeadUnique(pat) && !Occurs(head, pat) && |head| > 0
    ensures !StartsWith(head + pat, pat)
  {
    var s := head + pat;
    if |head| >= |pat| {
      assert head[..|pat|] == s[..|pat|];
      assert !OccursAt(head, pat, 0);
    } else {
      assert s[..|pat|][|head|] == pat[0];
      assert pat[|head|] != pat[0];
    }
  }

  /** A pattern absent from a string is absent from its tail. */
  lemma AbsentInRest(head: string, pat: string)
    requires |head| > 0 && !Occurs(head, pat)
    ensures !Occurs(head[1..], pat)
  {
    forall k | OccursAt(head[1..], pat, k)
      ensures false
    {
      assert head[1..][k..k + |pat|] == head[k + 1..k + 1 + |pat|];
      assert OccursAt(head, pat, k + 1);
    }
  }

  /** When `pat` closes the string and occurs nowhere before, `replace`
      rewrites exactly that closing occurrence. */
  lemma {:induction false} ReplaceTail(head: string, pat: string, rep: string)
    requires HeadUnique(pat)
    requires !Occurs(head, pat)
    ensures ReplaceAll(head + pat, pat, rep) == head + rep
    decreases |head|
  {
    var s := head + pat;
    if |head| == 0 {
      assert s == pat && StartsWith(s, pat);
      assert s[|pat|..] == [];
    } else {
      TailNotAtFront(head, pat);
      AbsentInRest(head, pat);
      assert s[1..] == head[1..] + pat;
      assert ReplaceAll(s, pat, rep) == [head[0]] + ReplaceAll(head[1..] + pat, pat, rep);
      ReplaceTail(head[1..], pat, rep);
      assert [head[0]] + (head[1..] + rep) == head + rep;
    }
  }
}
