/** The JavaScript string operations the tracker relies on, on `seq<char>`:
    `indexOf`/`includes`, `split` with a non-empty separator, and the decimal
    rendering of integers used by template literals. */
module Strings {
  import opened Optional

  /** `pat` occurs in `s` starting at position `i`. */
  predicate OccursAt(s: string, pat: string, i: int) {
    0 <= i && i + |pat| <= |s| && s[i..i + |pat|] == pat
  }

  /** `pat` occurs nowhere in `s`. */
  predicate Free(s: string, pat: string) {
    forall j :: 0 <= j <= |s| ==> !OccursAt(s, pat, j)
  }

  /** The leftmost occurrence of `pat` in `s` at or after position `from`. */
  function IndexFrom(s: string, pat: string, from: nat): (r: Option<nat>)
    requires |pat| > 0
    ensures r.Some? ==> from <= r.value && OccursAt(s, pat, r.value)
    ensures r.Some? ==> forall j :: from <= j < r.value ==> !OccursAt(s, pat, j)
    ensures r.None? ==> forall j :: from <= j <= |s| ==> !OccursAt(s, pat, j)
    decreases |s| - from
  {
    if |s| < from + |pat| then
      None
    else if s[from..from + |pat|] == pat then
      Some(from)
    else
      IndexFrom(s, pat, from + 1)
  }

  /** `s.indexOf(pat)`: the leftmost occurrence of `pat`, or `None` for -1. */
  function IndexOf(s: string, pat: string): (r: Option<nat>)
    requires |pat| > 0
    ensures r.Some? ==> OccursAt(s, pat, r.value)
    ensures r.Some? ==> forall j :: 0 <= j < r.value ==> !OccursAt(s, pat, j)
    ensures r.None? <==> Free(s, pat)
  {
    IndexFrom(s, pat, 0)
  }

  /** `s.includes(pat)`. */
  predicate Contains(s: string, pat: string)
    requires |pat| > 0
  {
    IndexOf(s, pat).Some?
  }

  /** The leftmost occurrence is the one `IndexOf` reports. */
  lemma IndexOfIsFirst(s: string, pat: string, i: nat)
    requires |pat| > 0
    requires OccursAt(s, pat, i)
    requires forall j :: 0 <= j < i ==> !OccursAt(s, pat, j)
    ensures IndexOf(s, pat) == Some(i)
  {
    IndexFromIsFirst(s, pat, 0, i);
  }

  /** Scanning from any position up to the first occurrence finds it. */
  lemma {:induction false} IndexFromIsFirst(s: string, pat: string, from: nat, i: nat)
    requires |pat| > 0 && from <= i
    requires OccursAt(s, pat, i)
    requires forall j :: from <= j < i ==> !OccursAt(s, pat, j)
    ensures IndexFrom(s, pat, from) == Some(i)
    decreases i - from
  {
    if from < i {
      assert !OccursAt(s, pat, from);
      IndexFromIsFirst(s, pat, from + 1, i);
    }
  }

  /** A prefix that ends before the first occurrence of `pat` holds no occurrence. */
  lemma PrefixBeforeFirstIsFree(s: string, pat: string, i: nat)
    requires |pat| > 0 && i <= |s|
    requires forall j :: 0 <= j < i ==> !OccursAt(s, pat, j)
    ensures Free(s[..i], pat)
  {
    forall j | 0 <= j <= i && OccursAt(s[..i], pat, j)
      ensures false
    {
      assert s[..i][j..j + |pat|] == s[j..j + |pat|];
      assert OccursAt(s, pat, j);
    }
  }

  /** `s.split(pat)` for a non-empty separator: the pieces between the
      left-to-right, non-overlapping occurrences of `pat`. */
  function Split(s: string, pat: string): (parts: seq<string>)
    requires |pat| > 0
    ensures |parts| >= 1
    // every piece after the first follows its own occurrence of `pat`
    ensures (|parts| - 1) * |pat| <= |s|
    decreases |s|
  {
    match IndexOf(s, pat)
    case None => [s]
    case Some(i) =>
      var rest := Split(s[i + |pat|..], pat);
      assert |rest| * |pat| == (|rest| - 1) * |pat| + |pat|;
      [s[..i]] + rest
  }

  /** Every character of every piece in `parts` occurs in `s`. */
  predicate CharsWithin(parts: seq<string>, s: string) {
    forall k, c :: 0 <= k < |parts| && c in parts[k] ==> c in s
  }

  /** Every character of every piece comes from the string split. */
  lemma {:induction false} SplitChars(s: string, pat: string)
    requires |pat| > 0
    ensures CharsWithin(Split(s, pat), s)
    decreases |s|
  {
    if IndexOf(s, pat).Some? {
      var i := IndexOf(s, pat).value;
      var rest := s[i + |pat|..];
      SplitChars(rest, pat);
      SplitStep(s, pat);
      CharsWithinCons(s, i, i + |pat|, Split(rest, pat), Split(s, pat));
    } else {
      CharsWithinSingle(s, Split(s, pat));
    }
  }

  /** A string on its own draws its characters from itself. */
  lemma CharsWithinSingle(s: string, whole: seq<string>)
    requires whole == [s]
    ensures CharsWithin(whole, s)
  {
  }

  /** A piece before position `i` in front of pieces drawn from `s[j..]`. */
  lemma CharsWithinCons(s: string, i: nat, j: nat, t: seq<string>, whole: seq<string>)
    requires i <= j <= |s|
    requires CharsWithin(t, s[j..])
    requires whole == [s[..i]] + t
    ensures CharsWithin(whole, s)
  {
    forall k, c | 0 <= k < |whole| && c in whole[k]
      ensures c in s
    {
      if k > 0 {
        assert whole[k] == t[k - 1];
        assert c in s[j..];
      } else {
        assert c in s[..i];
      }
    }
  }

  /** The last piece holds no separator: splitting stops only when none is left. */
  lemma {:induction false} SplitLastFree(s: string, pat: string)
    requires |pat| > 0
    ensures Free(Last(Split(s, pat)), pat)
    decreases |s|
  {
    if IndexOf(s, pat).None? {
      assert Split(s, pat) == [s];
    } else {
      SplitLastFree(s[IndexOf(s, pat).value + |pat|..], pat);
      SplitLastStep(s, pat);
    }
  }

  /** Past the first occurrence of `pat`, the last piece is that of the rest. */
  lemma SplitLastStep(s: string, pat: string)
    requires |pat| > 0 && IndexOf(s, pat).Some?
    ensures Last(Split(s, pat)) == Last(Split(s[IndexOf(s, pat).value + |pat|..], pat))
  {
    SplitStep(s, pat);
    LastOfCons(s[..IndexOf(s, pat).value], Split(s[IndexOf(s, pat).value + |pat|..], pat));
  }

  /** Putting an element in front does not change the last one. */
  lemma LastOfCons<T>(x: T, xs: seq<T>)
    requires |xs| > 0
    ensures Last([x] + xs) == Last(xs)
  {
  }

  /** `parts.join(pat)`: the inverse of `Split`. */
  function Join(parts: seq<string>, pat: string): string
    requires |parts| >= 1
  {
    if |parts| == 1 then parts[0] else parts[0] + pat + Join(parts[1..], pat)
  }

  /** Splitting and joining again gives back the original string. */
  lemma {:induction false} JoinSplit(s: string, pat: string)
    requires |pat| > 0
    ensures Join(Split(s, pat), pat) == s
    decreases |s|
  {
    if IndexOf(s, pat).None? {
      assert Split(s, pat) == [s];
    } else {
      var i := IndexOf(s, pat).value;
      var rest := s[i + |pat|..];
      JoinSplit(rest, pat);
      SplitStep(s, pat);
      JoinCons(s[..i], Split(rest, pat), pat, Split(s, pat));
      OccurrenceSplice(s, pat, i);
    }
  }

  /** Joining a piece in front of further pieces puts the separator between. */
  lemma JoinCons(a: string, t: seq<string>, pat: string, whole: seq<string>)
    requires |t| >= 1 && whole == [a] + t
    ensures Join(whole, pat) == a + pat + Join(t, pat)
  {
    assert whole[1..] == t;
  }

  /** An occurrence of `pat` at `i` splices `s` into before, `pat` and after. */
  lemma OccurrenceSplice(s: string, pat: string, i: nat)
    requires OccursAt(s, pat, i)
    ensures s == s[..i] + pat + s[i + |pat|..]
  {
    assert s == s[..i] + s[i..i + |pat|] + s[i + |pat|..];
  }

  /** A one-character pattern is absent from `s` exactly when its character is. */
  lemma FreeOfChar(s: string, c: char)
    ensures Free(s, [c]) <==> c !in s
  {
    if c in s {
      var j :| 0 <= j < |s| && s[j] == c;
      assert s[j..j + 1] == [c];
      assert OccursAt(s, [c], j);
    } else {
      forall j | 0 <= j < |s|
        ensures !OccursAt(s, [c], j)
      {
        assert s[j..j + 1][0] == s[j];
      }
    }
  }

  /** Splitting on a character that `a` lacks, right after `a`, cuts off exactly `a`. */
  lemma SplitAfterCharFree(a: string, c: char, b: string)
    requires c !in a
    ensures Split(a + [c] + b, [c]) == [a] + Split(b, [c])
  {
    var s := a + [c] + b;
    forall j | 0 <= j < |a|
      ensures !OccursAt(s, [c], j)
    {
      assert s[j..j + 1][0] == a[j];
    }
    assert s[|a|..|a| + 1] == [c];
    IndexOfIsFirst(s, [c], |a|);
    assert s[..|a|] == a;
    assert s[|a| + 1..] == b;
  }

  /** A string without the separator character splits into itself alone. */
  lemma SplitCharFree(a: string, c: char)
    ensures c !in a ==> Split(a, [c]) == [a]
  {
    FreeOfChar(a, c);
  }

  /** An occurrence of `pat` at `j` puts `pat[k]` at `s[j + k]`. */
  lemma OccurrenceChars(s: string, pat: string)
    ensures forall j, k :: OccursAt(s, pat, j) && 0 <= k < |pat| ==> s[j + k] == pat[k]
  {
    forall j, k | OccursAt(s, pat, j) && 0 <= k < |pat|
      ensures s[j + k] == pat[k]
    {
      assert s[j..j + |pat|][k] == s[j + k];
    }
  }

  /** A pattern with a character that `s` lacks does not occur in `s`. */
  lemma FreeOfMissingChar(s: string, pat: string, k: nat)
    requires k < |pat| && pat[k] !in s
    ensures Free(s, pat)
  {
  }

  /** `s` starts with `p`. */
  predicate IsPrefix(p: string, s: string) {
    |p| <= |s| && s[..|p|] == p
  }

  /** `p` is the longest prefix of `s` without `c`: it has no `c`, and it is
      either all of `s` or followed by a `c`. */
  predicate CutAtChar(p: string, s: string, c: char) {
    IsPrefix(p, s) && c !in p && (|p| == |s| || s[|p|] == c)
  }

  /** At most one prefix of `s` is cut at `c`. */
  lemma CutAtCharUnique(p: string, q: string, s: string, c: char)
    requires CutAtChar(p, s, c) && CutAtChar(q, s, c)
    ensures p == q
  {
  }

  /** The first piece of `s.split(c)` is `s` up to its first `c`. */
  lemma SplitCharFirstPiece(s: string, c: char)
    ensures CutAtChar(Split(s, [c])[0], s, c)
  {
    match IndexOf(s, [c])
    case None =>
      FreeOfChar(s, c);
    case Some(i) =>
      assert s[i..i + 1] == [c];
      assert Split(s, [c])[0] == s[..i];
      PrefixBeforeFirstIsFree(s, [c], i);
      FreeOfChar(s[..i], c);
  }

  /** The first piece of `s.split(pat)`: everything before the first
      occurrence of `pat`, or all of `s` when there is none. */
  lemma SplitFirstPiece(s: string, pat: string)
    requires |pat| > 0
    ensures IndexOf(s, pat).None? ==> Split(s, pat)[0] == s
    ensures IndexOf(s, pat).Some? ==> Split(s, pat)[0] == s[..IndexOf(s, pat).value]
  {
  }

  /** With `pat` present, the second piece of `s.split(pat)` is the first
      piece of what follows its first occurrence. */
  lemma SplitSecondPiece(s: string, pat: string)
    requires |pat| > 0 && IndexOf(s, pat).Some?
    ensures |Split(s, pat)| >= 2
    ensures Split(s, pat)[1] == Split(s[IndexOf(s, pat).value + |pat|..], pat)[0]
  {
    SplitStep(s, pat);
  }

  /** Past the first occurrence of `pat`, splitting goes on with the rest. */
  lemma SplitStep(s: string, pat: string)
    requires |pat| > 0 && IndexOf(s, pat).Some?
    ensures Split(s, pat) == [s[..IndexOf(s, pat).value]] + Split(s[IndexOf(s, pat).value + |pat|..], pat)
  {
  }

  /** Cutting at a pattern that begins with `c` and then at `c` is cutting at
      `c` alone: the pattern's own `c` comes no earlier than the first `c`. */
  lemma CutAtPatternThenChar(r: string, pat: string, c: char)
    requires |pat| > 0 && pat[0] == c
    ensures Split(Split(r, pat)[0], [c])[0] == Split(r, [c])[0]
  {
    SplitFirstPiece(r, pat);
    var p := Split(r, pat)[0];
    var q := Split(p, [c])[0];
    SplitCharFirstPiece(p, c);
    SplitCharFirstPiece(r, c);
    assert IsPrefix(p, r);
    if |q| == |p| && |p| < |r| {
      var i := IndexOf(r, pat).value;
      assert r[i..i + |pat|][0] == r[i];
    }
    assert CutAtChar(q, r, c);
    CutAtCharUnique(q, Split(r, [c])[0], r, c);
  }

  /** A string ending in the separator splits with an empty last piece. */
  lemma {:induction false} SplitEndingInChar(a: string, c: char)
    ensures Last(Split(a + [c], [c])) == ""
    decreases |a|
  {
    var s := a + [c];
    assert s[|a|..|a| + 1] == [c];
    assert OccursAt(s, [c], |a|);
    var i := IndexOf(s, [c]).value;
    assert s[i..i + 1] == [c];
    var rest := s[i + 1..];
    if i < |a| {
      SuffixOfSnoc(a, c, i + 1);
      assert rest == a[i + 1..] + [c];
      SplitEndingInChar(a[i + 1..], c);
    } else {
      assert rest == [];
    }
  }

  /** A suffix of `a + [c]` that starts inside `a` is a suffix of `a` followed by `c`. */
  lemma SuffixOfSnoc(a: string, c: char, k: nat)
    requires k <= |a|
    ensures (a + [c])[k..] == a[k..] + [c]
  {
  }

  /** The last element of a non-empty sequence (`Array.prototype.pop`'s result). */
  function Last<T>(xs: seq<T>): T
    requires |xs| > 0
  {
    xs[|xs| - 1]
  }

  predicate IsDigit(c: char) {
    '0' <= c <= '9'
  }

  predicate AllDigits(s: string) {
    forall i :: 0 <= i < |s| ==> IsDigit(s[i])
  }

  function DigitValue(c: char): nat
    requires IsDigit(c)
  {
    (c as int) - ('0' as int)
  }

  function DigitChar(d: nat): (c: char)
    requires d < 10
    ensures IsDigit(c) && DigitValue(c) == d
  {
    (('0' as int) + d) as char
  }

  /** The value of a string of decimal digits; `""` denotes 0, as `Number("")` does. */
  function DigitsValue(s: string): (v: nat)
    requires AllDigits(s)
    ensures |s| > 0 && s[0] == '0' ==> v == DigitsValue(s[1..])
  {
    if |s| == 0 then
      0
    else
      var init := s[..|s| - 1];
      assert |s| > 1 && s[0] == '0' ==> init[0] == '0' && init[1..] == s[1..][..|s| - 2];
      DigitsValue(init) * 10 + DigitValue(s[|s| - 1])
  }

  /** The decimal text of a natural number, without leading zeros; reading it
      back gives the number. */
  function NatToString(n: nat): (r: string)
    ensures |r| >= 1 && AllDigits(r)
    ensures DigitsValue(r) == n
    ensures r[0] == '0' ==> r == "0"
  {
    if n < 10 then
      [DigitChar(n)]
    else
      var r := NatToString(n / 10) + [DigitChar(n % 10)];
      assert r[..|r| - 1] == NatToString(n / 10);
      r
  }

  /** The decimal text of an integer, as `${n}` renders it: a `-` for a
      negative number, then the digits of its magnitude. */
  function IntToString(n: int): (r: string)
    ensures |r| >= 1
    ensures n >= 0 ==> AllDigits(r) && DigitsValue(r) == n
    ensures n < 0 ==> r[0] == '-' && AllDigits(r[1..]) && DigitsValue(r[1..]) == -n
  {
    if n < 0 then "-" + NatToString(-n) else NatToString(n)
  }
}
