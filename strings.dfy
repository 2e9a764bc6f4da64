/** Models of the JavaScript string and array built-ins the uploader relies on:
    `split` on one separator character, `join`, `pop`, `indexOf`, `lastIndexOf`,
    `substring`, `toLowerCase` (ASCII letters only) and the decimal rendering of a
    non-negative integer inside a template literal. */
module Strings {

  // ---------------------------------------------------------------------------
  // split / join
  // ---------------------------------------------------------------------------

  /** `parts.join(sep)` */
  function Join(parts: seq<string>, sep: string): string
  {
    if |parts| == 0 then ""
    else if |parts| == 1 then parts[0]
    else parts[0] + sep + Join(parts[1..], sep)
  }

  /** Joining after putting one more character in front of the first part. */
  lemma {:induction false} JoinPrepend(x: char, parts: seq<string>, sep: string)
    requires |parts| >= 1
    ensures Join([[x] + parts[0]] + parts[1..], sep) == [x] + Join(parts, sep)
  {
    var ps := [[x] + parts[0]] + parts[1..];
    assert ps[1..] == parts[1..];
  }

  /** `s.split(c)` for a one-character separator: never empty, no part holds the
      separator, and joining the parts with the separator gives `s` back. */
  function Split(s: string, c: char): (parts: seq<string>)
    ensures |parts| >= 1
    ensures forall k :: 0 <= k < |parts| ==> c !in parts[k]
    ensures Join(parts, [c]) == s
    decreases |s|
  {
    if s == [] then [""]
    else
      var rest := Split(s[1..], c);
      if s[0] == c then
        var r := [""] + rest;
        assert r[1..] == rest;
        r
      else
        var r := [[s[0]] + rest[0]] + rest[1..];
        assert forall k :: 1 <= k < |r| ==> r[k] == rest[k];
        JoinPrepend(s[0], rest, [c]);
        assert s == [s[0]] + s[1..];
        r
  }

  /** The last element: what `parts.pop()` returns. */
  function Last<T>(parts: seq<T>): T
    requires |parts| >= 1
  {
    parts[|parts| - 1]
  }

  /** `s.split(c).pop()` */
  function LastSegment(s: string, c: char): string
  {
    Last(Split(s, c))
  }

  /** `s.split(c)[0]` */
  function FirstSegment(s: string, c: char): string
  {
    Split(s, c)[0]
  }

  /** A string without the separator splits into itself alone. */
  lemma {:induction false} SplitWithoutSeparator(s: string, c: char)
    requires c !in s
    ensures Split(s, c) == [s]
    decreases |s|
  {
    if s != [] {
      SplitWithoutSeparator(s[1..], c);
      assert s == [s[0]] + s[1..];
    }
  }

  /** Splitting at a separator splits the two sides independently. */
  lemma {:induction false} SplitAround(a: string, b: string, c: char)
    ensures Split(a + [c] + b, c) == Split(a, c) + Split(b, c)
    decreases |a|
  {
    if a == [] {
      assert a + [c] + b == [c] + b;
      assert ([c] + b)[1..] == b;
    } else {
      var s := a + [c] + b;
      assert s[0] == a[0];
      assert s[1..] == a[1..] + [c] + b;
      SplitAround(a[1..], b, c);
    }
  }

  /** `split(c).length > 1` exactly when the separator occurs. */
  lemma SplitHasSeveralParts(s: string, c: char)
    ensures |Split(s, c)| > 1 <==> c in s
  {
    if c in s {
      var i :| 0 <= i < |s| && s[i] == c;
      assert s == s[..i] + [c] + s[i+1..];
      SplitAround(s[..i], s[i+1..], c);
    } else {
      SplitWithoutSeparator(s, c);
    }
  }

  /** `pop()` after a split returns the text after the last separator. */
  lemma LastSegmentAfter(a: string, b: string, c: char)
    requires c !in b
    ensures LastSegment(a + [c] + b, c) == b
  {
    SplitAround(a, b, c);
    SplitWithoutSeparator(b, c);
  }

  /** `[0]` after a split returns the text before the first separator. */
  lemma FirstSegmentBefore(a: string, b: string, c: char)
    requires c !in a
    ensures FirstSegment(a + [c] + b, c) == a
  {
    SplitAround(a, b, c);
    SplitWithoutSeparator(a, c);
  }

  /** Without a separator both `[0]` and `pop()` return the whole string. */
  lemma SegmentsWithoutSeparator(s: string, c: char)
    requires c !in s
    ensures FirstSegment(s, c) == s && LastSegment(s, c) == s
  {
    SplitWithoutSeparator(s, c);
  }

  /** `s.lastIndexOf(c)`: the index of the last occurrence, or -1. */
  function LastIndexOf(s: string, c: char): (r: int)
    ensures -1 <= r < |s|
    ensures r >= 0 ==> s[r] == c
    ensures forall k :: r < k < |s| ==> s[k] != c
    decreases |s|
  {
    if s == [] then -1
    else if s[|s| - 1] == c then |s| - 1
    else LastIndexOf(s[..|s| - 1], c)
  }

  /** `pop()` after a split is the text after `lastIndexOf`. */
  lemma LastSegmentIsAfterLastIndex(s: string, c: char)
    ensures LastSegment(s, c) == s[LastIndexOf(s, c) + 1..]
  {
    var i := LastIndexOf(s, c);
    if i < 0 {
      assert c !in s;
      SplitWithoutSeparator(s, c);
    } else {
      assert s == s[..i] + [c] + s[i+1..];
      LastSegmentAfter(s[..i], s[i+1..], c);
    }
  }

  /** `s.substring(0, s.lastIndexOf(c))`: a negative end counts as 0, so a string
      without the character gives the empty string. */
  function BeforeLast(s: string, c: char): (r: string)
    ensures c !in s ==> r == ""
    ensures c in s ==> r + [c] + LastSegment(s, c) == s
  {
    var i := LastIndexOf(s, c);
    LastSegmentIsAfterLastIndex(s, c);
    if i < 0 then "" else
      assert s == s[..i] + [c] + s[i+1..];
      s[..i]
  }

  /** `s.split(re)[0]` for a regular expression matching any one of `stops`:
      the text before the first stop character. */
  function BeforeAny(s: string, stops: set<char>): (r: string)
    ensures r <= s
    ensures forall k :: 0 <= k < |r| ==> r[k] !in stops
    ensures r == s || s[|r|] in stops
    decreases |s|
  {
    if s == [] || s[0] in stops then ""
    else [s[0]] + BeforeAny(s[1..], stops)
  }

  /** Replacing each occurrence of one character by another. */
  function Replace(s: string, from: char, to: char): (r: string)
    ensures |r| == |s|
    ensures forall k :: 0 <= k < |s| ==> r[k] == if s[k] == from then to else s[k]
  {
    if s == [] then []
    else [if s[0] == from then to else s[0]] + Replace(s[1..], from, to)
  }

  /** `s.split(c).join(d)` replaces every `c` by `d`. */
  lemma {:induction false} SplitJoinIsReplace(s: string, c: char, d: char)
    ensures Join(Split(s, c), [d]) == Replace(s, c, d)
    decreases |s|
  {
    if s != [] {
      var rest := Split(s[1..], c);
      SplitJoinIsReplace(s[1..], c, d);
      if s[0] == c {
        var r := [""] + rest;
        assert r[1..] == rest;
      } else {
        JoinPrepend(s[0], rest, [d]);
      }
    }
  }

  // ---------------------------------------------------------------------------
  // case, digits
  // ---------------------------------------------------------------------------

  /** `toLowerCase` on one character, for the ASCII letters. */
  function LowerChar(ch: char): char
  {
    if 'A' <= ch <= 'Z' then (ch as int + 32) as char else ch
  }

  /** `toLowerCase`, ASCII letters only. */
  function Lower(s: string): (r: string)
    ensures |r| == |s|
    ensures forall k :: 0 <= k < |s| ==> r[k] == LowerChar(s[k])
  {
    seq(|s|, k requires 0 <= k < |s| => LowerChar(s[k]))
  }

  predicate IsUpper(ch: char)
  {
    'A' <= ch <= 'Z'
  }

  /** Lowercasing leaves no upper-case letter and is idempotent. */
  lemma LowerIsLower(s: string)
    ensures forall k :: 0 <= k < |s| ==> !IsUpper(Lower(s)[k])
    ensures Lower(Lower(s)) == Lower(s)
  {
  }

  lemma LowerAppend(a: string, b: string)
    ensures Lower(a + b) == Lower(a) + Lower(b)
  {
    assert forall k :: 0 <= k < |a + b| ==> Lower(a + b)[k] == (Lower(a) + Lower(b))[k];
  }

  predicate IsDigit(ch: char)
  {
    '0' <= ch <= '9'
  }

  function DigitChar(d: nat): (ch: char)
    requires d < 10
    ensures IsDigit(ch)
  {
    ('0' as int + d) as char
  }

  /** The decimal rendering of a non-negative integer, as `${n}` produces it. */
  function NatToString(n: nat): (r: string)
    ensures |r| >= 1
    ensures forall k :: 0 <= k < |r| ==> IsDigit(r[k])
  {
    if n < 10 then [DigitChar(n)]
    else NatToString(n / 10) + [DigitChar(n % 10)]
  }

  /** The value of a string of decimal digits. */
  function DigitsValue(s: string): nat
    requires forall k :: 0 <= k < |s| ==> IsDigit(s[k])
  {
    if s == [] then 0
    else DigitsValue(s[..|s| - 1]) * 10 + DigitValue(s[|s| - 1])
  }

  function DigitValue(ch: char): nat
    requires IsDigit(ch)
  {
    ch as int - '0' as int
  }

  /** Reading the digits back gives the number: rendering is injective. */
  lemma {:induction false} NatToStringRoundTrip(n: nat)
    ensures DigitsValue(NatToString(n)) == n
  {
    if n >= 10 {
      var r := NatToString(n);
      var p := NatToString(n / 10);
      assert r[..|r| - 1] == p;
      NatToStringRoundTrip(n / 10);
    }
  }

  lemma NatToStringInjective(a: nat, b: nat)
    requires a != b
    ensures NatToString(a) != NatToString(b)
  {
    NatToStringRoundTrip(a);
    NatToStringRoundTrip(b);
  }

  // ---------------------------------------------------------------------------
  // searching
  // ---------------------------------------------------------------------------

  /** `xs.indexOf(x)`: the first index holding `x`, or -1. */
  function IndexOf<T(==)>(xs: seq<T>, x: T): (r: int)
    ensures -1 <= r < |xs|
    ensures r == -1 <==> x !in xs
    ensures r >= 0 ==> xs[r] == x && x !in xs[..r]
  {
    if xs == [] then -1
    else if xs[0] == x then 0
    else
      var r := IndexOf(xs[1..], x);
      assert xs == [xs[0]] + xs[1..];
      if r == -1 then -1
      else
        assert xs[..r + 1] == [xs[0]] + xs[1..][..r];
        r + 1
  }

  /** `xs.includes(x)` */
  predicate Includes<T(==)>(xs: seq<T>, x: T)
  {
    IndexOf(xs, x) != -1
  }

  /** Only the last separator of a string can be the one followed by a
      separator-free tail: the split point is unique. */
  lemma LastSeparatorUnique(x1: string, y1: string, x2: string, y2: string, c: char)
    requires x1 + [c] + y1 == x2 + [c] + y2
    requires c !in y1 && c !in y2
    ensures x1 == x2 && y1 == y2
  {
    LastSegmentAfter(x1, y1, c);
    LastSegmentAfter(x2, y2, c);
    var s := x1 + [c] + y1;
    assert x1 == s[..|x1|] && x2 == s[..|x2|];
  }

  predicate StartsWith(s: string, prefix: string)
  {
    |prefix| <= |s| && s[..|prefix|] == prefix
  }

  predicate EndsWith(s: string, suffix: string)
  {
    |suffix| <= |s| && s[|s| - |suffix|..] == suffix
  }

  /** Every string starts with itself. */
  lemma StartsWithSelf(s: string)
    ensures StartsWith(s, s)
  {
  }

  /** Appending keeps a prefix. */
  lemma StartsWithExtend(x: string, y: string, prefix: string)
    requires StartsWith(x, prefix)
    ensures StartsWith(x + y, prefix)
  {
    assert (x + y)[..|prefix|] == x[..|prefix|];
  }

  /** A string ends with what was appended last. */
  lemma EndsWithSuffix(x: string, suffix: string)
    ensures EndsWith(x + suffix, suffix)
  {
    assert (x + suffix)[|x|..] == suffix;
  }

  /** Appending the same text to a string and its suffix keeps the suffix. */
  lemma EndsWithExtend(x: string, suffix: string, y: string)
    requires EndsWith(x, suffix)
    ensures EndsWith(x + y, suffix + y)
  {
    assert (x + y)[|x + y| - |suffix + y|..] == x[|x| - |suffix|..] + y;
  }

  /** `pat` occurs in `s` starting at index `i`. */
  predicate OccursAt(s: string, pat: string, i: int)
  {
    0 <= i && i + |pat| <= |s| && s[i..i + |pat|] == pat
  }

  /** `s.indexOf(pat, from)` for a string pattern: the first occurrence at or
      after `from`, or -1. */
  function IndexOfFrom(s: string, pat: string, from: nat): (r: int)
    ensures r == -1 || (from <= r && OccursAt(s, pat, r))
    ensures forall i :: from <= i && (r == -1 || i < r) ==> !OccursAt(s, pat, i)
    decreases |s| - from
  {
    if from + |pat| > |s| then -1
    else if s[from..from + |pat|] == pat then from
    else IndexOfFrom(s, pat, from + 1)
  }

  /** `s.indexOf(pat)` */
  function IndexOfString(s: string, pat: string): (r: int)
    ensures r == -1 <==> forall i :: !OccursAt(s, pat, i)
    ensures r >= 0 ==> OccursAt(s, pat, r) && forall i :: 0 <= i < r ==> !OccursAt(s, pat, i)
  {
    var r := IndexOfFrom(s, pat, 0);
    assert forall i :: OccursAt(s, pat, i) ==> 0 <= i;
    r
  }

  /** `s.indexOf(pat) === 0` is `s` starting with `pat`. */
  lemma IndexOfStringZero(s: string, pat: string)
    ensures IndexOfString(s, pat) == 0 <==> StartsWith(s, pat)
  {
    if StartsWith(s, pat) {
      assert OccursAt(s, pat, 0);
    }
  }

  predicate Contains(s: string, pat: string)
  {
    exists i :: 0 <= i <= |s| && OccursAt(s, pat, i)
  }

  /** Each part of a join occurs in the joined string. */
  lemma {:induction false} JoinContainsParts(parts: seq<string>, sep: string, k: nat)
    requires k < |parts|
    ensures Contains(Join(parts, sep), parts[k])
    decreases |parts|
  {
    var j := Join(parts, sep);
    if |parts| == 1 {
      assert OccursAt(j, parts[k], 0);
    } else if k == 0 {
      assert j == parts[0] + (sep + Join(parts[1..], sep));
      assert OccursAt(j, parts[0], 0);
    } else {
      JoinContainsParts(parts[1..], sep, k - 1);
      var rest := Join(parts[1..], sep);
      var i :| 0 <= i <= |rest| && OccursAt(rest, parts[k], i);
      assert i + |parts[k]| <= |rest| && rest[i..i + |parts[k]|] == parts[k];
      var off := |parts[0]| + |sep|;
      assert j == (parts[0] + sep) + rest;
      assert |j| == off + |rest|;
      assert j[off..] == rest;
      assert j[off + i..off + i + |parts[k]|] == j[off..][i..i + |parts[k]|];
      assert OccursAt(j, parts[k], off + i);
    }
  }

  /** Whatever occurs in `s` still occurs after something is put in front of it
      or after it. */
  lemma ContainsInContext(p: string, s: string, q: string, pat: string)
    requires Contains(s, pat)
    ensures Contains(p + s + q, pat)
  {
    var i :| 0 <= i <= |s| && OccursAt(s, pat, i);
    var t := p + s + q;
    assert t[|p| + i..|p| + i + |pat|] == s[i..i + |pat|];
    assert OccursAt(t, pat, |p| + i);
  }

  /** `s.indexOf(pat) !== -1` is `pat` occurring in `s`. */
  lemma IndexOfStringFound(s: string, pat: string)
    ensures IndexOfString(s, pat) != -1 <==> Contains(s, pat)
  {
    if IndexOfString(s, pat) != -1 {
      assert OccursAt(s, pat, IndexOfString(s, pat));
    }
  }
}
