/** JavaScript string primitives: `indexOf`, `substring` (with its argument
    clamping) and `split` on a one-character separator, which lib/git.js
    relies on, and `lastIndexOf`, which only the corrected reading of the
    remote URL uses. Strings are sequences of characters. */
module JsString {

  /** `pat` occurs in `s` starting at index `i`. */
  predicate OccursAt(s: string, pat: string, i: int)
  {
    0 <= i && i + |pat| <= |s| && s[i..i + |pat|] == pat
  }

  /** `s.indexOf(pat, from)`: the first occurrence at or after `from`, or -1. */
  function IndexOfFrom(s: string, pat: string, from: nat): (r: int)
    ensures r == -1 || (from <= r && OccursAt(s, pat, r))
    ensures r == -1 ==> forall i :: from <= i ==> !OccursAt(s, pat, i)
    ensures r != -1 ==> forall i :: from <= i < r ==> !OccursAt(s, pat, i)
    decreases |s| - from
  {
    if from + |pat| > |s| then -1
    else if s[from..from + |pat|] == pat then from
    else IndexOfFrom(s, pat, from + 1)
  }

  /** `s.indexOf(pat)`. */
  function IndexOf(s: string, pat: string): int
  {
    IndexOfFrom(s, pat, 0)
  }

  /** `s.indexOf(pat) !== -1`. */
  predicate Contains(s: string, pat: string)
  {
    IndexOf(s, pat) != -1
  }

  /** `s.lastIndexOf(pat)` restricted to occurrences starting at or before `i`. */
  function LastIndexOfUpTo(s: string, pat: string, i: int): (r: int)
    ensures r == -1 || (r <= i && OccursAt(s, pat, r))
    ensures forall j :: r < j <= i ==> !OccursAt(s, pat, j)
    decreases i
  {
    if i < 0 then -1
    else if OccursAt(s, pat, i) then i
    else LastIndexOfUpTo(s, pat, i - 1)
  }

  /** `s.lastIndexOf(pat)`. */
  function LastIndexOf(s: string, pat: string): int
  {
    LastIndexOfUpTo(s, pat, |s| - |pat|)
  }

  /** `s.startsWith(p)`. */
  predicate StartsWith(s: string, p: string)
  {
    |p| <= |s| && s[..|p|] == p
  }

  /** JavaScript clamps a `substring` argument into `0..length`. */
  function Clamp(x: int, len: nat): nat
  {
    if x < 0 then 0 else if x > len then len else x
  }

  /** `s.substring(start, end)`: both arguments are clamped into range and
      swapped when `start` exceeds `end`, so it never throws. */
  function Substring(s: string, start: int, end: int): (r: string)
    ensures |r| <= |s|
    ensures 0 <= start <= end <= |s| ==> r == s[start..end]
    ensures end <= 0 ==> r == s[..Clamp(start, |s|)]
  {
    var a := Clamp(start, |s|);
    var b := Clamp(end, |s|);
    if a <= b then s[a..b] else s[b..a]
  }

  /** `s.substring(start)`. */
  function SubstringFrom(s: string, start: int): (r: string)
    ensures 0 <= start <= |s| ==> r == s[start..]
  {
    Substring(s, start, |s|)
  }

  /** Joining parts with `sep` between consecutive ones: `parts.join(sep)`. */
  function Join(parts: seq<string>, sep: char): string
    requires |parts| >= 1
  {
    if |parts| == 1 then parts[0] else parts[0] + [sep] + Join(parts[1..], sep)
  }

  /** `s.split(sep)` for a one-character separator. */
  function Split(s: string, sep: char): (parts: seq<string>)
    ensures |parts| >= 1
  {
    if |s| == 0 then [""]
    else
      var rest := Split(s[1..], sep);
      if s[0] == sep then [""] + rest
      else [[s[0]] + rest[0]] + rest[1..]
  }

  /** The pieces of `s.split(sep)` are free of the separator and join back
      to `s`: splitting loses nothing. */
  lemma {:induction false} SplitJoin(s: string, sep: char)
    ensures forall k :: 0 <= k < |Split(s, sep)| ==> sep !in Split(s, sep)[k]
    ensures Join(Split(s, sep), sep) == s
    decreases |s|
  {
    if |s| > 0 {
      var rest := Split(s[1..], sep);
      SplitJoin(s[1..], sep);
      var parts := Split(s, sep);
      if s[0] == sep {
        assert parts == [""] + rest;
        assert parts[1..] == rest;
      } else {
        assert parts == [[s[0]] + rest[0]] + rest[1..];
        assert parts[1..] == rest[1..];
        assert forall k :: 1 <= k < |parts| ==> parts[k] == rest[k];
        if |rest| > 1 {
          assert Join(rest, sep) == rest[0] + [sep] + Join(rest[1..], sep);
        }
      }
      assert s == [s[0]] + s[1..];
    }
  }

  /** A string without the separator splits into itself alone. */
  lemma {:induction false} SplitNoSeparator(s: string, sep: char)
    requires sep !in s
    ensures Split(s, sep) == [s]
    decreases |s|
  {
    if |s| > 0 {
      assert sep !in s[1..];
      SplitNoSeparator(s[1..], sep);
      assert s == [s[0]] + s[1..];
    }
  }

  /** A text splits into one piece exactly when it has no separator. */
  lemma SplitNoSeparatorIff(s: string, sep: char)
    ensures |Split(s, sep)| == 1 <==> sep !in s
  {
    if sep !in s {
      SplitNoSeparator(s, sep);
    } else {
      SplitJoin(s, sep);
    }
  }

  /** Splitting distributes over a separator: `(a + sep + b).split(sep)` is
      `a.split(sep)` followed by `b.split(sep)`. */
  lemma {:induction false} SplitAtSeparator(a: string, b: string, sep: char)
    ensures Split(a + [sep] + b, sep) == Split(a, sep) + Split(b, sep)
  {
    if |a| == 0 {
      assert a + [sep] + b == [sep] + b;
      assert ([sep] + b)[1..] == b;
    } else {
      assert (a + [sep] + b)[1..] == a[1..] + [sep] + b;
      SplitAtSeparator(a[1..], b, sep);
    }
  }

  /** A separator-free piece, a separator, then the rest. */
  lemma SplitCons(a: string, rest: string, sep: char)
    requires sep !in a
    ensures Split(a + [sep] + rest, sep) == [a] + Split(rest, sep)
  {
    SplitAtSeparator(a, rest, sep);
    SplitNoSeparator(a, sep);
  }

  /** The first occurrence of a character that `x` lacks is right after `x`. */
  lemma IndexOfFirstChar(x: string, c: char, y: string)
    requires c !in x
    ensures IndexOf(x + [c] + y, [c]) == |x|
  {
    var s := x + [c] + y;
    assert OccursAt(s, [c], |x|);
    forall i | 0 <= i < |x|
      ensures !OccursAt(s, [c], i)
    {
      assert s[i] == x[i];
    }
  }

  /** A character that does not occur is not found. */
  lemma IndexOfAbsentChar(s: string, c: char)
    requires c !in s
    ensures IndexOf(s, [c]) == -1
  {
    forall i | 0 <= i < |s|
      ensures !OccursAt(s, [c], i)
    {
      assert s[i..i + 1][0] == s[i] != c;
    }
  }

  /** A pattern whose first character does not occur is not found. */
  lemma IndexOfAbsentHead(s: string, pat: string)
    requires |pat| > 0 && pat[0] !in s
    ensures IndexOf(s, pat) == -1
  {
    forall i | 0 <= i < |s|
      ensures !OccursAt(s, pat, i)
    {
      assert s[i] != pat[0];
      if i + |pat| <= |s| {
        assert s[i..i + |pat|][0] == s[i];
      }
    }
  }

  /** In `x + ".git" + "\n"` the last ".git" is the suffix. */
  lemma LastGitIsSuffix(x: string)
    ensures LastIndexOf(x + ".git\n", ".git") == |x|
  {
    var s := x + ".git\n";
    assert s[|x| + 1] == 'g';
    assert !OccursAt(s, ".git", |x| + 1);
    assert s[|x|..|x| + 4] == ".git";
    assert OccursAt(s, ".git", |x|);
  }

  /** In `x + ".git" + y` the first ".git" is the one after `x`, provided
      `x` has none of its own: no occurrence can straddle the boundary,
      since the pattern's only `.` is its first character. */
  lemma FirstGitAfter(x: string, y: string)
    requires !Contains(x, ".git")
    ensures IndexOf(x + ".git" + y, ".git") == |x|
  {
    var s := x + ".git" + y;
    assert s[|x|..|x| + 4] == ".git";
    assert OccursAt(s, ".git", |x|);
    forall i | 0 <= i < |x|
      ensures !OccursAt(s, ".git", i)
    {
      if i + 4 <= |x| {
        assert s[i..i + 4] == x[i..i + 4];
        assert !OccursAt(x, ".git", i);
      } else {
        var k := |x| - i;
        assert s[i + k] == '.' && ".git"[k] != '.';
        assert s[i..i + 4][k] == s[i + k];
      }
    }
  }

  /** A pattern placed between two strings is found there. */
  lemma OccursBetween(x: string, pat: string, y: string)
    ensures OccursAt(x + pat + y, pat, |x|)
    ensures Contains(x + pat + y, pat)
  {
    var s := x + pat + y;
    assert s[|x|..|x| + |pat|] == pat;
    assert OccursAt(s, pat, |x|);
    assert IndexOf(s, pat) == IndexOfFrom(s, pat, 0);
  }
}
