/** The branch-name helpers of lib/util.js: the slugger `toDashCase`, and
    the two helpers the rest of the program and its tests use but the file
    does not define (`toIssueNumberAndName`, `toSpaceCase`), given here as
    reconstructions that agree with the tests. */
module Util {
  import opened Wrappers
  import JsString

  /** What the loop body of `toDashCase` appends for one character: a
      space after a space adds nothing (`continue`), any other space adds
      `-`, any other character itself. */
  function StepOutput(c: char, afterSpace: bool): string
  {
    if c == ' ' then (if afterSpace then "" else "-") else [c]
  }

  /** `toDashCase` as the single pass the source performs: `afterSpace`
      is the `lastCharIsSpace` flag carried from character to character. */
  function DashCaseFrom(s: string, afterSpace: bool): string
  {
    if |s| == 0 then "" else StepOutput(s[0], afterSpace) + DashCaseFrom(s[1..], s[0] == ' ')
  }

  /** The flag value after consuming `s` from state `afterSpace`. */
  function EndsAfterSpace(s: string, afterSpace: bool): bool
  {
    if |s| == 0 then afterSpace else s[|s| - 1] == ' '
  }

  /** The reference slugging, stated by looking ahead rather than back:
      a space followed by another space is dropped and any other space
      becomes `-`, so each maximal run of spaces leaves exactly one dash. */
  function DashCase(s: string): string
  {
    if |s| == 0 then ""
    else if s[0] == ' ' then
      if |s| > 1 && s[1] == ' ' then DashCase(s[1..]) else "-" + DashCase(s[1..])
    else [s[0]] + DashCase(s[1..])
  }

  /** The slug of any text holds no space. */
  lemma {:induction false} DashCaseHasNoSpace(s: string)
    ensures ' ' !in DashCase(s)
    decreases |s|
  {
    if |s| > 0 {
      DashCaseHasNoSpace(s[1..]);
    }
  }

  /** `toDashCase(str)`: the loop of the source, proved to compute the
      run-collapsing reference and never to emit a space. */
  method ToDashCase(str: string) returns (newStr: string)
    ensures newStr == DashCase(str)
    ensures forall i :: 0 <= i < |newStr| ==> newStr[i] != ' '
  {
    var lastCharIsSpace := false;
    newStr := "";
    var i := 0;
    while i < |str|
      invariant 0 <= i <= |str|
      invariant newStr + DashCaseFrom(str[i..], lastCharIsSpace) == DashCaseFrom(str, false)
      invariant lastCharIsSpace <==> i > 0 && str[i - 1] == ' '
      invariant lastCharIsSpace ==> |newStr| > 0 && newStr[|newStr| - 1] == '-'
    {
      var c := str[i];
      DashCaseFromStep(str, i, lastCharIsSpace);
      ghost var before, wasSpace := newStr, lastCharIsSpace;
      if c == ' ' {
        if !lastCharIsSpace {
          newStr := newStr + "-";
        }
        lastCharIsSpace := true;
      } else {
        newStr := newStr + [c];
        lastCharIsSpace := false;
      }
      assert newStr == before + StepOutput(c, wasSpace);
      SeqAssoc(before, StepOutput(c, wasSpace), DashCaseFrom(str[i + 1..], c == ' '));
      i := i + 1;
    }
    assert str[i..] == [];
    DashCaseFromAgrees(str);
    DashCaseHasNoSpace(str);
  }

  /** One iteration of the pass over the suffix from `i`. */
  lemma DashCaseFromStep(s: string, i: nat, afterSpace: bool)
    requires i < |s|
    ensures DashCaseFrom(s[i..], afterSpace) == StepOutput(s[i], afterSpace) + DashCaseFrom(s[i + 1..], s[i] == ' ')
  {
    assert s[i..][0] == s[i] && s[i..][1..] == s[i + 1..];
  }

  /** The single pass agrees with the look-ahead reference; started just
      after a space it yields what follows that space's dash. */
  lemma {:induction false} DashCaseFromAgrees(s: string)
    ensures DashCaseFrom(s, false) == DashCase(s)
    ensures "-" + DashCaseFrom(s, true) == DashCase(" " + s)
    decreases |s|
  {
    if |s| > 0 {
      DashCaseFromAgrees(s[1..]);
      assert (" " + s)[1..] == s;
      if s[0] == ' ' {
        assert " " + s[1..] == s;
      }
    }
  }

  /** The pass over a concatenation is the pass over each part, the second
      one starting from the state the first one ends in. */
  lemma {:induction false} DashCaseFromAppend(a: string, b: string, afterSpace: bool)
    ensures DashCaseFrom(a + b, afterSpace)
         == DashCaseFrom(a, afterSpace) + DashCaseFrom(b, EndsAfterSpace(a, afterSpace))
    decreases |a|
  {
    if |a| == 0 {
      assert a + b == b;
    } else {
      var st := a[0] == ' ';
      var head := StepOutput(a[0], afterSpace);
      var tail := DashCaseFrom(b, EndsAfterSpace(a, afterSpace));
      assert (a + b)[0] == a[0] && (a + b)[1..] == a[1..] + b;
      assert EndsAfterSpace(a[1..], st) == EndsAfterSpace(a, afterSpace) by {
        if |a| > 1 {
          assert a[1..][|a| - 2] == a[|a| - 1];
        }
      }
      calc {
        DashCaseFrom(a + b, afterSpace);
        head + DashCaseFrom(a[1..] + b, st);
        { DashCaseFromAppend(a[1..], b, st); }
        head + (DashCaseFrom(a[1..], st) + tail);
        (head + DashCaseFrom(a[1..], st)) + tail;
        DashCaseFrom(a, afterSpace) + tail;
      }
    }
  }

  /** Slugging a concatenation slugs the parts separately, unless a run of
      spaces straddles the boundary. */
  lemma DashCaseAppend(a: string, b: string)
    requires a == [] || b == [] || a[|a| - 1] != ' ' || b[0] != ' '
    ensures DashCase(a + b) == DashCase(a) + DashCase(b)
  {
    DashCaseFromAppend(a, b, false);
    DashCaseFromAgrees(a + b);
    DashCaseFromAgrees(a);
    DashCaseFromAgrees(b);
  }

  /** A run of `n` spaces. */
  function Spaces(n: nat): (r: string)
    ensures |r| == n && forall i :: 0 <= i < n ==> r[i] == ' '
  {
    if n == 0 then "" else " " + Spaces(n - 1)
  }

  /** Every maximal run of one or more spaces becomes exactly one `-`:
      there is no trimming at either end and no other change around it. */
  lemma SpaceRunBecomesOneDash(w1: string, n: nat, w2: string)
    requires n >= 1
    requires w1 == [] || w1[|w1| - 1] != ' '
    requires w2 == [] || w2[0] != ' '
    ensures DashCase(w1 + Spaces(n) + w2) == DashCase(w1) + "-" + DashCase(w2)
  {
    var run := Spaces(n);
    var tail := run + w2;
    var x, y := DashCase(w1), DashCase(w2);
    assert DashCase(tail) == "-" + y by { SpacesThen(n, w2); }
    assert DashCase(w1 + tail) == x + DashCase(tail) by {
      assert tail[0] == ' ';
      DashCaseAppend(w1, tail);
    }
    SeqAssoc(w1, run, w2);
    SeqAssoc(x, "-", y);
  }

  lemma SeqAssoc(a: string, b: string, c: string)
    ensures a + b + c == a + (b + c)
  {
  }

  /** A leading run of spaces becomes a leading dash. */
  lemma SpacesThen(n: nat, w: string)
    requires n >= 1
    requires w == [] || w[0] != ' '
    ensures DashCase(Spaces(n) + w) == "-" + DashCase(w)
  {
    var run := Spaces(n);
    DashCaseOfSpaces(n);
    assert run[|run| - 1] == ' ';
    DashCaseAppend(run, w);
  }

  /** A run of spaces on its own becomes a single dash. */
  lemma {:induction false} DashCaseOfSpaces(n: nat)
    requires n >= 1
    ensures DashCase(Spaces(n)) == "-"
  {
    if n > 1 {
      DashCaseOfSpaces(n - 1);
      assert Spaces(n)[1..] == Spaces(n - 1);
    }
  }

  /** Without spaces there is nothing to do: every character, including an
      existing `-`, is copied in order. */
  lemma {:induction false} DashCaseIdentity(s: string)
    requires ' ' !in s
    ensures DashCase(s) == s
    decreases |s|
  {
    if |s| > 0 {
      assert ' ' !in s[1..] by { assert forall i :: 0 <= i < |s| - 1 ==> s[1..][i] == s[i + 1]; }
      DashCaseIdentity(s[1..]);
    }
  }

  /** Slugging twice is slugging once. */
  lemma DashCaseIdempotent(s: string)
    ensures DashCase(DashCase(s)) == DashCase(s)
  {
    DashCaseHasNoSpace(s);
    DashCaseIdentity(DashCase(s));
  }

  /** The number of spaces in `s` immediately preceded by a space (the first
      character counts as preceded by one when `afterSpace` holds). */
  function RepeatedSpaces(s: string, afterSpace: bool): nat
  {
    if |s| == 0 then 0
    else (if s[0] == ' ' && afterSpace then 1 else 0) + RepeatedSpaces(s[1..], s[0] == ' ')
  }

  /** Only a character after another can be a repeated space. */
  lemma {:induction false} RepeatedSpacesBound(s: string, afterSpace: bool)
    ensures RepeatedSpaces(s, afterSpace) <= |s| - (if afterSpace || |s| == 0 then 0 else 1)
    decreases |s|
  {
    if |s| > 0 {
      RepeatedSpacesBound(s[1..], s[0] == ' ');
    }
  }

  lemma {:induction false} DashCaseFromLength(s: string, afterSpace: bool)
    ensures |DashCaseFrom(s, afterSpace)| == |s| - RepeatedSpaces(s, afterSpace)
    decreases |s|
  {
    if |s| > 0 {
      DashCaseFromLength(s[1..], s[0] == ' ');
    }
  }

  /** The slug is as long as the input less the spaces that follow a space;
      so it is never longer, and it is empty exactly when the input is. */
  lemma DashCaseLength(s: string)
    ensures |DashCase(s)| == |s| - RepeatedSpaces(s, false)
    ensures |DashCase(s)| <= |s|
    ensures DashCase(s) == [] <==> s == []
  {
    RepeatedSpacesBound(s, false);
    DashCaseFromLength(s, false);
    DashCaseFromAgrees(s);
  }

  /** A character other than a space is kept. */
  lemma DashCaseKeeps(c: char, t: string)
    requires c != ' '
    ensures DashCase([c] + t) == [c] + DashCase(t)
  {
    assert ([c] + t)[1..] == t;
  }

  /** The last space of a run becomes a dash. */
  lemma DashCaseDashes(t: string)
    requires t == [] || t[0] != ' '
    ensures DashCase([' '] + t) == "-" + DashCase(t)
  {
    assert ([' '] + t)[1..] == t;
  }

  /** A space followed by a space is dropped. */
  lemma DashCaseDrops(t: string)
    requires t != [] && t[0] == ' '
    ensures DashCase([' '] + t) == DashCase(t)
  {
    assert ([' '] + t)[1..] == t;
  }

  /** The tail of the example: a word, three spaces, a word. */
  lemma DashCaseThreeSpaces(c: char, d: char)
    requires c != ' ' && d != ' '
    ensures DashCase([c, ' ', ' ', ' ', d]) == [c, '-', d]
  {
    var t1 := [' ', d];
    var t2 := [' '] + t1;
    var t3 := [' '] + t2;
    DashCaseKeeps(d, []);
    assert [d] + [] == [d] && t1 == [' '] + [d];
    DashCaseDashes([d]);
    DashCaseDrops(t1);
    DashCaseDrops(t2);
    DashCaseKeeps(c, t3);
    assert [c] + t3 == [c, ' ', ' ', ' ', d];
  }

  /** Words separated by runs of one, two and three spaces come out
      separated by single dashes. */
  lemma DashCaseSpacedWords(a: char, b: char, c: char, d: char)
    requires a != ' ' && b != ' ' && c != ' ' && d != ' '
    ensures DashCase([a, ' ', b, ' ', ' ', c, ' ', ' ', ' ', d]) == [a, '-', b, '-', c, '-', d]
  {
    var t4 := [c, ' ', ' ', ' ', d];
    DashCaseThreeSpaces(c, d);
    var t5 := [' '] + t4;
    var t6 := [' '] + t5;
    var t7 := [b] + t6;
    var t8 := [' '] + t7;
    DashCaseDashes(t4);
    DashCaseDrops(t5);
    DashCaseKeeps(b, t6);
    DashCaseDashes(t7);
    DashCaseKeeps(a, t8);
    assert [a] + t8 == [a, ' ', b, ' ', ' ', c, ' ', ' ', ' ', d];
  }

  /** The example of lib/util.test.js. */
  lemma DashCaseExample()
    ensures DashCase("a b  c   d") == "a-b-c-d"
  {
    DashCaseSpacedWords('a', 'b', 'c', 'd');
  }

  /** Dashes already present are not collapsed: "a- b" becomes "a--b". */
  lemma DashesAreKept()
    ensures DashCase("a- b") == "a--b"
  {
  }

  /** `toSpaceCase` (reconstructed): every `-` becomes a space. */
  function SpaceCase(s: string): string
  {
    seq(|s|, i requires 0 <= i < |s| => if s[i] == '-' then ' ' else s[i])
  }

  /** No two neighbouring characters are both `c`. */
  predicate NoDoubled(s: string, c: char)
  {
    forall i :: 0 <= i < |s| - 1 ==> !(s[i] == c && s[i + 1] == c)
  }

  /** On text without dashes and without double spaces, `toSpaceCase`
      undoes slugging. */
  lemma {:induction false} SpaceCaseUndoesDashCase(s: string)
    requires '-' !in s && NoDoubled(s, ' ')
    ensures SpaceCase(DashCase(s)) == s
    decreases |s|
  {
    if |s| > 0 {
      assert '-' !in s[1..] && NoDoubled(s[1..], ' ') by {
        assert forall i :: 0 <= i < |s| - 1 ==> s[1..][i] == s[i + 1];
      }
      SpaceCaseUndoesDashCase(s[1..]);
      assert SpaceCase(DashCase(s)) == [s[0]] + SpaceCase(DashCase(s[1..]));
      assert s == [s[0]] + s[1..];
    }
  }

  /** Conversely, on a slug without spaces and without double dashes,
      slugging undoes `toSpaceCase`. */
  lemma {:induction false} DashCaseUndoesSpaceCase(t: string)
    requires ' ' !in t && NoDoubled(t, '-')
    ensures DashCase(SpaceCase(t)) == t
    decreases |t|
  {
    if |t| > 0 {
      assert ' ' !in t[1..] && NoDoubled(t[1..], '-') by {
        assert forall i :: 0 <= i < |t| - 1 ==> t[1..][i] == t[i + 1];
      }
      DashCaseUndoesSpaceCase(t[1..]);
      var u := SpaceCase(t);
      assert u[1..] == SpaceCase(t[1..]);
      assert t == [t[0]] + t[1..];
    }
  }

  /** The example of lib/util.test.js. */
  lemma SpaceCaseExample()
    ensures SpaceCase("a-b-c-d") == "a b c d"
  {
  }

  /** The error `toIssueNumberAndName` throws in lib/util.test.js. */
  const FormatError := "Your branch name is not in the format: {issue_number}-{feature_name}"

  datatype IssueRef = IssueRef(issueNumber: string, issueName: string)

  /** A non-empty run of decimal digits. */
  predicate IsNumeric(t: string)
  {
    |t| > 0 && forall i :: 0 <= i < |t| ==> '0' <= t[i] <= '9'
  }

  /** `toIssueNumberAndName(branch)` (reconstructed): the text before the
      first `-` is the issue number and must be numeric; the rest, with
      dashes read as spaces, is the non-empty issue name. */
  function ToIssueNumberAndName(branch: string): (r: Result<IssueRef>)
    ensures r.Err? ==> r.error == FormatError
    ensures r.Ok? ==> IsNumeric(r.value.issueNumber) && r.value.issueName != []
    ensures r.Ok? ==> |r.value.issueNumber| < |branch|
                      && branch[..|r.value.issueNumber|] == r.value.issueNumber
                      && '-' !in r.value.issueNumber
    ensures r.Ok? ==> branch[|r.value.issueNumber|] == '-'
                      && r.value.issueName == SpaceCase(branch[|r.value.issueNumber| + 1..])
  {
    var dash := JsString.IndexOf(branch, "-");
    if dash == -1 then Err(FormatError)
    else
      var number := branch[..dash];
      var name := SpaceCase(branch[dash + 1..]);
      if IsNumeric(number) && name != [] then Ok(IssueRef(number, name)) else Err(FormatError)
  }

  /** A branch `{issue}-{slug}` parses back into its issue number, and the
      slug, dashes read as spaces, into its name. */
  lemma IssueBranchRoundTrip(number: string, slug: string)
    requires IsNumeric(number) && slug != []
    ensures ToIssueNumberAndName(number + "-" + slug) == Ok(IssueRef(number, SpaceCase(slug)))
  {
    assert '-' !in number by {
      assert forall i :: 0 <= i < |number| ==> number[i] != '-';
    }
    JsString.IndexOfFirstChar(number, '-', slug);
    var b := number + "-" + slug;
    assert b[..|number|] == number && b[|number| + 1..] == slug;
  }

  /** A branch whose text before the first dash is not a number, or that
      has no dash at all, is rejected with the format error. */
  lemma IssueBranchRejected(branch: string)
    requires !JsString.Contains(branch, "-")
          || !IsNumeric(branch[..JsString.IndexOf(branch, "-")])
    ensures ToIssueNumberAndName(branch) == Err(FormatError)
  {
  }

  /** A branch is an issue branch exactly when it is a run of digits, a
      dash, and at least one more character. */
  predicate IsIssueBranch(branch: string)
  {
    exists k :: 0 <= k && k + 1 < |branch| && branch[k] == '-' && IsNumeric(branch[..k])
  }

  /** Parsing succeeds exactly on issue branches. */
  lemma IssueBranchIff(branch: string)
    ensures ToIssueNumberAndName(branch).Ok? <==> IsIssueBranch(branch)
  {
    var r := ToIssueNumberAndName(branch);
    if r.Ok? {
      var k := |r.value.issueNumber|;
      assert branch[..k] == r.value.issueNumber;
      assert |SpaceCase(branch[k + 1..])| == |branch| - k - 1;
    }
    if IsIssueBranch(branch) {
      var k :| 0 <= k && k + 1 < |branch| && branch[k] == '-' && IsNumeric(branch[..k]);
      IssueBranchRoundTrip(branch[..k], branch[k + 1..]);
      assert branch == branch[..k] + "-" + branch[k + 1..];
    }
  }

  /** The examples of lib/util.test.js. */
  lemma IssueExamples()
    ensures ToIssueNumberAndName("1-feature-a") == Ok(IssueRef("1", "feature a"))
    ensures ToIssueNumberAndName("abc") == Err(FormatError)
    ensures ToIssueNumberAndName("a-feature-a") == Err(FormatError)
  {
    IssueBranchRoundTrip("1", "feature-a");
    assert "1" + "-" + "feature-a" == "1-feature-a";
    assert SpaceCase("feature-a") == "feature a";
    JsString.IndexOfAbsentChar("abc", '-');
    JsString.IndexOfFirstChar("a", '-', "feature-a");
    assert "a" + "-" + "feature-a" == "a-feature-a";
  }
}
