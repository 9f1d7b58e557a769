/**
 * The word counter of the writing assistant: `countWords` trims the text,
 * splits it on runs of whitespace and counts the non-empty pieces. It is
 * proved equal to an independent count of the maximal runs of non-space
 * characters, read off the text one character at a time.
 */
module Words {
  import opened JsText

  /**
   * The number of maximal runs of non-space characters in `s`, where
   * `afterSpace` says whether the character before `s` (if any) was a
   * space: a run starts at every non-space character that follows a space
   * or the start of the text.
   */
  function Runs(s: string, afterSpace: bool): nat {
    if s == [] then 0
    else (if afterSpace && !IsSpace(s[0]) then 1 else 0) + Runs(s[1..], IsSpace(s[0]))
  }

  /** Reference word count: the maximal non-space runs of the whole text. */
  function RunCount(s: string): nat {
    Runs(s, true)
  }

  /** `countWords(str)`: `str.trim().split(/\s+/).filter(Boolean).length`. */
  function CountWords(s: string): (n: nat)
    ensures n == RunCount(s)
  {
    SplitCountsRuns(Trim(s));
    TrimKeepsRuns(s);
    |NonEmpty(Split(Trim(s)))|
  }

  /** The text has no words exactly when it is empty or made only of whitespace. */
  lemma CountWordsZero(s: string)
    ensures CountWords(s) == 0 <==> AllSpace(s)
  {
    if AllSpace(s) {
      RunsOfSpaces(s, true);
    } else if RunCount(s) == 0 {
      ZeroRunsAllSpace(s);
    }
  }

  lemma {:induction false} RunsOfSpaces(s: string, afterSpace: bool)
    requires AllSpace(s)
    ensures Runs(s, afterSpace) == 0
  {
    if s != [] {
      assert AllSpace(s[1..]) by {
        forall i | 0 <= i < |s[1..]| ensures IsSpace(s[1..][i]) { assert s[1..][i] == s[i + 1]; }
      }
      RunsOfSpaces(s[1..], true);
    }
  }

  lemma {:induction false} ZeroRunsAllSpace(s: string)
    requires Runs(s, true) == 0
    ensures AllSpace(s)
  {
    if s != [] {
      assert IsSpace(s[0]);
      ZeroRunsAllSpace(s[1..]);
      forall i | 0 <= i < |s| ensures IsSpace(s[i]) {
        if i > 0 { assert s[i] == s[1..][i - 1]; }
      }
    }
  }

  /** Skipping leading whitespace loses no run. */
  lemma {:induction false} RunsDropSpaces(s: string)
    ensures Runs(s, true) == Runs(DropSpaces(s), true)
  {
    if s != [] && IsSpace(s[0]) {
      RunsDropSpaces(s[1..]);
    }
  }

  /** A trailing space opens no run. */
  lemma {:induction false} RunsAppendSpace(p: string, c: char, afterSpace: bool)
    requires IsSpace(c)
    ensures Runs(p + [c], afterSpace) == Runs(p, afterSpace)
  {
    if p == [] {
      assert [c][1..] == [];
    } else {
      assert (p + [c])[1..] == p[1..] + [c];
      RunsAppendSpace(p[1..], c, IsSpace(p[0]));
    }
  }

  /** Skipping trailing whitespace loses no run. */
  lemma {:induction false} RunsTrimEnd(s: string)
    ensures Runs(TrimEnd(s), true) == Runs(s, true)
    decreases |s|
  {
    if s != [] && IsSpace(s[|s| - 1]) {
      var p := s[..|s| - 1];
      assert s == p + [s[|s| - 1]];
      RunsAppendSpace(p, s[|s| - 1], true);
      RunsTrimEnd(p);
    }
  }

  /** `trim` does not change the number of words. */
  lemma TrimKeepsRuns(s: string)
    ensures Runs(Trim(s), true) == Runs(s, true)
  {
    RunsDropSpaces(s);
    RunsTrimEnd(DropSpaces(s));
  }

  /** A non-empty leading word is exactly one run. */
  lemma {:induction false} RunsLeadingWord(s: string, afterSpace: bool)
    requires LeadingWord(s) != []
    ensures Runs(s, afterSpace) == (if afterSpace then 1 else 0) + Runs(s[|LeadingWord(s)|..], false)
    decreases |s|
  {
    var w' := LeadingWord(s[1..]);
    if w' != [] {
      RunsLeadingWord(s[1..], false);
      assert s[1..][|w'|..] == s[1 + |w'|..];
    }
  }

  /** The non-empty pieces of `split(/\s+/)` are exactly the maximal non-space runs. */
  lemma {:induction false} SplitCountsRuns(s: string)
    ensures |NonEmpty(Split(s))| == Runs(s, true)
    decreases |s|
  {
    var w := LeadingWord(s);
    var rest := s[|w|..];
    if rest == [] {
      assert Split(s) == [w];
      assert [w][1..] == [];
      if w != [] { RunsLeadingWord(s, true); }
    } else {
      var next := DropSpaces(rest);
      assert IsSpace(rest[0]) && next == DropSpaces(rest[1..]);
      SplitCountsRuns(next);
      assert Split(s) == [w] + Split(next);
      assert ([w] + Split(next))[1..] == Split(next);
      RunsDropSpaces(rest[1..]);
      if w != [] { RunsLeadingWord(s, true); } else { assert rest == s; }
    }
  }
}
