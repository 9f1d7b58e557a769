/**
 * The JavaScript string primitives the writing assistant relies on:
 * the `\s` character class (which is also the set `trim` strips),
 * `trim`, `split(/\s+/)`, `filter(Boolean)`, `toLowerCase`, the UTF-16
 * `length`, and `RegExp.prototype.test` for an alternation of literal words.
 *
 * A Dafny `string` is a sequence of Unicode scalar values; JavaScript
 * strings are UTF-16. Every character of `\s` lies in the Basic
 * Multilingual Plane, so whitespace tests and splitting agree on both
 * views; only `length` differs, and `JsLength` counts code units.
 */
module JsText {

  /**
   * ECMAScript WhiteSpace and LineTerminator code points: the `\s` class.
   * Each is a single UTF-16 code unit and is left alone by lower-casing.
   */
  predicate IsSpace(c: char): (b: bool)
    ensures b ==> CodeUnits(c) == 1
    ensures b ==> LowerChar(c) == c
  {
    var n := c as int;
    n == 0x09 || n == 0x0A || n == 0x0B || n == 0x0C || n == 0x0D || n == 0x20 ||
    n == 0xA0 || n == 0x1680 || (0x2000 <= n <= 0x200A) ||
    n == 0x2028 || n == 0x2029 || n == 0x202F || n == 0x205F ||
    n == 0x3000 || n == 0xFEFF
  }

  predicate AllSpace(s: string) {
    forall i :: 0 <= i < |s| ==> IsSpace(s[i])
  }

  predicate NoSpace(s: string) {
    forall i :: 0 <= i < |s| ==> !IsSpace(s[i])
  }

  /** Number of UTF-16 code units that encode `c`. */
  function CodeUnits(c: char): nat {
    if c as int < 0x10000 then 1 else 2
  }

  /** `s.length` in JavaScript: the number of UTF-16 code units. */
  function JsLength(s: string): (n: nat)
    ensures |s| <= n <= 2 * |s|
    ensures (forall i :: 0 <= i < |s| ==> s[i] as int < 0x10000) ==> n == |s|
  {
    if s == [] then 0 else CodeUnits(s[0]) + JsLength(s[1..])
  }

  /** `toLowerCase` restricted to the ASCII letters A-Z. */
  function LowerChar(c: char): (d: char)
    ensures !('A' <= d <= 'Z')
    ensures 'A' <= c <= 'Z' ==> d as int == c as int + 32
    ensures !('A' <= c <= 'Z') ==> d == c
  {
    if 'A' <= c <= 'Z' then (c as int + 32) as char else c
  }

  /**
   * `s.toLowerCase()` for ASCII: the same length, each character lower-cased
   * on its own, so no capital A-Z is left, each capital is replaced by its
   * small letter and every other character is kept.
   */
  function AsciiLower(s: string): (r: string)
    ensures |r| == |s|
    ensures forall i :: 0 <= i < |s| ==> r[i] == LowerChar(s[i])
  {
    seq(|s|, i requires 0 <= i < |s| => LowerChar(s[i]))
  }

  /** Drops the leading whitespace (the left half of `trim`). */
  function DropSpaces(s: string): (r: string)
    ensures |r| <= |s|
    ensures r != [] ==> !IsSpace(r[0])
  {
    if s != [] && IsSpace(s[0]) then DropSpaces(s[1..]) else s
  }

  /** What `DropSpaces` keeps is a suffix of `s`, and what it drops is all whitespace. */
  lemma {:induction false} DropSpacesSuffix(s: string)
    ensures var r := DropSpaces(s); r == s[|s| - |r|..] && AllSpace(s[..|s| - |r|])
  {
    if s != [] && IsSpace(s[0]) {
      DropSpacesSuffix(s[1..]);
      var r := DropSpaces(s);
      var k := |s| - |r|;
      assert s[1..][k - 1..] == s[k..];
      assert s[..k] == [s[0]] + s[1..][..k - 1];
    }
  }

  /** Drops the trailing whitespace (the right half of `trim`). */
  function TrimEnd(s: string): (r: string)
    ensures |r| <= |s|
    ensures r != [] ==> !IsSpace(r[|r| - 1])
  {
    if s != [] && IsSpace(s[|s| - 1]) then TrimEnd(s[..|s| - 1]) else s
  }

  /** What `TrimEnd` keeps is a prefix of `s`, and what it drops is all whitespace. */
  lemma {:induction false} TrimEndPrefix(s: string)
    ensures var r := TrimEnd(s); |r| <= |s| && r == s[..|r|] && AllSpace(s[|r|..])
  {
    if s != [] && IsSpace(s[|s| - 1]) {
      var t := s[..|s| - 1];
      TrimEndPrefix(t);
      var r := TrimEnd(s);
      assert t[..|r|] == s[..|r|];
      assert s[|r|..] == t[|r|..] + [s[|s| - 1]];
    }
  }

  /** `r` is the slice of `s` at `i`, with only whitespace before and after it. */
  ghost predicate Framed(s: string, r: string, i: int) {
    0 <= i && i + |r| <= |s| && r == s[i..i + |r|] && AllSpace(s[..i]) && AllSpace(s[i + |r|..])
  }

  /**
   * `s.trim()`: a contiguous slice of `s` with only whitespace before and
   * after it; empty exactly for the blank strings, otherwise framed by
   * non-space characters.
   */
  function Trim(s: string): (r: string)
    ensures r == [] <==> AllSpace(s)
    ensures r != [] ==> !IsSpace(r[0]) && !IsSpace(r[|r| - 1])
    ensures exists i :: Framed(s, r, i)
  {
    var d := DropSpaces(s);
    var r := TrimEnd(d);
    DropSpacesSuffix(s);
    TrimEndPrefix(d);
    TrimSlice(s, d, r);
    r
  }

  /**
   * Where the trimmed text sits in `s`: `d` is `s` without a whitespace
   * prefix, `r` is `d` without a whitespace suffix, and neither strip could
   * have gone further.
   */
  lemma TrimSlice(s: string, d: string, r: string)
    requires |d| <= |s| && d == s[|s| - |d|..] && AllSpace(s[..|s| - |d|])
    requires d != [] ==> !IsSpace(d[0])
    requires |r| <= |d| && r == d[..|r|] && AllSpace(d[|r|..])
    requires r != [] ==> !IsSpace(r[|r| - 1])
    ensures r == [] <==> AllSpace(s)
    ensures r != [] ==> !IsSpace(r[0]) && !IsSpace(r[|r| - 1])
    ensures exists i :: Framed(s, r, i)
  {
    var i := |s| - |d|;
    if r != [] {
      assert r[0] == d[0];
    }
    assert s[i..i + |r|] == d[..|r|];
    assert s[i + |r|..] == d[|r|..];
    if r == [] {
      assert d[|r|..] == d;
      assert d == [];
      assert s[..i] == s;
    }
    if d != [] {
      assert d[0] == s[i];
      assert !AllSpace(s);
    }
    assert Framed(s, r, i);
  }

  /** The longest prefix of `s` free of whitespace. */
  function LeadingWord(s: string): (w: string)
    ensures |w| <= |s| && NoSpace(w)
    ensures |w| < |s| ==> IsSpace(s[|w|])
  {
    if s == [] || IsSpace(s[0]) then [] else [s[0]] + LeadingWord(s[1..])
  }

  /** `LeadingWord` returns a prefix of `s`. */
  lemma {:induction false} LeadingWordPrefix(s: string)
    ensures var w := LeadingWord(s); |w| <= |s| && w == s[..|w|]
  {
    if s != [] && !IsSpace(s[0]) {
      LeadingWordPrefix(s[1..]);
      var w := LeadingWord(s);
      assert s[..|w|] == [s[0]] + s[1..][..|w| - 1];
    }
  }

  /**
   * `pieces` interleaved with `seps`: the first piece, then each separator
   * followed by the next piece.
   */
  ghost function Join(pieces: seq<string>, seps: seq<string>): string
    requires |pieces| == |seps| + 1
    decreases |seps|
  {
    if seps == [] then pieces[0] else pieces[0] + seps[0] + Join(pieces[1..], seps[1..])
  }

  /** `s` is `pieces` joined by `seps`, each separator a non-empty run of whitespace. */
  ghost predicate JoinedBy(s: string, pieces: seq<string>, seps: seq<string>) {
    |pieces| == |seps| + 1 &&
    (forall k :: 0 <= k < |seps| ==> seps[k] != [] && AllSpace(seps[k])) &&
    s == Join(pieces, seps)
  }

  /**
   * `s.split(/\s+/)`: the pieces between maximal runs of whitespace, with an
   * empty first piece when `s` starts with whitespace, an empty last piece
   * when it ends with some, and `[""]` for the empty string. Joining the
   * pieces again with the whitespace runs gives back `s`; as the pieces hold
   * no whitespace and only the first and last may be empty, each run is
   * maximal.
   */
  function Split(s: string): (pieces: seq<string>)
    ensures |pieces| >= 1
    ensures forall k :: 0 <= k < |pieces| ==> NoSpace(pieces[k])
    ensures forall k :: 0 < k < |pieces| - 1 ==> pieces[k] != []
    ensures s != [] && !IsSpace(s[0]) ==> pieces[0] != []
    ensures s == [] ==> pieces == [[]]
    ensures exists seps :: JoinedBy(s, pieces, seps)
    decreases |s|
  {
    var w := LeadingWord(s);
    LeadingWordPrefix(s);
    var rest := s[|w|..];
    if rest == [] then
      SplitWord(s, w);
      [w]
    else
      var next := DropSpaces(rest);
      assert IsSpace(rest[0]) && next == DropSpaces(rest[1..]);
      var tail := Split(next);
      DropSpacesSuffix(rest);
      SplitCons(s, w, rest, next, tail, [w] + tail);
      [w] + tail
  }

  /** A string with no whitespace in it splits into itself alone. */
  lemma SplitWord(s: string, w: string)
    requires |w| <= |s| && w == s[..|w|] && s[|w|..] == []
    ensures s == w && JoinedBy(s, [w], [])
  {
  }

  /**
   * The leading word `w` of `s`, followed by the split `tail` of what is
   * left after the whitespace run that ends it, is a split of `s`.
   */
  lemma SplitCons(s: string, w: string, rest: string, next: string, tail: seq<string>, pieces: seq<string>)
    requires |w| <= |s| && w == s[..|w|] && NoSpace(w) && (|w| < |s| ==> IsSpace(s[|w|]))
    requires rest == s[|w|..] && rest != []
    requires |next| <= |rest| && next == rest[|rest| - |next|..] && AllSpace(rest[..|rest| - |next|])
    requires next != [] ==> !IsSpace(next[0])
    requires |tail| >= 1
    requires forall k :: 0 <= k < |tail| ==> NoSpace(tail[k])
    requires forall k :: 0 < k < |tail| - 1 ==> tail[k] != []
    requires next != [] && !IsSpace(next[0]) ==> tail[0] != []
    requires next == [] ==> tail == [[]]
    requires exists seps :: JoinedBy(next, tail, seps)
    requires pieces == [w] + tail
    ensures forall k :: 0 <= k < |pieces| ==> NoSpace(pieces[k])
    ensures forall k :: 0 < k < |pieces| - 1 ==> pieces[k] != []
    ensures !IsSpace(s[0]) ==> pieces[0] != []
    ensures exists seps :: JoinedBy(s, pieces, seps)
  {
    assert forall k :: 0 < k < |pieces| ==> pieces[k] == tail[k - 1];
    assert IsSpace(rest[0]) && rest[..0] == [];
    assert |next| < |rest|;
    var sep := rest[..|rest| - |next|];
    assert rest == sep + next;
    assert s == w + sep + next by {
      assert s == s[..|w|] + rest;
    }
    JoinCons(s, w, sep, next, tail);
  }

  /** A word, a whitespace run and a joined remainder join to the whole. */
  lemma JoinCons(s: string, w: string, sep: string, next: string, tail: seq<string>)
    requires s == w + sep + next && sep != [] && AllSpace(sep)
    requires exists seps :: JoinedBy(next, tail, seps)
    ensures exists seps :: JoinedBy(s, [w] + tail, seps)
  {
    var seps :| JoinedBy(next, tail, seps);
    var all := [sep] + seps;
    assert ([w] + tail)[1..] == tail && all[1..] == seps;
    assert JoinedBy(s, [w] + tail, all);
  }

  /** `pieces.filter(Boolean)`: keeps the non-empty strings, in order. */
  function NonEmpty(pieces: seq<string>): (r: seq<string>)
    ensures |r| <= |pieces|
    ensures forall k :: 0 <= k < |r| ==> r[k] != [] && r[k] in pieces
    ensures forall k :: 0 <= k < |pieces| && pieces[k] != [] ==> pieces[k] in r
  {
    if pieces == [] then []
    else
      var rest := NonEmpty(pieces[1..]);
      assert forall k :: 1 <= k < |pieces| ==> pieces[k] == pieces[1..][k - 1];
      (if pieces[0] == [] then [] else [pieces[0]]) + rest
  }

  /**
   * `filter(Boolean)` keeps every non-empty piece as often as it occurs and
   * drops every empty one.
   */
  lemma {:induction false} NonEmptyKeepsAll(pieces: seq<string>)
    ensures multiset(NonEmpty(pieces)) == multiset(pieces)[[] := 0]
  {
    if pieces != [] {
      var rest := pieces[1..];
      NonEmptyKeepsAll(rest);
      assert pieces == [pieces[0]] + rest;
      KeepStep(pieces[0], rest, NonEmpty(pieces), NonEmpty(rest));
    }
  }

  /** One step of `NonEmptyKeepsAll`: the head is kept when non-empty, the rest as before. */
  lemma KeepStep(head: string, rest: seq<string>, r: seq<string>, kept: seq<string>)
    requires multiset(kept) == multiset(rest)[[] := 0]
    requires r == (if head == [] then [] else [head]) + kept
    ensures multiset(r) == multiset([head] + rest)[[] := 0]
  {
    assert multiset([head] + rest) == multiset{head} + multiset(rest);
    if head == [] {
      assert r == kept;
      assert multiset([head] + rest)[[] := 0] == multiset(rest)[[] := 0];
    } else {
      assert multiset(r) == multiset{head} + multiset(kept);
      assert multiset([head] + rest)[[] := 0] == multiset{head} + multiset(rest)[[] := 0];
    }
  }

  /** `w` occurs in `s` starting at position `i`. */
  ghost predicate OccursAt(s: string, w: string, i: int) {
    0 <= i && i + |w| <= |s| && forall j :: 0 <= j < |w| ==> s[i + j] == w[j]
  }

  /** `w` occurs in `s` as a contiguous substring. */
  ghost predicate Occurs(s: string, w: string) {
    exists i :: OccursAt(s, w, i)
  }

  /** Scans `s` left to right for an occurrence of `w`. */
  function Contains(s: string, w: string): (b: bool)
    ensures b <==> Occurs(s, w)
    decreases |s|
  {
    if w <= s then
      assert OccursAt(s, w, 0);
      true
    else if s == [] then
      false
    else
      var b := Contains(s[1..], w);
      ShiftOccurs(s, w);
      b
  }

  /** When `w` is no prefix of `s`, it occurs in `s` exactly when it occurs in `s[1..]`. */
  lemma ShiftOccurs(s: string, w: string)
    requires s != [] && !(w <= s)
    ensures Occurs(s, w) <==> Occurs(s[1..], w)
  {
    if Occurs(s, w) {
      var i :| OccursAt(s, w, i);
      assert i != 0;
      assert OccursAt(s[1..], w, i - 1);
    }
    if Occurs(s[1..], w) {
      var i :| OccursAt(s[1..], w, i);
      assert OccursAt(s, w, i + 1);
    }
  }

  /** `/w0|w1|.../.test(s)`: some alternative occurs in `s`. */
  function ContainsAny(s: string, words: seq<string>): (b: bool)
    ensures b <==> exists k :: 0 <= k < |words| && Occurs(s, words[k])
  {
    if words == [] then false
    else
      var b := Contains(s, words[0]) || ContainsAny(s, words[1..]);
      assert forall k :: 1 <= k < |words| ==> words[1..][k - 1] == words[k];
      b
  }
}
