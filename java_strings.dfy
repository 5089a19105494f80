/**
 * The parts of java.lang.String the plugin relies on, over ASCII:
 * trim(), toLowerCase(), Character.isLetterOrDigit, contains(),
 * split("\\s+") and split(" ", 3).
 */
module JavaStrings {

  /** trim() strips every character whose code is at most U+0020. */
  predicate IsTrimmed(c: char) { c <= ' ' }

  function TrimStart(s: string): (r: string)
    ensures |r| <= |s|
  {
    if |s| > 0 && IsTrimmed(s[0]) then TrimStart(s[1..]) else s
  }

  function TrimEnd(s: string): (r: string)
    ensures |r| <= |s|
  {
    if |s| > 0 && IsTrimmed(s[|s| - 1]) then TrimEnd(s[..|s| - 1]) else s
  }

  /** String.trim() */
  function Trim(s: string): string
  {
    TrimEnd(TrimStart(s))
  }

  /** TrimStart removes exactly the leading run of strippable characters. */
  lemma {:induction false} TrimStartRemovesLeading(s: string)
    ensures var r := TrimStart(s);
      r == s[|s| - |r|..]
      && (forall k :: 0 <= k < |s| - |r| ==> IsTrimmed(s[k]))
      && (|r| > 0 ==> !IsTrimmed(r[0]))
  {
    if |s| > 0 && IsTrimmed(s[0]) {
      TrimStartRemovesLeading(s[1..]);
      var r := TrimStart(s);
      assert s[1..][|s| - 1 - |r|..] == s[|s| - |r|..];
      forall k | 0 <= k < |s| - |r|
        ensures IsTrimmed(s[k])
      {
        if k > 0 {
          assert s[k] == s[1..][k - 1];
        }
      }
    }
  }

  /** TrimEnd removes exactly the trailing run of strippable characters. */
  lemma {:induction false} TrimEndRemovesTrailing(s: string)
    ensures var r := TrimEnd(s);
      r == s[..|r|]
      && (forall k :: |r| <= k < |s| ==> IsTrimmed(s[k]))
      && (|r| > 0 ==> !IsTrimmed(r[|r| - 1]))
  {
    if |s| > 0 && IsTrimmed(s[|s| - 1]) {
      TrimEndRemovesTrailing(s[..|s| - 1]);
      var r := TrimEnd(s);
      assert s[..|s| - 1][..|r|] == s[..|r|];
      forall k | |r| <= k < |s|
        ensures IsTrimmed(s[k])
      {
        if k < |s| - 1 {
          assert s[k] == s[..|s| - 1][k];
        }
      }
    }
  }

  /** trim() returns a substring of its argument that neither starts nor ends with a strippable character. */
  lemma TrimIsSubstring(s: string)
    ensures var r := Trim(s);
      Contains(s, r)
      && (|r| > 0 ==> !IsTrimmed(r[0]) && !IsTrimmed(r[|r| - 1]))
  {
    var t := TrimStart(s);
    var r := Trim(s);
    TrimStartRemovesLeading(s);
    TrimEndRemovesTrailing(t);
    var i := |s| - |t|;
    assert OccursAt(s, r, i);
  }

  /** A string none of whose characters trim() would strip is its own trim. */
  lemma {:induction false} TrimNoControl(s: string)
    requires forall k :: 0 <= k < |s| ==> !IsTrimmed(s[k])
    ensures Trim(s) == s
  {
  }

  /** Character.toLowerCase over ASCII. */
  function LowerChar(c: char): char
  {
    if 'A' <= c <= 'Z' then (c as int + 32) as char else c
  }

  /** String.toLowerCase() over ASCII: same length, each character lower-cased. */
  function ToLower(s: string): (r: string)
    ensures |r| == |s|
    ensures forall k :: 0 <= k < |s| ==> r[k] == LowerChar(s[k])
  {
    seq(|s|, k requires 0 <= k < |s| => LowerChar(s[k]))
  }

  /** Character.isLetterOrDigit over ASCII. */
  predicate IsLetterOrDigit(c: char)
  {
    ('a' <= c <= 'z') || ('A' <= c <= 'Z') || ('0' <= c <= '9')
  }

  /** sub occurs in s starting at index i. */
  predicate OccursAt(s: string, sub: string, i: int)
  {
    0 <= i <= |s| - |sub| && s[i..i + |sub|] == sub
  }

  /** String.contains(): sub occurs in s at some position. */
  predicate Contains(s: string, sub: string)
  {
    exists i :: 0 <= i <= |s| - |sub| && OccursAt(s, sub, i)
  }

  /** Every string contains the empty string. */
  lemma ContainsEmpty(s: string)
    ensures Contains(s, "")
  {
    assert OccursAt(s, "", 0);
  }

  /** The regular-expression class \s: space, tab, newline, vertical tab, form feed, carriage return. */
  predicate IsRegexSpace(c: char)
  {
    c == ' ' || c == '\t' || c == '\n' || c as int == 11 || c as int == 12 || c == '\r'
  }

  /** Position of the first \s character, or |s| when there is none. */
  function FirstSpace(s: string): (i: nat)
    ensures i <= |s|
    ensures forall k :: 0 <= k < i ==> !IsRegexSpace(s[k])
    ensures i < |s| ==> IsRegexSpace(s[i])
  {
    if s == [] || IsRegexSpace(s[0]) then 0 else 1 + FirstSpace(s[1..])
  }

  /** Length of the run of \s characters at the start of s. */
  function SpaceRun(s: string): (n: nat)
    ensures n <= |s|
    ensures forall k :: 0 <= k < n ==> IsRegexSpace(s[k])
    ensures n < |s| ==> !IsRegexSpace(s[n])
  {
    if s != [] && IsRegexSpace(s[0]) then 1 + SpaceRun(s[1..]) else 0
  }

  /** The substrings between maximal runs of \s, a leading and a trailing empty one included. */
  function Pieces(s: string): (ps: seq<string>)
    ensures |ps| >= 1
    decreases |s|
  {
    var i := FirstSpace(s);
    if i == |s| then [s]
    else
      var j := i + SpaceRun(s[i..]);
      [s[..i]] + Pieces(s[j..])
  }

  function DropTrailingEmpty(ps: seq<string>): (r: seq<string>)
    ensures |r| <= |ps| && r == ps[..|r|]
  {
    if |ps| > 0 && ps[|ps| - 1] == "" then DropTrailingEmpty(ps[..|ps| - 1]) else ps
  }

  /**
   * String.split("\\s+"): without any match the whole string is the only
   * element; otherwise the pieces between matches, trailing empty ones removed
   * (a leading empty one, when the string starts with \s, is kept).
   */
  function SplitWhitespace(s: string): seq<string>
  {
    if FirstSpace(s) == |s| then [s] else DropTrailingEmpty(Pieces(s))
  }

  /** A string with no \s character splits into itself alone. */
  lemma {:induction false} SplitWhitespaceNoSpace(s: string)
    requires forall k :: 0 <= k < |s| ==> !IsRegexSpace(s[k])
    ensures SplitWhitespace(s) == [s]
  {
  }

  /** Position of the first c in s, or |s| when there is none. */
  function IndexOf(s: string, c: char): (i: nat)
    ensures i <= |s|
    ensures forall k :: 0 <= k < i ==> s[k] != c
    ensures i < |s| ==> s[i] == c
  {
    if s == [] || s[0] == c then 0 else 1 + IndexOf(s[1..], c)
  }

  /**
   * String.split(" ", 3): at most two cuts at single spaces, the third part
   * holding the rest verbatim; with a positive limit no empty part is dropped.
   */
  function SplitLimit3(s: string): (parts: seq<string>)
    ensures 1 <= |parts| <= 3
    ensures |parts| == 1 ==> parts[0] == s
    ensures |parts| >= 2 ==> |parts[0]| < |s| && s[|parts[0]|] == ' ' && parts[1] <= s[|parts[0]| + 1..]
  {
    var i := IndexOf(s, ' ');
    if i == |s| then [s]
    else
      var rest := s[i + 1..];
      var j := IndexOf(rest, ' ');
      if j == |rest| then [s[..i], rest] else [s[..i], rest[..j], rest[j + 1..]]
  }

  /** Cutting at a space and joining again with a space gives back the input. */
  lemma JoinAtSpace(s: string, i: nat)
    requires i < |s| && s[i] == ' '
    ensures s[..i] + " " + s[i + 1..] == s
  {
  }

  /** Joining the parts of SplitLimit3 with single spaces gives back the input. */
  lemma SplitLimit3Join(s: string)
    ensures var parts := SplitLimit3(s);
      && (|parts| == 1 ==> parts[0] == s)
      && (|parts| == 2 ==> parts[0] + " " + parts[1] == s)
      && (|parts| == 3 ==> parts[0] + " " + parts[1] + " " + parts[2] == s)
  {
    var i := IndexOf(s, ' ');
    if i < |s| {
      var rest := s[i + 1..];
      var j := IndexOf(rest, ' ');
      JoinAtSpace(s, i);
      if j < |rest| {
        JoinTwice(s[..i], rest, j);
      }
    }
  }

  /** a + " " + rest, with rest cut at a space, joins back from three parts. */
  lemma JoinTwice(a: string, rest: string, j: nat)
    requires j < |rest| && rest[j] == ' '
    ensures a + " " + rest[..j] + " " + rest[j + 1..] == a + " " + rest
  {
    JoinAtSpace(rest, j);
    assert a + " " + rest[..j] + " " + rest[j + 1..] == a + " " + (rest[..j] + " " + rest[j + 1..]);
  }

  /** No part of SplitLimit3 but the last holds a space. */
  lemma SplitLimit3NoSpace(s: string)
    ensures var parts := SplitLimit3(s);
      && (|parts| >= 2 ==> ' ' !in parts[0])
      && (|parts| == 3 ==> ' ' !in parts[1])
  {
    BeforeIndexOf(s, ' ');
    var i := IndexOf(s, ' ');
    if i < |s| {
      BeforeIndexOf(s[i + 1..], ' ');
    }
  }

  /** The part of s before the first c holds no c. */
  lemma BeforeIndexOf(s: string, c: char)
    ensures c !in s[..IndexOf(s, c)]
  {
    var i := IndexOf(s, c);
    forall k | 0 <= k < i ensures s[..i][k] != c { }
  }

  /** The first space of a + " " + rest is the one after a, when a holds none. */
  lemma {:induction false} IndexOfAfterWord(a: string, rest: string)
    requires ' ' !in a
    ensures IndexOf(a + " " + rest, ' ') == |a|
  {
    if a != [] {
      assert (a + " " + rest)[1..] == a[1..] + " " + rest;
      IndexOfAfterWord(a[1..], rest);
    }
  }

  /** A space-free word followed by a space is the first part of the split, whatever follows. */
  lemma SplitLimit3FirstWord(a: string, rest: string)
    requires ' ' !in a
    ensures var parts := SplitLimit3(a + " " + rest);
      |parts| >= 2 && parts[0] == a
  {
    var s := a + " " + rest;
    IndexOfAfterWord(a, rest);
    assert s[..|a|] == a;
  }

  /** Splitting two space-free words and a tail joined by single spaces gives the three back. */
  lemma SplitLimit3OfTriple(a: string, b: string, c: string)
    requires ' ' !in a && ' ' !in b
    ensures SplitLimit3(a + " " + b + " " + c) == [a, b, c]
  {
    var s := a + " " + b + " " + c;
    assert s == a + " " + (b + " " + c);
    IndexOfAfterWord(a, b + " " + c);
    assert s[..|a|] == a && s[|a| + 1..] == b + " " + c;
    IndexOfAfterWord(b, c);
    assert (b + " " + c)[..|b|] == b && (b + " " + c)[|b| + 1..] == c;
  }
}
