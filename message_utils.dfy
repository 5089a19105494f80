/**
 * MessageUtils: text normalization, Levenshtein distance, percentage
 * similarity and the fuzzy blocked-word matcher.
 */
module Utils {
  import opened Options
  import opened JavaStrings

  // ---------------------------------------------------------------------------
  // Normalization
  // ---------------------------------------------------------------------------

  /** CHAR_SUBSTITUTIONS: look-alike digits and symbols mapped to letters. */
  function Substitution(c: char): Option<char>
  {
    match c
    case '0' => Some('o')
    case '1' => Some('i')
    case '3' => Some('e')
    case '4' => Some('a')
    case '5' => Some('s')
    case '6' => Some('g')
    case '7' => Some('t')
    case '8' => Some('b')
    case '9' => Some('g')
    case '@' => Some('a')
    case '$' => Some('s')
    case '!' => Some('i')
    case '+' => Some('t')
    case '*' => Some('x')
    case _ => None
  }

  /** What one already lower-cased character contributes: its substitute, itself, or nothing. */
  function NormalizeChar(c: char): string
  {
    match Substitution(c)
    case Some(d) => [d]
    case None => if IsLetterOrDigit(c) then [c] else []
  }

  /** Characters that can appear in a normalized string: lower-case letters and the unmapped digit '2'. */
  predicate IsCanonical(c: char)
  {
    ('a' <= c <= 'z') || c == '2'
  }

  /** The characters of a lower-cased string, each normalized, in order. */
  function NormalizeLowered(t: string): string
  {
    if t == [] then [] else NormalizeLowered(t[..|t| - 1]) + NormalizeChar(t[|t| - 1])
  }

  /** normalizeMessage: lower-case, then map or keep or drop each character. */
  function Normalize(s: string): string
  {
    NormalizeLowered(ToLower(s))
  }

  predicate IsUpper(c: char) { 'A' <= c <= 'Z' }

  /** A lower-case character contributes at most one canonical character. */
  lemma NormalizeCharShape(c: char)
    requires !IsUpper(c)
    ensures |NormalizeChar(c)| <= 1
    ensures forall k :: 0 <= k < |NormalizeChar(c)| ==> IsCanonical(NormalizeChar(c)[k])
  {
  }

  /** The normalized text is never longer than the input and holds only canonical characters. */
  lemma {:induction false} NormalizeLoweredShape(t: string)
    requires forall k :: 0 <= k < |t| ==> !IsUpper(t[k])
    ensures |NormalizeLowered(t)| <= |t|
    ensures forall k :: 0 <= k < |NormalizeLowered(t)| ==> IsCanonical(NormalizeLowered(t)[k])
  {
    if t != [] {
      var init := t[..|t| - 1];
      NormalizeLoweredShape(init);
      NormalizeCharShape(t[|t| - 1]);
      var r := NormalizeLowered(init) + NormalizeChar(t[|t| - 1]);
      assert NormalizeLowered(t) == r;
      forall k | 0 <= k < |r| ensures IsCanonical(r[k]) {
        if k >= |NormalizeLowered(init)| {
          assert r[k] == NormalizeChar(t[|t| - 1])[k - |NormalizeLowered(init)|];
        }
      }
    }
  }

  /**
   * The output of normalizeMessage is never longer than its input and holds
   * only lower-case letters and the digit '2', none of them a key of the
   * substitution table.
   */
  lemma NormalizeShape(s: string)
    ensures |Normalize(s)| <= |s|
    ensures forall k :: 0 <= k < |Normalize(s)| ==> IsCanonical(Normalize(s)[k])
    ensures forall k :: 0 <= k < |Normalize(s)| ==> Substitution(Normalize(s)[k]).None?
  {
    NormalizeLoweredShape(ToLower(s));
  }

  /** Lower-casing a string with no upper-case letter changes nothing. */
  lemma LowerNoUpper(t: string)
    requires forall k :: 0 <= k < |t| ==> !IsUpper(t[k])
    ensures ToLower(t) == t
  {
    assert forall k :: 0 <= k < |t| ==> ToLower(t)[k] == t[k];
  }

  /** Normalizing a string of canonical characters changes nothing. */
  lemma {:induction false} NormalizeLoweredCanonical(t: string)
    requires forall k :: 0 <= k < |t| ==> IsCanonical(t[k])
    ensures NormalizeLowered(t) == t
  {
    if t != [] {
      var init, c := t[..|t| - 1], t[|t| - 1];
      NormalizeLoweredCanonical(init);
      CanonicalKept(c);
      assert NormalizeLowered(t) == NormalizeLowered(init) + NormalizeChar(c);
      assert init + [c] == t;
    }
  }

  /** A canonical character has no substitute and is kept as it is. */
  lemma CanonicalKept(c: char)
    requires IsCanonical(c)
    ensures NormalizeChar(c) == [c]
  {
    assert Substitution(c).None?;
  }

  /** Normalization is idempotent. */
  lemma NormalizeIdempotent(s: string)
    ensures Normalize(Normalize(s)) == Normalize(s)
  {
    var n := Normalize(s);
    NormalizeShape(s);
    LowerNoUpper(n);
    NormalizeLoweredCanonical(n);
  }

  /** A string of characters that are neither substituted nor alphanumeric normalizes to "". */
  lemma {:induction false} NormalizeLoweredDropsAll(t: string)
    requires forall k :: 0 <= k < |t| ==> Substitution(t[k]).None? && !IsLetterOrDigit(t[k])
    ensures NormalizeLowered(t) == ""
  {
    if t != [] {
      NormalizeLoweredDropsAll(t[..|t| - 1]);
    }
  }

  /** normalizeMessage as written: a StringBuilder filled in a loop over the lower-cased text. */
  method NormalizeMessage(message: string) returns (normalized: string)
    ensures normalized == Normalize(message)
  {
    if |message| == 0 {
      return "";
    }
    normalized := "";
    var lower := ToLower(message);
    for i := 0 to |lower|
      invariant normalized == NormalizeLowered(lower[..i])
    {
      var c := lower[i];
      assert lower[..i + 1][..i] == lower[..i];
      var sub := Substitution(c);
      if sub.Some? {
        normalized := normalized + [sub.value];
      } else if IsLetterOrDigit(c) {
        normalized := normalized + [c];
      }
    }
    assert lower[..|lower|] == lower;
  }

  // ---------------------------------------------------------------------------
  // Edit distance
  // ---------------------------------------------------------------------------

  function Min3(a: int, b: int, c: int): int
  {
    if a <= b && a <= c then a else if b <= c then b else c
  }

  function Max(a: int, b: int): int
  {
    if a >= b then a else b
  }

  /**
   * The Levenshtein distance, by the recurrence over prefixes that the
   * dynamic-programming table fills: the cheapest of deleting the last
   * character of a, inserting the last character of b, or substituting.
   */
  function EditDistance(a: string, b: string): nat
    decreases |a| + |b|
  {
    if |a| == 0 then |b|
    else if |b| == 0 then |a|
    else
      Min3(EditDistance(a[..|a| - 1], b) + 1,
           EditDistance(a, b[..|b| - 1]) + 1,
           EditDistance(a[..|a| - 1], b[..|b| - 1]) + (if a[|a| - 1] == b[|b| - 1] then 0 else 1))
  }

  /** One cell of the table: the recurrence read on prefixes of the two strings. */
  lemma EditDistancePrefixes(s1: string, s2: string, i: nat, j: nat)
    requires 1 <= i <= |s1| && 1 <= j <= |s2|
    ensures EditDistance(s1[..i], s2[..j])
         == Min3(EditDistance(s1[..i - 1], s2[..j]) + 1,
                 EditDistance(s1[..i], s2[..j - 1]) + 1,
                 EditDistance(s1[..i - 1], s2[..j - 1]) + (if s1[i - 1] == s2[j - 1] then 0 else 1))
  {
    assert s1[..i][..i - 1] == s1[..i - 1];
    assert s2[..j][..j - 1] == s2[..j - 1];
  }

  /** levenshteinDistance as written: the (|s1|+1) x (|s2|+1) table filled row by row. */
  method LevenshteinDistance(s1: string, s2: string) returns (distance: nat)
    ensures distance == EditDistance(s1, s2)
  {
    var n, m := |s1|, |s2|;
    var dp := new int[n + 1, m + 1];
    for i := 0 to n + 1
      invariant forall r :: 0 <= r < i ==> dp[r, 0] == r
    {
      dp[i, 0] := i;
    }
    for j := 0 to m + 1
      invariant forall r :: 0 <= r <= n ==> dp[r, 0] == r
      invariant forall c :: 0 <= c < j ==> dp[0, c] == c
    {
      dp[0, j] := j;
    }
    for i := 1 to n + 1
      invariant forall r, c :: 0 <= r < i && 0 <= c <= m ==> dp[r, c] == EditDistance(s1[..r], s2[..c])
      invariant forall r :: i <= r <= n ==> dp[r, 0] == r
    {
      FillRow(dp, s1, s2, i);
    }
    assert s1[..n] == s1 && s2[..m] == s2;
    distance := dp[n, m];
  }

  /** The inner loop of levenshteinDistance: row i of the table from row i - 1; no other row changes. */
  method FillRow(dp: array2<int>, s1: string, s2: string, i: nat)
    requires dp.Length0 == |s1| + 1 && dp.Length1 == |s2| + 1 && 1 <= i <= |s1|
    requires forall c :: 0 <= c <= |s2| ==> dp[i - 1, c] == EditDistance(s1[..i - 1], s2[..c])
    requires dp[i, 0] == i
    modifies dp
    ensures forall c :: 0 <= c <= |s2| ==> dp[i, c] == EditDistance(s1[..i], s2[..c])
    ensures forall r, c :: 0 <= r < dp.Length0 && 0 <= c < dp.Length1 && r != i ==> dp[r, c] == old(dp[r, c])
  {
    assert s2[..0] == [];
    for j := 1 to |s2| + 1
      invariant forall c :: 0 <= c < j ==> dp[i, c] == EditDistance(s1[..i], s2[..c])
      invariant forall r, c :: 0 <= r < dp.Length0 && 0 <= c < dp.Length1 && r != i ==> dp[r, c] == old(dp[r, c])
    {
      var cost := if s1[i - 1] == s2[j - 1] then 0 else 1;
      EditDistancePrefixes(s1, s2, i, j);
      dp[i, j] := Min3(dp[i - 1, j] + 1, dp[i, j - 1] + 1, dp[i - 1, j - 1] + cost);
    }
  }

  /** The distance lies between the difference and the larger of the two lengths. */
  lemma {:induction false} EditDistanceBounds(a: string, b: string)
    ensures EditDistance(a, b) <= Max(|a|, |b|)
    ensures EditDistance(a, b) >= |a| - |b| && EditDistance(a, b) >= |b| - |a|
    decreases |a| + |b|
  {
    if |a| > 0 && |b| > 0 {
      EditDistanceBounds(a[..|a| - 1], b);
      EditDistanceBounds(a, b[..|b| - 1]);
      EditDistanceBounds(a[..|a| - 1], b[..|b| - 1]);
    }
  }

  /** The distance is zero exactly when the strings are equal. */
  lemma {:induction false} EditDistanceZero(a: string, b: string)
    ensures EditDistance(a, b) == 0 <==> a == b
    decreases |a| + |b|
  {
    if |a| > 0 && |b| > 0 {
      var a', b' := a[..|a| - 1], b[..|b| - 1];
      EditDistanceBounds(a', b);
      EditDistanceBounds(a, b');
      EditDistanceZero(a', b');
      if a == b {
        assert a' == b';
      }
      if EditDistance(a, b) == 0 {
        assert EditDistance(a', b') == 0 && a[|a| - 1] == b[|b| - 1];
        assert a == a' + [a[|a| - 1]] && b == b' + [b[|b| - 1]];
      }
    }
  }

  /** The distance is symmetric. */
  lemma {:induction false} EditDistanceSymmetric(a: string, b: string)
    ensures EditDistance(a, b) == EditDistance(b, a)
    decreases |a| + |b|
  {
    if |a| > 0 && |b| > 0 {
      EditDistanceSymmetric(a[..|a| - 1], b);
      EditDistanceSymmetric(a, b[..|b| - 1]);
      EditDistanceSymmetric(a[..|a| - 1], b[..|b| - 1]);
    }
  }

  /**
   * The distance obeys the triangle inequality: going from a to c costs no
   * more than going through b.
   */
  lemma {:induction false} EditDistanceTriangle(a: string, b: string, c: string)
    ensures EditDistance(a, c) <= EditDistance(a, b) + EditDistance(b, c)
    decreases |a| + |b| + |c|
  {
    if |a| == 0 || |c| == 0 {
      EditDistanceBounds(a, b);
      EditDistanceBounds(b, c);
    } else if |b| == 0 {
      EditDistanceBounds(a, c);
    } else {
      var a', b', c' := a[..|a| - 1], b[..|b| - 1], c[..|c| - 1];
      var ab, bc := EditDistance(a, b), EditDistance(b, c);
      if ab == EditDistance(a', b) + 1 {
        EditDistanceTriangle(a', b, c);
      } else if bc == EditDistance(b, c') + 1 {
        EditDistanceTriangle(a, b, c');
      } else if ab == EditDistance(a, b') + 1 {
        if bc == EditDistance(b', c) + 1 {
          EditDistanceTriangle(a, b', c);
        } else {
          EditDistanceTriangle(a, b', c');
        }
      } else if bc == EditDistance(b', c) + 1 {
        EditDistanceTriangle(a', b', c);
      } else {
        EditDistanceTriangle(a', b', c');
      }
    }
  }

  // ---------------------------------------------------------------------------
  // Similarity
  // ---------------------------------------------------------------------------

  /**
   * calculateSimilarity, in exact arithmetic: 0 when either string is empty,
   * 100 when they are equal, otherwise the share of the longer length that the
   * edit distance leaves untouched, as a percentage.
   */
  function Similarity(s1: string, s2: string): (r: real)
    ensures 0.0 <= r <= 100.0
  {
    if |s1| == 0 || |s2| == 0 then 0.0
    else if s1 == s2 then 100.0
    else
      var maxLength := Max(|s1|, |s2|);
      if maxLength == 0 then 100.0
      else
        var distance := EditDistance(s1, s2);
        EditDistanceBounds(s1, s2);
        Percent(maxLength - distance, maxLength)
  }

  /** The share `part` of `whole` as a percentage. */
  function Percent(part: int, whole: int): (r: real)
    requires 0 <= part <= whole && 0 < whole
    ensures 0.0 <= r <= 100.0
    ensures part < whole ==> r < 100.0
    ensures part == whole ==> r == 100.0
  {
    var q := part as real / whole as real;
    assert q * whole as real == part as real;
    q * 100.0
  }

  /** A percentage reaches a threshold exactly when the scaled integers do. */
  lemma PercentAtLeast(part: int, whole: int, threshold: real)
    requires 0 <= part <= whole && 0 < whole
    ensures Percent(part, whole) >= threshold <==> 100.0 * part as real >= threshold * whole as real
  {
    var q := part as real / whole as real;
    assert q * whole as real == part as real;
    ScaleByPositive(q * 100.0, threshold, whole as real);
  }

  lemma ScaleByPositive(a: real, b: real, m: real)
    requires m > 0.0
    ensures a >= b <==> a * m >= b * m
  {
  }

  /** Comparing the similarity with a threshold is comparing integers scaled by the longer length. */
  lemma SimilarityAtLeast(s1: string, s2: string, threshold: real, maxLength: int, distance: int)
    requires |s1| > 0 && |s2| > 0 && s1 != s2
    requires maxLength == Max(|s1|, |s2|) && distance == EditDistance(s1, s2)
    ensures Similarity(s1, s2) >= threshold
        <==> 100.0 * (maxLength - distance) as real >= threshold * maxLength as real
  {
    EditDistanceBounds(s1, s2);
    var sim := Similarity(s1, s2);
    assert sim == Percent(maxLength - distance, maxLength);
    ThresholdOnPercent(maxLength, distance, sim, threshold);
  }

  lemma ThresholdOnPercent(maxLength: int, distance: int, sim: real, threshold: real)
    requires 0 <= maxLength - distance <= maxLength && 0 < maxLength
    requires sim == Percent(maxLength - distance, maxLength)
    ensures sim >= threshold <==> 100.0 * (maxLength - distance) as real >= threshold * maxLength as real
  {
    PercentAtLeast(maxLength - distance, maxLength, threshold);
  }

  /**
   * The three cases of calculateSimilarity: 0 for an empty input, 100 for
   * equal inputs, otherwise the percentage of the longer length left by the
   * edit distance; the longer length is then positive, so the source's
   * zero-length fallback is never reached.
   */
  lemma SimilarityCases(s1: string, s2: string)
    ensures |s1| == 0 || |s2| == 0 ==> Similarity(s1, s2) == 0.0
    ensures |s1| > 0 && s1 == s2 ==> Similarity(s1, s2) == 100.0
    ensures |s1| > 0 && |s2| > 0 && s1 != s2 ==>
      && Max(|s1|, |s2|) > 0
      && EditDistance(s1, s2) <= Max(|s1|, |s2|)
      && Similarity(s1, s2) == Percent(Max(|s1|, |s2|) - EditDistance(s1, s2), Max(|s1|, |s2|))
  {
    EditDistanceBounds(s1, s2);
  }

  /** The similarity is 100 exactly for two equal non-empty strings, and symmetric. */
  lemma SimilarityFull(s1: string, s2: string)
    ensures Similarity(s1, s2) == 100.0 <==> |s1| > 0 && s1 == s2
    ensures Similarity(s1, s2) == Similarity(s2, s1)
  {
    EditDistanceSymmetric(s1, s2);
    if |s1| > 0 && |s2| > 0 && s1 != s2 {
      EditDistanceZero(s1, s2);
      EditDistanceBounds(s1, s2);
      var m := Max(|s1|, |s2|);
      var d := EditDistance(s1, s2);
      assert 0 < d;
    }
  }

  // ---------------------------------------------------------------------------
  // Blocked words
  // ---------------------------------------------------------------------------

  /** One whitespace-delimited token matches when it is longer than two characters once trimmed and its normalization is inside the blocked word or contains it. */
  predicate TokenMatches(token: string, normalizedBlocked: string)
  {
    |Trim(token)| > 2
    && (Contains(Normalize(token), normalizedBlocked) || Contains(normalizedBlocked, Normalize(token)))
  }

  /** Some token of the message matches the normalized blocked word. */
  predicate AnyTokenMatches(words: seq<string>, normalizedBlocked: string)
  {
    exists k :: 0 <= k < |words| && TokenMatches(words[k], normalizedBlocked)
  }

  /** The three tests made for one blocked word, in source order, on the already normalized message. */
  predicate MatchesNormalized(normalized: string, normalizedBlocked: string, words: seq<string>)
  {
    || Contains(normalized, normalizedBlocked)
    || Similarity(normalized, normalizedBlocked) >= 80.0
    || AnyTokenMatches(words, normalizedBlocked)
  }

  /** One blocked word matches the message. */
  predicate WordMatches(message: string, blockedWord: string)
  {
    MatchesNormalized(Normalize(message), Normalize(blockedWord), SplitWhitespace(ToLower(message)))
  }

  /** containsBlockedWord: never for a message of at most two characters once trimmed; otherwise some blocked word matches. */
  predicate IsBlocked(message: string, blockedWords: seq<string>)
  {
    |Trim(message)| > 2 && exists i :: 0 <= i < |blockedWords| && WordMatches(message, blockedWords[i])
  }

  /** containsBlockedWord as written: a loop over the blocked words that returns on the first match. */
  method ContainsBlockedWord(message: string, blockedWords: seq<string>) returns (blocked: bool)
    ensures blocked == IsBlocked(message, blockedWords)
  {
    if |Trim(message)| <= 2 {
      return false;
    }
    var normalized := NormalizeMessage(message);
    for i := 0 to |blockedWords|
      invariant forall p :: 0 <= p < i ==> !WordMatches(message, blockedWords[p])
    {
      var matches := CheckBlockedWord(message, normalized, blockedWords[i]);
      if matches {
        BlockedAt(message, blockedWords, i);
        return true;
      }
      NoneUpTo(message, blockedWords, i);
    }
    NoneBlocks(message, blockedWords);
    return false;
  }

  lemma BlockedAt(message: string, blockedWords: seq<string>, i: nat)
    requires |Trim(message)| > 2 && i < |blockedWords| && WordMatches(message, blockedWords[i])
    ensures IsBlocked(message, blockedWords)
  {
  }

  lemma NoneUpTo(message: string, blockedWords: seq<string>, i: nat)
    requires i < |blockedWords| && !WordMatches(message, blockedWords[i])
    requires forall p :: 0 <= p < i ==> !WordMatches(message, blockedWords[p])
    ensures forall p :: 0 <= p < i + 1 ==> !WordMatches(message, blockedWords[p])
  {
  }

  lemma NoneBlocks(message: string, blockedWords: seq<string>)
    requires forall p :: 0 <= p < |blockedWords| ==> !WordMatches(message, blockedWords[p])
    ensures !IsBlocked(message, blockedWords)
  {
  }

  /** One pass of the loop: normalize the blocked word, split the message, and run the three tests. */
  method CheckBlockedWord(message: string, normalized: string, blockedWord: string) returns (matches: bool)
    requires normalized == Normalize(message)
    ensures matches == WordMatches(message, blockedWord)
  {
    var normalizedBlocked := NormalizeMessage(blockedWord);
    var words := SplitWhitespace(ToLower(message));
    matches := MatchesBlocked(normalized, normalizedBlocked, words);
  }

  /** The body of the loop for one blocked word: the two whole-message tests, then the tokens. */
  method MatchesBlocked(normalized: string, normalizedBlocked: string, words: seq<string>) returns (matches: bool)
    ensures matches == MatchesNormalized(normalized, normalizedBlocked, words)
  {
    if Contains(normalized, normalizedBlocked) {
      return true;
    }
    if Similarity(normalized, normalizedBlocked) >= 80.0 {
      return true;
    }
    matches := TokensMatch(words, normalizedBlocked);
  }

  /** The inner loop over the message's tokens, skipping those of at most two characters once trimmed. */
  method TokensMatch(words: seq<string>, normalizedBlocked: string) returns (found: bool)
    ensures found == AnyTokenMatches(words, normalizedBlocked)
  {
    var k := 0;
    while k < |words|
      invariant 0 <= k <= |words|
      invariant forall q :: 0 <= q < k ==> !TokenMatches(words[q], normalizedBlocked)
    {
      var word := words[k];
      if |Trim(word)| > 2 {
        var normalizedWord := NormalizeMessage(word);
        if Contains(normalizedWord, normalizedBlocked) || Contains(normalizedBlocked, normalizedWord) {
          assert TokenMatches(words[k], normalizedBlocked);
          return true;
        }
        TokenMismatch(word, normalizedWord, normalizedBlocked);
      }
      assert !TokenMatches(words[k], normalizedBlocked);
      k := k + 1;
    }
    return false;
  }

  lemma TokenMismatch(word: string, normalizedWord: string, normalizedBlocked: string)
    requires normalizedWord == Normalize(word)
    requires !Contains(normalizedWord, normalizedBlocked) && !Contains(normalizedBlocked, normalizedWord)
    ensures !TokenMatches(word, normalizedBlocked)
  {
  }

  /** A blocked word that normalizes to "" blocks every message longer than two characters once trimmed. */
  lemma EmptyBlockedWordBlocksAll(message: string, blockedWords: seq<string>, i: nat)
    requires i < |blockedWords| && Normalize(blockedWords[i]) == ""
    requires |Trim(message)| > 2
    ensures IsBlocked(message, blockedWords)
  {
    ContainsEmpty(Normalize(message));
    assert WordMatches(message, blockedWords[i]);
  }

  /** Against a non-empty list, a token of three or more punctuation characters blocks: it normalizes to "", which every blocked word contains. */
  lemma PunctuationTokenBlocks(message: string, blockedWords: seq<string>, k: nat)
    requires |blockedWords| > 0 && |Trim(message)| > 2
    requires k < |SplitWhitespace(ToLower(message))|
    requires var token := SplitWhitespace(ToLower(message))[k];
      |Trim(token)| > 2 && Normalize(token) == ""
    ensures IsBlocked(message, blockedWords)
  {
    ContainsEmpty(Normalize(blockedWords[0]));
    assert TokenMatches(SplitWhitespace(ToLower(message))[k], Normalize(blockedWords[0]));
    assert WordMatches(message, blockedWords[0]);
  }

  /** A message made only of three or more punctuation characters ("...") is blocked by any non-empty list. */
  lemma PunctuationMessageBlocked(message: string, blockedWords: seq<string>)
    requires |blockedWords| > 0 && |message| >= 3
    requires forall k :: 0 <= k < |message| ==>
      ' ' < message[k] && !IsRegexSpace(message[k]) && Substitution(message[k]).None? && !IsLetterOrDigit(message[k])
    ensures IsBlocked(message, blockedWords)
  {
    var lower := ToLower(message);
    TrimNoControl(message);
    TrimNoControl(lower);
    SplitWhitespaceNoSpace(lower);
    NormalizeLoweredDropsAll(lower);
    LowerNoUpper(lower);
    PunctuationTokenBlocks(message, blockedWords, 0);
  }

  /** The first test alone suffices: a message whose normalization contains a normalized blocked word is blocked. */
  lemma BlockedByContainment(message: string, blockedWords: seq<string>, i: nat)
    requires |Trim(message)| > 2 && i < |blockedWords|
    requires Contains(Normalize(message), Normalize(blockedWords[i]))
    ensures IsBlocked(message, blockedWords)
  {
    assert WordMatches(message, blockedWords[i]);
  }

  /** Normalizing one more character appends what that character contributes. */
  lemma NormalizeLoweredSnoc(t: string, c: char)
    ensures NormalizeLowered(t + [c]) == NormalizeLowered(t) + NormalizeChar(c)
  {
    assert (t + [c])[..|t|] == t;
  }

  /** Normalization works character by character, so it distributes over concatenation. */
  lemma {:induction false} NormalizeLoweredConcat(t: string, u: string)
    ensures NormalizeLowered(t + u) == NormalizeLowered(t) + NormalizeLowered(u)
    decreases |u|
  {
    if u == [] {
      assert t + u == t;
    } else {
      var init, c := u[..|u| - 1], u[|u| - 1];
      calc {
        NormalizeLowered(t + u);
        { assert t + u == (t + init) + [c]; }
        NormalizeLowered((t + init) + [c]);
        { NormalizeLoweredSnoc(t + init, c); }
        NormalizeLowered(t + init) + NormalizeChar(c);
        { NormalizeLoweredConcat(t, init); }
        NormalizeLowered(t) + NormalizeLowered(init) + NormalizeChar(c);
        { NormalizeLoweredSnoc(init, c); assert init + [c] == u; }
        NormalizeLowered(t) + NormalizeLowered(u);
      }
    }
  }

  lemma Sp4mNormal()
    ensures Normalize("Sp4m!") == "spami"
  {
    SpNormal();
    FourMBangNormal();
    assert ToLower("Sp4m!") == "sp" + "4m!";
    NormalizeLoweredConcat("sp", "4m!");
  }

  lemma SpNormal()
    ensures NormalizeLowered("sp") == "sp"
  {
    NormalizeLoweredSnoc("", 's');
    NormalizeLoweredSnoc("s", 'p');
  }

  lemma FourMBangNormal()
    ensures NormalizeLowered("4m!") == "ami"
  {
    NormalizeLoweredSnoc("", '4');
    NormalizeLoweredSnoc("4", 'm');
    NormalizeLoweredSnoc("4m", '!');
  }

  /** Look-alike digits are undone before matching: "Sp4m!" normalizes to "spami" and is caught by "spam". */
  lemma LookAlikeDigitsBlocked()
    ensures Normalize("Sp4m!") == "spami"
    ensures IsBlocked("Sp4m!", ["spam"])
  {
    Sp4mNormal();
    SpamIsNormal();
    assert OccursAt("spami", "spam", 0);
    TrimNoControl("Sp4m!");
    BlockedByContainment("Sp4m!", ["spam"], 0);
  }

  lemma SpamIsNormal()
    ensures Normalize("spam") == "spam"
  {
    LowerNoUpper("spam");
    NormalizeLoweredCanonical("spam");
  }

  /** An empty list blocks nothing. */
  lemma EmptyListBlocksNothing(message: string)
    ensures !IsBlocked(message, [])
  {
  }

  /** A message of at most two characters once trimmed is never blocked, whatever the list. */
  lemma ShortMessagePasses(message: string, blockedWords: seq<string>)
    requires |Trim(message)| <= 2
    ensures !IsBlocked(message, blockedWords)
  {
  }
}
