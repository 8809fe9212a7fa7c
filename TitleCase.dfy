/**
 * `toTitleCase`: a global replace of the pattern `\w\S*` in which each match
 * keeps its first character upper-cased and the rest lower-cased.  A match
 * starts at a word character and runs up to the next whitespace character.
 */
module TitleCase {
  import opened Strings

  /** `\w` without the `u` flag: ASCII letters, digits and underscore. */
  predicate IsWordChar(c: char)
  {
    'a' <= c <= 'z' || 'A' <= c <= 'Z' || '0' <= c <= '9' || c == '_'
  }

  lemma WordCharIsNotWhitespace(c: char)
    ensures IsWordChar(c) ==> !IsWhitespace(c)
    ensures IsWordChar(LowerChar(c)) == IsWordChar(c) && IsWordChar(UpperChar(c)) == IsWordChar(c)
  {
  }

  /** Length of the longest whitespace-free prefix of `s`: how far the greedy `\S*` reaches. */
  function NonSpaceRun(s: string): (n: nat)
    ensures n <= |s|
    ensures forall k :: 0 <= k < n ==> !IsWhitespace(s[k])
    ensures n < |s| ==> IsWhitespace(s[n])
    decreases |s|
  {
    if |s| == 0 || IsWhitespace(s[0]) then 0 else 1 + NonSpaceRun(s[1..])
  }

  /** The replacement for one match: first character upper-cased, the rest lower-cased. */
  function Capitalize(t: string): string
    requires |t| > 0
  {
    [UpperChar(t[0])] + Lower(t[1..])
  }

  /**
   * The global replace, scanning left to right: a position holding a word
   * character starts a match that covers it and the following non-whitespace
   * characters; any other position is copied and the scan moves on by one.
   */
  function ToTitleCase(s: string): string
    decreases |s|
  {
    if |s| == 0 then ""
    else if IsWordChar(s[0]) then
      var n := 1 + NonSpaceRun(s[1..]);
      Capitalize(s[..n]) + ToTitleCase(s[n..])
    else [s[0]] + ToTitleCase(s[1..])
  }

  /** Whether the scan is inside a match after reading `c`, given whether it was before. */
  function Step(inWord: bool, c: char): bool
  {
    (inWord && !IsWhitespace(c)) || (!inWord && IsWordChar(c))
  }

  /** What the replace writes for `c`, given whether the scan is inside a match before `c`. */
  function Emit(inWord: bool, c: char): char
  {
    if inWord && !IsWhitespace(c) then LowerChar(c)
    else if !inWord && IsWordChar(c) then UpperChar(c)
    else c
  }

  /**
   * An independent, character-at-a-time reading of the same rule: `inWord`
   * says whether the previous character belongs to a match.
   */
  function Scan(s: string, inWord: bool): (r: string)
    ensures |r| == |s|
    decreases |s|
  {
    if |s| == 0 then "" else [Emit(inWord, s[0])] + Scan(s[1..], Step(inWord, s[0]))
  }

  /** Whether the scan of `s`, started in state `inWord`, is inside a match just before position `i`. */
  function StateAt(s: string, inWord: bool, i: nat): bool
    requires i <= |s|
  {
    if i == 0 then inWord else Step(StateAt(s, inWord, i - 1), s[i - 1])
  }

  lemma {:induction false} StateAtTail(s: string, inWord: bool, i: nat)
    requires 0 < i <= |s|
    ensures StateAt(s[1..], Step(inWord, s[0]), i - 1) == StateAt(s, inWord, i)
  {
    if i > 1 {
      StateAtTail(s, inWord, i - 1);
      assert s[1..][i - 2] == s[i - 1];
    }
  }

  /** The scanner writes each character as `Emit` dictates for the state reached just before it. */
  lemma {:induction false} ScanAt(s: string, inWord: bool, i: nat)
    requires i < |s|
    ensures Scan(s, inWord)[i] == Emit(StateAt(s, inWord, i), s[i])
    decreases i
  {
    if i > 0 {
      ScanAt(s[1..], Step(inWord, s[0]), i - 1);
      StateAtTail(s, inWord, i);
    }
  }

  /** Inside a match, the scanner lower-cases the whitespace-free run and then leaves the match. */
  lemma {:induction false} ScanInWord(t: string)
    ensures Scan(t, true) == Lower(t[..NonSpaceRun(t)]) + Scan(t[NonSpaceRun(t)..], false)
    decreases |t|
  {
    if |t| == 0 {
    } else if IsWhitespace(t[0]) {
      WordCharIsNotWhitespace(t[0]);
      assert t[..0] == "" && t[0..] == t;
    } else {
      var m := NonSpaceRun(t[1..]);
      ScanInWord(t[1..]);
      assert t[1..][..m] == t[1..1 + m];
      assert t[1..][m..] == t[1 + m..];
      assert Lower(t[..1 + m]) == [LowerChar(t[0])] + Lower(t[1..1 + m]);
    }
  }

  /** The regular-expression replace and the character scanner agree on every string. */
  lemma {:induction false} TitleCaseIsScan(s: string)
    ensures ToTitleCase(s) == Scan(s, false)
    decreases |s|
  {
    if |s| == 0 {
    } else if IsWordChar(s[0]) {
      var m := NonSpaceRun(s[1..]);
      var n := 1 + m;
      ScanInWord(s[1..]);
      TitleCaseIsScan(s[n..]);
      assert s[..n][1..] == s[1..][..m];
      assert s[1..][m..] == s[n..];
    } else {
      TitleCaseIsScan(s[1..]);
    }
  }

  /** Title case changes letter case only: same length, same text once lower-cased, whitespace in place. */
  lemma {:induction false} ScanChangesCaseOnly(s: string, inWord: bool)
    ensures |Scan(s, inWord)| == |s|
    ensures Lower(Scan(s, inWord)) == Lower(s)
    ensures forall i :: 0 <= i < |s| ==> (IsWhitespace(Scan(s, inWord)[i]) <==> IsWhitespace(s[i]))
    decreases |s|
  {
    if |s| > 0 {
      CaseMappingKeepsWhitespace(s[0]);
      var inNext := Step(inWord, s[0]);
      ScanChangesCaseOnly(s[1..], inNext);
      var r := Scan(s, inWord);
      assert r == [r[0]] + Scan(s[1..], inNext);
      assert Lower(r) == [LowerChar(r[0])] + Lower(Scan(s[1..], inNext));
      assert Lower(s) == [LowerChar(s[0])] + Lower(s[1..]);
      forall i | 0 < i < |s| ensures IsWhitespace(r[i]) <==> IsWhitespace(s[i]) {
        assert r[i] == Scan(s[1..], inNext)[i - 1];
      }
    }
  }

  /** Applying the scanner to its own output changes nothing. */
  lemma {:induction false} ScanIdempotent(s: string, inWord: bool)
    ensures Scan(Scan(s, inWord), inWord) == Scan(s, inWord)
    decreases |s|
  {
    if |s| > 0 {
      CaseMappingKeepsWhitespace(s[0]);
      WordCharIsNotWhitespace(s[0]);
      var inNext := Step(inWord, s[0]);
      ScanIdempotent(s[1..], inNext);
      var r := Scan(s, inWord);
      assert r[1..] == Scan(s[1..], inNext);
    }
  }

  /** `toTitleCase` changes letter case only. */
  lemma TitleCaseChangesCaseOnly(s: string)
    ensures |ToTitleCase(s)| == |s|
    ensures Lower(ToTitleCase(s)) == Lower(s)
    ensures forall i :: 0 <= i < |s| ==> (IsWhitespace(ToTitleCase(s)[i]) <==> IsWhitespace(s[i]))
  {
    TitleCaseIsScan(s);
    ScanChangesCaseOnly(s, false);
  }

  /** Title-casing a heading twice gives the same heading as title-casing it once. */
  lemma TitleCaseIdempotent(s: string)
    ensures ToTitleCase(ToTitleCase(s)) == ToTitleCase(s)
  {
    TitleCaseIsScan(s);
    TitleCaseIsScan(Scan(s, false));
    ScanIdempotent(s, false);
  }

  /** A word character at the start or right after whitespace starts a match and is upper-cased. */
  lemma TitleCaseStartsMatch(s: string, i: nat)
    requires i < |s| && IsWordChar(s[i])
    requires i == 0 || IsWhitespace(s[i - 1])
    ensures |ToTitleCase(s)| == |s| && ToTitleCase(s)[i] == UpperChar(s[i])
  {
    TitleCaseIsScan(s);
    ScanAt(s, false, i);
  }

  /** A non-whitespace character right after a word character continues a match and is lower-cased. */
  lemma TitleCaseContinuesMatch(s: string, i: nat)
    requires 0 < i < |s| && IsWordChar(s[i - 1]) && !IsWhitespace(s[i])
    ensures |ToTitleCase(s)| == |s| && ToTitleCase(s)[i] == LowerChar(s[i])
  {
    TitleCaseIsScan(s);
    ScanAt(s, false, i);
  }

  /** Whitespace is copied unchanged. */
  lemma TitleCaseKeepsWhitespace(s: string, i: nat)
    requires i < |s| && IsWhitespace(s[i])
    ensures |ToTitleCase(s)| == |s| && ToTitleCase(s)[i] == s[i]
  {
    TitleCaseIsScan(s);
    ScanAt(s, false, i);
    WordCharIsNotWhitespace(s[i]);
  }

  /** The two word starts of "acme house" are upper-cased. */
  lemma ExampleWordStarts(s: string, i: nat)
    requires s == "acme house" && (i == 0 || i == 5)
    ensures |ToTitleCase(s)| == |s| && ToTitleCase(s)[i] == "Acme House"[i]
  {
    TitleCaseStartsMatch(s, i);
  }

  /** The other letters of "acme house" are lower-cased, which leaves them as they are. */
  lemma ExampleWordRests(s: string, i: nat)
    requires s == "acme house" && 0 < i < |s| && i != 4 && i != 5
    ensures |ToTitleCase(s)| == |s| && ToTitleCase(s)[i] == "Acme House"[i]
  {
    TitleCaseContinuesMatch(s, i);
  }

  /** The organization name of a one-record example dataset. */
  lemma TitleCaseExample(s: string)
    requires s == "acme house"
    ensures ToTitleCase(s) == "Acme House"
  {
    var t := "Acme House";
    var r := ToTitleCase(s);
    TitleCaseChangesCaseOnly(s);
    forall i | 0 <= i < |s| ensures r[i] == t[i] {
      if i == 0 || i == 5 {
        ExampleWordStarts(s, i);
      } else if i == 4 {
        TitleCaseKeepsWhitespace(s, i);
      } else {
        ExampleWordRests(s, i);
      }
    }
  }
}
