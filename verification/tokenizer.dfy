/**
 * The two word extractors of the scoring code, each modelled as the list of
 * matches Python's `re.findall` returns, scanning left to right:
 *  - `FindWords`: the pattern `\b[a-z]{3,}\b` of the main scorer;
 *  - `FindEscapedWords`: the pattern that the variant scorer writes as the
 *    raw string `r'\\b[a-z]{3,}\\b'`, i.e. a literal backslash and `b`,
 *    three or more small letters, and again a literal backslash and `b`.
 */
module Tokenizer {
  import opened Text
  import opened Seqs

  /** End of the run of word characters that starts at `i`. */
  function RunEnd(s: string, i: nat): (j: nat)
    requires i <= |s|
    ensures i <= j <= |s|
    ensures forall k :: i <= k < j ==> IsWordChar(s[k])
    ensures j == |s| || !IsWordChar(s[j])
    decreases |s| - i
  {
    if i == |s| || !IsWordChar(s[i]) then i else RunEnd(s, i + 1)
  }

  /**
   * The specification of a match of `\b[a-z]{3,}\b` at `s[p..q]`: three or
   * more small letters, with a word boundary on either side.
   */
  ghost predicate TokenAt(s: string, p: int, q: int)
  {
    0 <= p && p + 3 <= q <= |s| && AllLower(s[p..q])
    && (p == 0 || !IsWordChar(s[p - 1]))
    && (q == |s| || !IsWordChar(s[q]))
  }

  /** `i` is not strictly inside a run of word characters. */
  ghost predicate AtBoundary(s: string, i: nat)
    requires i <= |s|
  {
    i == 0 || i == |s| || !IsWordChar(s[i - 1]) || !IsWordChar(s[i])
  }

  /**
   * `re.findall(r'\b[a-z]{3,}\b', s[i..])`: every run of word characters is
   * either a match as a whole or contributes nothing, so a run such as
   * `python3` or `_sql` yields no word.
   */
  function FindWords(s: string, i: nat): (ws: seq<string>)
    requires i <= |s|
    ensures forall k :: 0 <= k < |ws| ==> |ws[k]| >= 3 && AllLower(ws[k])
    decreases |s| - i
  {
    if i == |s| then []
    else if !IsWordChar(s[i]) then FindWords(s, i + 1)
    else
      var j := RunEnd(s, i);
      if j - i >= 3 && AllLower(s[i..j]) then [s[i..j]] + FindWords(s, j)
      else FindWords(s, j)
  }

  /** The word set of a text: `set(re.findall(r'\b[a-z]{3,}\b', text))`. */
  function Words(text: string): set<string>
  {
    Elems(FindWords(text, 0))
  }

  /** Helper: a letter run starting at a boundary with its first letter at `i` ends at `RunEnd`. */
  lemma TokenEndsAtRunEnd(s: string, i: nat, q: int)
    requires i < |s| && TokenAt(s, i, q)
    ensures q == RunEnd(s, i)
  {
  }

  /**
   * The matches found from a boundary position `i` on are exactly the
   * tokens (in the sense of `TokenAt`) that start at or after `i`.
   */
  lemma {:induction false} FindWordsSpec(s: string, i: nat, w: string)
    requires i <= |s| && AtBoundary(s, i)
    ensures w in FindWords(s, i) <==> exists p, q :: i <= p && TokenAt(s, p, q) && s[p..q] == w
    decreases |s| - i
  {
    if i == |s| {
    } else if !IsWordChar(s[i]) {
      FindWordsSpec(s, i + 1, w);
      if p, q :| i <= p && TokenAt(s, p, q) && s[p..q] == w {
        assert s[p..q][0] == s[p];
        assert p != i;
      }
    } else {
      var j := RunEnd(s, i);
      FindWordsSpec(s, j, w);
      var emitted := j - i >= 3 && AllLower(s[i..j]);
      assert emitted ==> TokenAt(s, i, j);
      if p, q :| i <= p && TokenAt(s, p, q) && s[p..q] == w {
        if p == i {
          TokenEndsAtRunEnd(s, i, q);
        } else {
          assert p >= j;
          assert FindWords(s, i) == (if emitted then [s[i..j]] else []) + FindWords(s, j);
        }
      }
    }
  }

  /** Membership in `Words` is exactly being a token somewhere in the text. */
  lemma WordsSpec(text: string, w: string)
    ensures w in Words(text) <==> exists p, q :: TokenAt(text, p, q) && text[p..q] == w
  {
    FindWordsSpec(text, 0, w);
  }

  /** Every word is three or more letters from a to z. */
  lemma WordShape(text: string, w: string)
    requires w in Words(text)
    ensures |w| >= 3 && AllLower(w)
  {
    var ws := FindWords(text, 0);
    var k :| 0 <= k < |ws| && ws[k] == w;
  }

  /** Digits or an underscore touching a run of letters suppress it. */
  lemma DigitSuffixYieldsNothing()
    ensures Words("python3 c_sql") == {}
  {
    var s := "python3 c_sql";
    assert s[7] == ' ' && IsWordChar(s[6]) && AllLower(s[..6]) && !IsLower(s[6]);
    assert RunEnd(s, 7) == 7;
    assert RunEnd(s, 6) == 7 && RunEnd(s, 5) == 7 && RunEnd(s, 4) == 7;
    assert RunEnd(s, 3) == 7 && RunEnd(s, 2) == 7 && RunEnd(s, 1) == 7 && RunEnd(s, 0) == 7;
    assert s[9] == '_' && !IsLower(s[9]);
    assert RunEnd(s, 12) == 13 && RunEnd(s, 11) == 13 && RunEnd(s, 10) == 13;
    assert RunEnd(s, 9) == 13 && RunEnd(s, 8) == 13;
    assert !AllLower(s[0..7]) by { assert s[0..7][6] == s[6]; }
    assert !AllLower(s[8..13]) by { assert s[8..13][1] == s[9]; }
    assert FindWords(s, 13) == [];
    assert FindWords(s, 8) == [];
    assert FindWords(s, 7) == [];
    assert FindWords(s, 0) == [];
  }

  /** End of the run of small letters that starts at `i`. */
  function LetterRunEnd(s: string, i: nat): (j: nat)
    requires i <= |s|
    ensures i <= j <= |s|
    ensures forall k :: i <= k < j ==> IsLower(s[k])
    ensures j == |s| || !IsLower(s[j])
    decreases |s| - i
  {
    if i == |s| || !IsLower(s[i]) then i else LetterRunEnd(s, i + 1)
  }

  /** A literal backslash followed by `b` starts at `i`. */
  predicate EscapeAt(s: string, i: int)
  {
    0 <= i && i + 1 < |s| && s[i] == '\\' && s[i + 1] == 'b'
  }

  /**
   * `re.findall(r'\\b[a-z]{3,}\\b', s[i..])`. The letters are matched
   * greedily, and a shorter run cannot be followed by a backslash, so a
   * match at `i` exists only with the full letter run.
   */
  function FindEscapedWords(s: string, i: nat): (ws: seq<string>)
    requires i <= |s|
    ensures forall w :: w in ws ==>
              && |w| >= 7 && w[0] == '\\' && w[1] == 'b'
              && AllLower(w[2..|w| - 2])
              && w[|w| - 2] == '\\' && w[|w| - 1] == 'b'
    decreases |s| - i
  {
    if i + 1 >= |s| then []
    else if EscapeAt(s, i) then
      var j := LetterRunEnd(s, i + 2);
      if j - (i + 2) >= 3 && EscapeAt(s, j) then
        var w := s[i..j + 2];
        var letters := w[2..|w| - 2];
        assert AllLower(letters) by {
          forall k | 0 <= k < |letters| ensures IsLower(letters[k]) {
            assert letters[k] == s[i + 2 + k];
          }
        }
        [w] + FindEscapedWords(s, j + 2)
      else FindEscapedWords(s, i + 1)
    else FindEscapedWords(s, i + 1)
  }

  /** The variant scorer's word set. */
  function EscapedWords(text: string): (words: set<string>)
    ensures forall w :: w in words ==>
              && |w| >= 7 && w[0] == '\\' && w[1] == 'b'
              && AllLower(w[2..|w| - 2])
              && w[|w| - 2] == '\\' && w[|w| - 1] == 'b'
  {
    Elems(FindEscapedWords(text, 0))
  }

  /** Without a backslash in the text the variant pattern matches nothing. */
  lemma {:induction false} NoBackslashNoEscapedWords(s: string, i: nat)
    requires i <= |s|
    requires forall k :: 0 <= k < |s| ==> s[k] != '\\'
    ensures FindEscapedWords(s, i) == []
    decreases |s| - i
  {
    if i + 1 < |s| {
      assert !EscapeAt(s, i);
      NoBackslashNoEscapedWords(s, i + 1);
    }
  }
}
