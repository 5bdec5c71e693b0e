/**
 * Characters, lower-casing and substring containment as the scoring code
 * uses them (Python's `str.lower()` and the `in` operator on strings).
 * Only ASCII letters change case in this model.
 */
module Text {

  predicate IsLower(c: char) { 'a' <= c <= 'z' }

  predicate IsUpper(c: char) { 'A' <= c <= 'Z' }

  predicate IsDigit(c: char) { '0' <= c <= '9' }

  /** A character of the regular-expression class `\w`, restricted to ASCII. */
  predicate IsWordChar(c: char) { IsLower(c) || IsUpper(c) || IsDigit(c) || c == '_' }

  predicate AllLower(w: string) { forall k :: 0 <= k < |w| ==> IsLower(w[k]) }

  function LowerChar(c: char): (d: char)
    ensures !IsUpper(d)
    ensures IsUpper(c) ==> IsLower(d) && d as int == c as int + 32
    ensures !IsUpper(c) ==> d == c
  {
    if IsUpper(c) then (c as int + 32) as char else c
  }

  /** `str.lower()`: every ASCII capital replaced by its small letter. */
  function Lower(s: string): (r: string)
    ensures |r| == |s|
    ensures forall i :: 0 <= i < |s| ==> r[i] == LowerChar(s[i])
  {
    seq(|s|, i requires 0 <= i < |s| => LowerChar(s[i]))
  }

  /** Lower-casing changes nothing the second time. */
  lemma LowerIdempotent(s: string)
    ensures Lower(Lower(s)) == Lower(s)
  {
  }

  /** The specification of substring containment: `p` sits in `t` at `i`. */
  ghost predicate OccursAt(p: string, t: string, i: int)
  {
    0 <= i && i + |p| <= |t| && t[i..i + |p|] == p
  }

  /**
   * Python's `p in t` for strings, scanning `t` from the left. The empty
   * phrase occurs in every text; `OccursSpec` characterises the rest.
   */
  predicate Occurs(p: string, t: string): (r: bool)
    ensures r ==> |p| <= |t|
    decreases |t|
  {
    |p| <= |t| && (t[..|p|] == p || (0 < |t| && Occurs(p, t[1..])))
  }

  /** `Occurs` holds exactly when `p` occurs at some position of `t`. */
  lemma {:induction false} OccursSpec(p: string, t: string)
    ensures Occurs(p, t) <==> exists i :: OccursAt(p, t, i)
    decreases |t|
  {
    if |p| <= |t| && t[..|p|] != p && 0 < |t| {
      OccursSpec(p, t[1..]);
      if Occurs(p, t[1..]) {
        var i :| OccursAt(p, t[1..], i);
        assert t[1..][i..i + |p|] == t[i + 1..i + 1 + |p|];
        assert OccursAt(p, t, i + 1);
      }
      if i :| OccursAt(p, t, i) {
        assert i != 0;
        assert t[1..][i - 1..i - 1 + |p|] == t[i..i + |p|];
        assert OccursAt(p, t[1..], i - 1);
      }
    } else if |p| <= |t| && t[..|p|] == p {
      assert OccursAt(p, t, 0);
    }
  }

  /**
   * A text that contains a phrase contains every prefix of it: a text
   * mentioning "javascript" counts as mentioning "java".
   */
  lemma PrefixOccurs(p: string, w: string, t: string)
    requires |p| <= |w| && w[..|p|] == p
    requires Occurs(w, t)
    ensures Occurs(p, t)
  {
    OccursSpec(w, t);
    OccursSpec(p, t);
    var i :| OccursAt(w, t, i);
    assert t[i..i + |p|] == w[..|p|];
    assert OccursAt(p, t, i);
  }

  /** No non-empty phrase occurs in the empty text. */
  lemma NothingOccursInEmpty(p: string)
    requires p != []
    ensures !Occurs(p, [])
  {
  }
}
