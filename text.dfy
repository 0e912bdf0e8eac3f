/** The two string operations the filter relies on: lower-casing a string
    and testing whether one string occurs inside another. Lower-casing is
    the ASCII fold; the rest of Unicode's case mapping is not modelled. */
module Text {

  /** Folds one ASCII upper-case letter to lower case; every other character
      is left as it is. */
  function LowerChar(c: char): (d: char)
    ensures 'A' <= c <= 'Z' ==> 'a' <= d <= 'z' && d as int - c as int == 32
    ensures !('A' <= c <= 'Z') ==> d == c
  {
    if 'A' <= c <= 'Z' then (c as int + 32) as char else c
  }

  /** `s.toLowerCase()`, on ASCII: the same length, each character folded. */
  function Lower(s: string): (r: string)
    ensures |r| == |s|
    ensures forall i :: 0 <= i < |s| ==> r[i] == LowerChar(s[i])
  {
    if s == [] then [] else [LowerChar(s[0])] + Lower(s[1..])
  }

  /** Folding a folded string changes nothing: it follows character by
      character from the contract of Lower. */
  lemma LowerIdempotent(s: string)
    ensures Lower(Lower(s)) == Lower(s)
  {
  }

  /** `needle` occurs in `hay` starting at position `i`. */
  ghost predicate OccursAt(hay: string, needle: string, i: int)
  {
    0 <= i && i + |needle| <= |hay| && hay[i..i + |needle|] == needle
  }

  predicate StartsWith(s: string, prefix: string)
  {
    |prefix| <= |s| && s[..|prefix|] == prefix
  }

  /** `hay.includes(needle)`: tries every start position from the front.
      A needle longer than the haystack is never included, and a prefix
      always is. */
  function Includes(hay: string, needle: string): (b: bool)
    ensures b ==> |needle| <= |hay|
    ensures StartsWith(hay, needle) ==> b
    decreases |hay|
  {
    StartsWith(hay, needle) || (hay != [] && Includes(hay[1..], needle))
  }

  /** The empty string occurs in every string. */
  lemma IncludesEmpty(hay: string)
    ensures Includes(hay, "")
  {
  }

  /** An occurrence at any position is found by Includes. */
  lemma {:induction false} OccursAtIncludes(hay: string, needle: string, i: int)
    requires OccursAt(hay, needle, i)
    ensures Includes(hay, needle)
    decreases i
  {
    if i > 0 {
      assert hay[1..][i - 1..i - 1 + |needle|] == hay[i..i + |needle|];
      OccursAtIncludes(hay[1..], needle, i - 1);
    } else {
      assert hay[..|needle|] == hay[i..i + |needle|];
    }
  }

  /** What Includes finds is an occurrence at some position. */
  lemma {:induction false} IncludesOccurs(hay: string, needle: string)
    requires Includes(hay, needle)
    ensures exists i :: OccursAt(hay, needle, i)
    decreases |hay|
  {
    if StartsWith(hay, needle) {
      assert OccursAt(hay, needle, 0);
    } else {
      var tail := hay[1..];
      IncludesOccurs(tail, needle);
      var i :| OccursAt(tail, needle, i);
      assert hay[i + 1..i + 1 + |needle|] == tail[i..i + |needle|];
      assert OccursAt(hay, needle, i + 1);
    }
  }

  /** Includes holds exactly when the needle occurs at some position. */
  lemma IncludesIffOccurs(hay: string, needle: string)
    ensures Includes(hay, needle) <==> exists i :: OccursAt(hay, needle, i)
  {
    if Includes(hay, needle) {
      IncludesOccurs(hay, needle);
    }
    if exists i :: OccursAt(hay, needle, i) {
      var i :| OccursAt(hay, needle, i);
      OccursAtIncludes(hay, needle, i);
    }
  }

  /** A needle whose first character does not appear in the haystack is
      not included in it. */
  lemma IncludesNeedsFirstChar(hay: string, needle: string)
    requires needle != [] && needle[0] !in hay
    ensures !Includes(hay, needle)
  {
    forall i ensures !OccursAt(hay, needle, i) {
      if 0 <= i && i + |needle| <= |hay| {
        assert hay[i..i + |needle|][0] == hay[i];
      }
    }
    IncludesIffOccurs(hay, needle);
  }
}
