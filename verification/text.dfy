/** Character-level string operations used by the column resolver:
    ASCII lower-casing (Python's `str.lower()` restricted to ASCII) and
    substring containment (Python's `needle in haystack`). */
module Text {

  predicate IsUpper(c: char) {
    'A' <= c <= 'Z'
  }

  /** Lower-cases one ASCII letter; every other character is unchanged. */
  function LowerChar(c: char): char {
    if IsUpper(c) then (c as int + 32) as char else c
  }

  /** `s.lower()`: the same length, each character lower-cased. */
  function Lower(s: string): (r: string)
    ensures |r| == |s|
    ensures forall i :: 0 <= i < |s| ==> r[i] == LowerChar(s[i])
    ensures forall i :: 0 <= i < |r| ==> !IsUpper(r[i])
  {
    if |s| == 0 then "" else [LowerChar(s[0])] + Lower(s[1..])
  }

  /** Lower-casing twice is lower-casing once: the resolver lower-cases
      names that were already lower-cased, and nothing changes. */
  lemma {:induction false} LowerIdempotent(s: string)
    ensures Lower(Lower(s)) == Lower(s)
  {
    var l := Lower(s);
    var ll := Lower(l);
    assert |ll| == |l|;
    forall i | 0 <= i < |l|
      ensures ll[i] == l[i]
    {
      assert !IsUpper(l[i]);
    }
  }

  /** `needle` occurs in `hay` starting at position `i`. */
  ghost predicate OccursAt(needle: string, hay: string, i: int) {
    0 <= i && i + |needle| <= |hay| && hay[i..i + |needle|] == needle
  }

  /** Python's `needle in hay` for strings: true exactly when `needle`
      occurs somewhere in `hay` (so the empty needle is in every string). */
  function Contains(needle: string, hay: string): (b: bool)
    ensures b <==> exists i :: OccursAt(needle, hay, i)
    decreases |hay|
  {
    if |needle| > |hay| then
      assert forall i :: !OccursAt(needle, hay, i);
      false
    else if hay[..|needle|] == needle then
      assert OccursAt(needle, hay, 0);
      true
    else
      var rest := Contains(needle, hay[1..]);
      assert !OccursAt(needle, hay, 0);
      assert rest ==> exists i :: OccursAt(needle, hay, i) by {
        if rest {
          var i :| OccursAt(needle, hay[1..], i);
          assert OccursAt(needle, hay, i + 1);
        }
      }
      assert (exists i :: OccursAt(needle, hay, i)) ==> rest by {
        if exists i :: OccursAt(needle, hay, i) {
          var i :| OccursAt(needle, hay, i);
          assert i != 0;
          assert OccursAt(needle, hay[1..], i - 1);
        }
      }
      rest
  }

  /** A string that contains a non-empty needle is itself non-empty. */
  lemma ContainsNonEmpty(needle: string, hay: string)
    requires |needle| > 0 && Contains(needle, hay)
    ensures |hay| >= |needle|
  {
  }
}
