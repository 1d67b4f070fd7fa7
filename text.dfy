/** The two string operations the blog search uses: `toLowerCase()` and
    `includes`. Lower-casing is modelled on ASCII letters only. */
module Text {

  predicate IsUpper(c: char) {
    'A' <= c <= 'Z'
  }

  /** ASCII lower-casing of one character; other characters are unchanged. */
  function LowerChar(c: char): char {
    if IsUpper(c) then (c as int + 32) as char else c
  }

  /** `s.toLowerCase()`, on ASCII letters. */
  function Lower(s: string): string {
    seq(|s|, i requires 0 <= i < |s| => LowerChar(s[i]))
  }

  predicate StartsWith(s: string, prefix: string) {
    |prefix| <= |s| && s[..|prefix|] == prefix
  }

  /** `hay.includes(needle)`: `needle` starts at some position of `hay`. */
  predicate Contains(hay: string, needle: string)
    decreases |hay|
  {
    StartsWith(hay, needle) || (hay != [] && Contains(hay[1..], needle))
  }

  // ---------------------------------------------------------------------

  /** Lower-casing keeps the length and works one character at a time: an
      upper-case letter becomes the lower-case letter at the same place in
      the alphabet, and every other character is unchanged, so no upper-case
      letter remains. */
  lemma LowerSpec(s: string)
    ensures |Lower(s)| == |s|
    ensures forall i :: 0 <= i < |s| && IsUpper(s[i]) ==>
                        Lower(s)[i] == "abcdefghijklmnopqrstuvwxyz"[s[i] as int - 'A' as int]
    ensures forall i :: 0 <= i < |s| && !IsUpper(s[i]) ==> Lower(s)[i] == s[i]
    ensures forall i :: 0 <= i < |s| ==> !IsUpper(Lower(s)[i])
  {
  }

  lemma LowerAppend(a: string, b: string)
    ensures Lower(a + b) == Lower(a) + Lower(b)
  {
  }

  /** `needle` occurs in `hay` starting at index `i`. */
  predicate OccursAt(hay: string, needle: string, i: int) {
    0 <= i <= |hay| - |needle| && hay[i..i + |needle|] == needle
  }

  /** `includes` finds `needle` exactly when it occurs at some index. */
  lemma {:induction false} ContainsAt(hay: string, needle: string)
    ensures Contains(hay, needle) <==> exists i :: OccursAt(hay, needle, i)
    decreases |hay|
  {
    if StartsWith(hay, needle) {
      assert OccursAt(hay, needle, 0);
    }
    if hay != [] {
      ContainsAt(hay[1..], needle);
      if Contains(hay[1..], needle) {
        var i :| OccursAt(hay[1..], needle, i);
        assert hay[1..][i..i + |needle|] == hay[i + 1..i + 1 + |needle|];
        assert OccursAt(hay, needle, i + 1);
      }
      if exists i :: OccursAt(hay, needle, i) {
        var i :| OccursAt(hay, needle, i);
        if i > 0 {
          assert hay[1..][i - 1..i - 1 + |needle|] == hay[i..i + |needle|];
          assert OccursAt(hay[1..], needle, i - 1);
        }
      }
    }
  }

  /** Every string contains the empty string and itself. */
  lemma ContainsTrivial(hay: string)
    ensures Contains(hay, "")
    ensures Contains(hay, hay)
  {
    assert hay[..0] == "";
    assert hay[..|hay|] == hay;
  }

  /** A string containing `a + b` contains `a`: typing more characters into a
      search box can only narrow what it matches. */
  lemma ContainsPrefix(hay: string, a: string, b: string)
    requires Contains(hay, a + b)
    ensures Contains(hay, a)
  {
    ContainsAt(hay, a + b);
    var i :| OccursAt(hay, a + b, i);
    assert hay[i..i + |a|] == (a + b)[..|a|] == a;
    assert OccursAt(hay, a, i);
    ContainsAt(hay, a);
  }
}
