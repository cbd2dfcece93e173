/** `reverse` of reverse/src/main.rs without the grapheme feature: the
    characters of a string in reverse order. */
module Reversal {
  /** Collecting the characters of `s` walked from the back. */
  function Reverse(s: string): (r: string)
    ensures |r| == |s|
    ensures forall i :: 0 <= i < |s| ==> r[i] == s[|s| - 1 - i]
  {
    if s == [] then [] else [s[|s| - 1]] + Reverse(s[..|s| - 1])
  }

  /** Reversing twice gives the string back. */
  lemma ReverseInvolution(s: string)
    ensures Reverse(Reverse(s)) == s
  {
  }

  /** The reverse of a concatenation is the concatenation of the reverses,
      swapped. */
  lemma ReverseConcat(a: string, b: string)
    ensures Reverse(a + b) == Reverse(b) + Reverse(a)
  {
  }

  /** The empty string and single characters are their own reverses; longer
      strings are exactly when they are palindromes. */
  lemma ReverseFixedPoints(s: string)
    ensures |s| <= 1 ==> Reverse(s) == s
    ensures Reverse(s) == s <==> forall i :: 0 <= i < |s| ==> s[i] == s[|s| - 1 - i]
  {
  }

  /** Reversal keeps the characters, only reordering them. */
  lemma {:induction false} ReverseKeepsCharacters(s: string)
    ensures multiset(Reverse(s)) == multiset(s)
  {
    if s != [] {
      var init := s[..|s| - 1];
      ReverseKeepsCharacters(init);
      assert s == init + [s[|s| - 1]];
    }
  }
}
