/**
  Case-insensitive string comparison, as Java's `String.equalsIgnoreCase`
  performs it when restricted to ASCII letters: two strings match when they
  have the same length and agree character by character once upper-case
  letters are folded to lower case.
 */
module CaseInsensitive {

  /** The lower-case form of an ASCII upper-case letter; any other character folds to itself. */
  function Fold(c: char): (d: char)
    ensures !('A' <= d <= 'Z')
    ensures d == c <==> !('A' <= c <= 'Z')
  {
    if 'A' <= c <= 'Z' then (c as int + 32) as char else c
  }

  /**
    A folded character is never an upper-case letter; only upper-case
    letters change, each to the letter the same distance from 'a'; and
    folding twice is folding once.
   */
  lemma FoldLowersCase(c: char)
    ensures !('A' <= Fold(c) <= 'Z')
    ensures Fold(c) == c <==> !('A' <= c <= 'Z')
    ensures 'A' <= c <= 'Z' ==> Fold(c) as int - 'a' as int == c as int - 'A' as int
    ensures Fold(Fold(c)) == Fold(c)
  {
  }

  /** The string with every character folded. */
  function FoldAll(s: string): (r: string)
    ensures |r| == |s|
  {
    if s == [] then [] else [Fold(s[0])] + FoldAll(s[1..])
  }

  lemma {:induction false} FoldAllAt(s: string, i: int)
    requires 0 <= i < |s|
    ensures FoldAll(s)[i] == Fold(s[i])
    decreases |s|
  {
    if i > 0 {
      FoldAllAt(s[1..], i - 1);
    }
  }

  /** `a.equalsIgnoreCase(b)`: both strings fold to the same string. */
  predicate EqualsIgnoreCase(a: string, b: string)
    ensures EqualsIgnoreCase(a, b) ==> |a| == |b|
  {
    FoldAll(a) == FoldAll(b)
  }

  /**
    The comparison is Java's: strings of different lengths never match, and
    strings of one length match when every pair of characters folds alike.
   */
  lemma EqualsIgnoreCaseIsCharwise(a: string, b: string)
    ensures EqualsIgnoreCase(a, b) <==> |a| == |b| && forall i :: 0 <= i < |a| ==> Fold(a[i]) == Fold(b[i])
  {
    if |a| == |b| {
      forall i | 0 <= i < |a|
        ensures FoldAll(a)[i] == Fold(a[i]) && FoldAll(b)[i] == Fold(b[i])
      {
        FoldAllAt(a, i);
        FoldAllAt(b, i);
      }
    }
  }

  /** Matching ignoring case is an equivalence relation. */
  lemma EqualsIgnoreCaseIsEquivalence(a: string, b: string, c: string)
    ensures EqualsIgnoreCase(a, a)
    ensures EqualsIgnoreCase(a, b) ==> EqualsIgnoreCase(b, a)
    ensures EqualsIgnoreCase(a, b) && EqualsIgnoreCase(b, c) ==> EqualsIgnoreCase(a, c)
  {
  }

  /** Two strings that differ, ignoring case, at some position do not match. */
  lemma DifferAt(a: string, b: string, i: int)
    requires 0 <= i < |a| && i < |b|
    requires Fold(a[i]) != Fold(b[i])
    ensures !EqualsIgnoreCase(a, b)
  {
    FoldAllAt(a, i);
    FoldAllAt(b, i);
  }

  /** "P001" and "p001" name the same product code; "P001" and "P002" do not, nor do strings of different lengths. */
  lemma CodeExamples()
    ensures EqualsIgnoreCase("P001", "p001")
    ensures !EqualsIgnoreCase("P001", "P002")
    ensures !EqualsIgnoreCase("P001", "P0010")
  {
    EqualsIgnoreCaseIsCharwise("P001", "p001");
    DifferAt("P001", "P002", 3);
  }
}
