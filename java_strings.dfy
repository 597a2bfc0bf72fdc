/** The three string comparisons of java.lang.String that the place directory
    uses: `compareTo`, `compareToIgnoreCase` and `equalsIgnoreCase`.
    Case mapping is kept to the ASCII letters (see README). */
module JavaStrings {

  /** `String.compareTo`: the difference of the first pair of characters that
      differ, or else the difference of the lengths. It is zero exactly on
      equal strings. */
  function CompareTo(a: string, b: string): (r: int)
    ensures r == 0 <==> a == b
  {
    if |a| == 0 || |b| == 0 then |a| - |b|
    else if a[0] != b[0] then a[0] as int - b[0] as int
    else
      assert a == [a[0]] + a[1..] && b == [b[0]] + b[1..];
      CompareTo(a[1..], b[1..])
  }

  /** `Character.toUpperCase`, restricted to the ASCII letters. */
  function ToUpperCase(c: char): char
  {
    if 'a' <= c <= 'z' then (c as int - 32) as char else c
  }

  /** `Character.toLowerCase`, restricted to the ASCII letters. */
  function ToLowerCase(c: char): char
  {
    if 'A' <= c <= 'Z' then (c as int + 32) as char else c
  }

  /** The character that the ignore-case comparisons of `String` finally
      compare: lower case of upper case. */
  function FoldChar(c: char): char
  {
    ToLowerCase(ToUpperCase(c))
  }

  /** A string with every character folded. */
  function Fold(s: string): (r: string)
    ensures |r| == |s|
    ensures forall i :: 0 <= i < |s| ==> r[i] == FoldChar(s[i])
  {
    if s == [] then [] else [FoldChar(s[0])] + Fold(s[1..])
  }

  /** `String.compareToIgnoreCase`: like `CompareTo`, but a pair of
      characters counts as different only when their folds differ, and then
      the folds' difference is the result. */
  function CompareToIgnoreCase(a: string, b: string): (r: int)
    ensures r == CompareTo(Fold(a), Fold(b))
  {
    if |a| == 0 || |b| == 0 then |a| - |b|
    else if FoldChar(a[0]) != FoldChar(b[0]) then FoldChar(a[0]) as int - FoldChar(b[0]) as int
    else
      assert Fold(a)[1..] == Fold(a[1..]) && Fold(b)[1..] == Fold(b[1..]);
      CompareToIgnoreCase(a[1..], b[1..])
  }

  /** `String.equalsIgnoreCase`: same length, and every pair of characters is
      equal, or equal in upper case, or equal in lower case of upper case. */
  predicate EqualsIgnoreCase(a: string, b: string): (r: bool)
    ensures a == b ==> r
    ensures r ==> |a| == |b|
  {
    |a| == |b| &&
    forall i :: 0 <= i < |a| ==>
      a[i] == b[i] || ToUpperCase(a[i]) == ToUpperCase(b[i]) || FoldChar(a[i]) == FoldChar(b[i])
  }

  /** `CompareTo` is antisymmetric: swapping the arguments negates the result. */
  lemma {:induction false} CompareToAntisymmetric(a: string, b: string)
    ensures CompareTo(a, b) == -CompareTo(b, a)
  {
    if |a| != 0 && |b| != 0 && a[0] == b[0] {
      CompareToAntisymmetric(a[1..], b[1..]);
    }
  }

  /** "At most" under `CompareTo` is transitive, so `CompareTo` is a total
      order on strings. */
  lemma {:induction false} CompareToTransitive(a: string, b: string, c: string)
    requires CompareTo(a, b) <= 0 && CompareTo(b, c) <= 0
    ensures CompareTo(a, c) <= 0
  {
    if |a| != 0 && |b| != 0 && |c| != 0 && a[0] == b[0] && b[0] == c[0] {
      CompareToTransitive(a[1..], b[1..], c[1..]);
    }
  }

  /** `equalsIgnoreCase` holds exactly when the folded strings are equal. */
  lemma EqualsIgnoreCaseIsFoldedEquality(a: string, b: string)
    ensures EqualsIgnoreCase(a, b) <==> Fold(a) == Fold(b)
  {
    if Fold(a) == Fold(b) {
      assert |a| == |b|;
      forall i | 0 <= i < |a|
        ensures FoldChar(a[i]) == FoldChar(b[i])
      {
        assert Fold(a)[i] == Fold(b)[i];
      }
    }
  }

  /** `compareToIgnoreCase(a, b) == 0` and `equalsIgnoreCase(a, b)` agree,
      so binary search and sequential search use the same notion of match. */
  lemma CompareToIgnoreCaseZeroIffEqualsIgnoreCase(a: string, b: string)
    ensures CompareToIgnoreCase(a, b) == 0 <==> EqualsIgnoreCase(a, b)
  {
    EqualsIgnoreCaseIsFoldedEquality(a, b);
  }

  /** `compareToIgnoreCase` is antisymmetric. */
  lemma CompareToIgnoreCaseAntisymmetric(a: string, b: string)
    ensures CompareToIgnoreCase(a, b) == -CompareToIgnoreCase(b, a)
  {
    CompareToAntisymmetric(Fold(a), Fold(b));
  }

  /** "At most" under `compareToIgnoreCase` is transitive. */
  lemma CompareToIgnoreCaseTransitive(a: string, b: string, c: string)
    requires CompareToIgnoreCase(a, b) <= 0 && CompareToIgnoreCase(b, c) <= 0
    ensures CompareToIgnoreCase(a, c) <= 0
  {
    CompareToTransitive(Fold(a), Fold(b), Fold(c));
  }

  /** `equalsIgnoreCase` is an equivalence. */
  lemma EqualsIgnoreCaseIsEquivalence(a: string, b: string, c: string)
    ensures EqualsIgnoreCase(a, a)
    ensures EqualsIgnoreCase(a, b) ==> EqualsIgnoreCase(b, a)
    ensures EqualsIgnoreCase(a, b) && EqualsIgnoreCase(b, c) ==> EqualsIgnoreCase(a, c)
  {
    EqualsIgnoreCaseIsFoldedEquality(a, a);
    EqualsIgnoreCaseIsFoldedEquality(a, b);
    EqualsIgnoreCaseIsFoldedEquality(b, a);
    EqualsIgnoreCaseIsFoldedEquality(b, c);
    EqualsIgnoreCaseIsFoldedEquality(a, c);
  }

  /** On strings that folding leaves unchanged (no upper-case ASCII letter),
      the two orders agree. */
  lemma FoldedStringsCompareAlike(a: string, b: string)
    requires Fold(a) == a && Fold(b) == b
    ensures CompareToIgnoreCase(a, b) == CompareTo(a, b)
  {
  }

  /** The two orders differ in general: "Zurich" comes before "abbey" by
      `compareTo` (upper case sorts first) and after it ignoring case. */
  lemma CaseSensitiveOrderIsNotCaseInsensitiveOrder()
    ensures CompareTo("Zurich", "abbey") < 0
    ensures CompareToIgnoreCase("Zurich", "abbey") > 0
  {
  }
}
