/** The case-insensitive string comparisons of gov.nist.core.Utils, over the
    ASCII case mapping of String.toUpperCase and String.toLowerCase. */
module NistUtils {

  predicate IsLower(c: char) { 'a' <= c <= 'z' }
  predicate IsUpper(c: char) { 'A' <= c <= 'Z' }

  function UpperChar(c: char): (u: char)
    ensures !IsLower(u)
  {
    if IsLower(c) then (c as int - 32) as char else c
  }

  function LowerChar(c: char): (l: char)
    ensures !IsUpper(l)
  {
    if IsUpper(c) then (c as int + 32) as char else c
  }

  /** String.toUpperCase */
  function ToUpperCase(s: string): (r: string)
    ensures |r| == |s|
  {
    seq(|s|, i requires 0 <= i < |s| => UpperChar(s[i]))
  }

  /** String.toLowerCase */
  function ToLowerCase(s: string): (r: string)
    ensures |r| == |s|
  {
    seq(|s|, i requires 0 <= i < |s| => LowerChar(s[i]))
  }

  /** String.compareTo: the difference of the first pair of differing characters,
      or else the difference of the lengths. */
  function CompareTo(a: string, b: string): int
  {
    if a == [] || b == [] then |a| - |b|
    else if a[0] != b[0] then a[0] as int - b[0] as int
    else CompareTo(a[1..], b[1..])
  }

  /** Utils.compareToIgnoreCase */
  function CompareToIgnoreCase(s1: string, s2: string): int
  {
    CompareTo(ToUpperCase(s1), ToUpperCase(s2))
  }

  /** Utils.equalsIgnoreCase */
  predicate EqualsIgnoreCase(s1: string, s2: string)
  {
    ToLowerCase(s1) == ToLowerCase(s2)
  }

  // ---------------------------------------------------------------------------
  // Reference definitions

  /** Lexicographic order: a proper prefix, or smaller at the first difference. */
  predicate LexLess(a: string, b: string)
  {
    if a == [] then b != []
    else b != [] && (a[0] < b[0] || (a[0] == b[0] && LexLess(a[1..], b[1..])))
  }

  /** Two characters that are equal, or the two cases of one ASCII letter. */
  predicate SameLetter(a: char, b: char)
  {
    a == b
    || (IsLower(a) && b as int == a as int - 32)
    || (IsUpper(a) && b as int == a as int + 32)
  }

  // ---------------------------------------------------------------------------
  // compareTo

  lemma {:induction false} CompareToZeroIff(a: string, b: string)
    ensures CompareTo(a, b) == 0 <==> a == b
  {
    if a != [] && b != [] && a[0] == b[0] {
      CompareToZeroIff(a[1..], b[1..]);
      assert a == [a[0]] + a[1..] && b == [b[0]] + b[1..];
    }
  }

  lemma {:induction false} CompareToSwap(a: string, b: string)
    ensures CompareTo(b, a) == -CompareTo(a, b)
  {
    if a != [] && b != [] && a[0] == b[0] {
      CompareToSwap(a[1..], b[1..]);
    }
  }

  /** The sign of compareTo is the lexicographic order. */
  lemma {:induction false} CompareToOrder(a: string, b: string)
    ensures CompareTo(a, b) < 0 <==> LexLess(a, b)
  {
    if a != [] && b != [] && a[0] == b[0] {
      CompareToOrder(a[1..], b[1..]);
    }
  }

  // ---------------------------------------------------------------------------
  // compareToIgnoreCase

  lemma CompareToIgnoreCaseZeroIff(s1: string, s2: string)
    ensures CompareToIgnoreCase(s1, s2) == 0 <==> ToUpperCase(s1) == ToUpperCase(s2)
  {
    CompareToZeroIff(ToUpperCase(s1), ToUpperCase(s2));
  }

  lemma CompareToIgnoreCaseReflexive(s: string)
    ensures CompareToIgnoreCase(s, s) == 0
  {
    CompareToZeroIff(ToUpperCase(s), ToUpperCase(s));
  }

  /** Swapping the arguments negates the result, so it reverses the sign. */
  lemma CompareToIgnoreCaseSwap(s1: string, s2: string)
    ensures CompareToIgnoreCase(s2, s1) == -CompareToIgnoreCase(s1, s2)
  {
    CompareToSwap(ToUpperCase(s1), ToUpperCase(s2));
  }

  /** A negative result means the upper-cased first argument sorts first. */
  lemma CompareToIgnoreCaseOrder(s1: string, s2: string)
    ensures CompareToIgnoreCase(s1, s2) < 0 <==> LexLess(ToUpperCase(s1), ToUpperCase(s2))
    ensures CompareToIgnoreCase(s1, s2) > 0 <==> LexLess(ToUpperCase(s2), ToUpperCase(s1))
  {
    CompareToOrder(ToUpperCase(s1), ToUpperCase(s2));
    CompareToOrder(ToUpperCase(s2), ToUpperCase(s1));
    CompareToSwap(ToUpperCase(s1), ToUpperCase(s2));
  }

  // ---------------------------------------------------------------------------
  // equalsIgnoreCase

  lemma SameLetterIff(a: char, b: char)
    ensures SameLetter(a, b) <==> LowerChar(a) == LowerChar(b)
    ensures SameLetter(a, b) <==> UpperChar(a) == UpperChar(b)
  {
  }

  /** equalsIgnoreCase compares character by character, identifying the two cases of a letter. */
  lemma EqualsIgnoreCaseCharwise(s1: string, s2: string)
    ensures EqualsIgnoreCase(s1, s2) <==>
            |s1| == |s2| && forall i :: 0 <= i < |s1| ==> SameLetter(s1[i], s2[i])
  {
    if |s1| == |s2| {
      if EqualsIgnoreCase(s1, s2) {
        forall i | 0 <= i < |s1| ensures SameLetter(s1[i], s2[i]) {
          assert ToLowerCase(s1)[i] == ToLowerCase(s2)[i];
          SameLetterIff(s1[i], s2[i]);
        }
      }
      if forall i :: 0 <= i < |s1| ==> SameLetter(s1[i], s2[i]) {
        forall i | 0 <= i < |s1| ensures ToLowerCase(s1)[i] == ToLowerCase(s2)[i] {
          SameLetterIff(s1[i], s2[i]);
        }
      }
    }
  }

  lemma EqualsIgnoreCaseReflexive(s: string)
    ensures EqualsIgnoreCase(s, s)
  {
  }

  lemma EqualsIgnoreCaseSymmetric(s1: string, s2: string)
    ensures EqualsIgnoreCase(s1, s2) == EqualsIgnoreCase(s2, s1)
  {
  }

  lemma EqualsIgnoreCaseTransitive(s1: string, s2: string, s3: string)
    requires EqualsIgnoreCase(s1, s2) && EqualsIgnoreCase(s2, s3)
    ensures EqualsIgnoreCase(s1, s3)
  {
  }

  /** The two functions agree: lower-casing and upper-casing identify the same pairs. */
  lemma EqualsIffCompareZero(s1: string, s2: string)
    ensures EqualsIgnoreCase(s1, s2) <==> CompareToIgnoreCase(s1, s2) == 0
  {
    CompareToIgnoreCaseZeroIff(s1, s2);
    if |s1| == |s2| {
      forall i | 0 <= i < |s1| ensures (LowerChar(s1[i]) == LowerChar(s2[i])) == (UpperChar(s1[i]) == UpperChar(s2[i])) {
        SameLetterIff(s1[i], s2[i]);
      }
      if EqualsIgnoreCase(s1, s2) {
        forall i | 0 <= i < |s1| ensures ToUpperCase(s1)[i] == ToUpperCase(s2)[i] {
          assert ToLowerCase(s1)[i] == ToLowerCase(s2)[i];
        }
      }
      if ToUpperCase(s1) == ToUpperCase(s2) {
        forall i | 0 <= i < |s1| ensures ToLowerCase(s1)[i] == ToLowerCase(s2)[i] {
          assert ToUpperCase(s1)[i] == ToUpperCase(s2)[i];
        }
      }
    }
  }

  /** Changing the case of one character of either argument (the first when first holds)
      changes neither result. */
  lemma CaseChangeInvariant(s1: string, s2: string, first: bool, i: nat, upper: bool)
    requires i < if first then |s1| else |s2|
    ensures var s := if first then s1 else s2;
            var c := s[i := if upper then UpperChar(s[i]) else LowerChar(s[i])];
            var t1, t2 := (if first then c else s1), (if first then s2 else c);
            EqualsIgnoreCase(t1, t2) == EqualsIgnoreCase(s1, s2)
            && CompareToIgnoreCase(t1, t2) == CompareToIgnoreCase(s1, s2)
  {
    if first {
      CaseChangeFirst(s1, s2, i, upper);
    } else {
      var c := s2[i := if upper then UpperChar(s2[i]) else LowerChar(s2[i])];
      CaseChangeFirst(s2, s1, i, upper);
      CompareToIgnoreCaseSwap(s1, c);
      CompareToIgnoreCaseSwap(s1, s2);
      EqualsIgnoreCaseSymmetric(s1, c);
      EqualsIgnoreCaseSymmetric(s1, s2);
    }
  }

  lemma CaseChangeFirst(s1: string, s2: string, i: nat, upper: bool)
    requires i < |s1|
    ensures var t := s1[i := if upper then UpperChar(s1[i]) else LowerChar(s1[i])];
            EqualsIgnoreCase(t, s2) == EqualsIgnoreCase(s1, s2)
            && CompareToIgnoreCase(t, s2) == CompareToIgnoreCase(s1, s2)
  {
    var t := s1[i := if upper then UpperChar(s1[i]) else LowerChar(s1[i])];
    assert ToUpperCase(t) == ToUpperCase(s1);
    assert ToLowerCase(t) == ToLowerCase(s1);
  }
}
