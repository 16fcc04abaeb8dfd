/**
 * The parts of java.lang.String the document source relies on, over the
 * string's own representation: a sequence of UTF-16 code units.
 * Comparing code units (not Unicode scalar values) is what makes
 * CompareTo agree with String.compareTo on supplementary characters.
 */
module JavaString {

  /** One UTF-16 code unit, the element type of a Java string. */
  newtype CodeUnit = x: int | 0 <= x < 0x1_0000

  type JString = seq<CodeUnit>

  /** The separator '/' searched for by lastIndexOf in the helpers and in createFile. */
  const Slash: CodeUnit := 0x2F

  /**
   * String.compareTo: the difference of the first pair of code units that
   * differ, or else the difference of the lengths. It is zero exactly on
   * equal strings, so TreeMap treats such keys as one key.
   */
  function CompareTo(a: JString, b: JString): (r: int)
    ensures r == 0 <==> a == b
  {
    if |a| == 0 || |b| == 0 then |a| - |b|
    else if a[0] != b[0] then a[0] as int - b[0] as int
    else
      assert a == [a[0]] + a[1..] && b == [b[0]] + b[1..];
      CompareTo(a[1..], b[1..])
  }

  /** The comparator's "less than": o1.compareTo(o2) < 0. */
  predicate Less(a: JString, b: JString)
  {
    CompareTo(a, b) < 0
  }

  /** Swapping the arguments negates the result: sgn(compare(x, y)) == -sgn(compare(y, x)). */
  lemma {:induction false} CompareToAntisymmetric(a: JString, b: JString)
    ensures CompareTo(b, a) == -CompareTo(a, b)
  {
    if |a| > 0 && |b| > 0 && a[0] == b[0] {
      CompareToAntisymmetric(a[1..], b[1..]);
    }
  }

  lemma LessIrreflexive(a: JString)
    ensures !Less(a, a)
  {
  }

  /** Exactly one of a < b, a == b, b < a holds. */
  lemma LessTrichotomous(a: JString, b: JString)
    ensures a == b || Less(a, b) || Less(b, a)
    ensures !(Less(a, b) && Less(b, a))
  {
    CompareToAntisymmetric(a, b);
  }

  lemma {:induction false} LessTransitive(a: JString, b: JString, c: JString)
    requires Less(a, b) && Less(b, c)
    ensures Less(a, c)
  {
    if |a| > 0 && |b| > 0 && |c| > 0 && a[0] == b[0] && b[0] == c[0] {
      LessTransitive(a[1..], b[1..], c[1..]);
    }
  }

  /**
   * The position of the last occurrence of c in s, or -1 when there is none
   * (String.lastIndexOf).
   */
  function LastIndexOf(s: JString, c: CodeUnit): (r: int)
    ensures -1 <= r < |s|
    ensures r == -1 <==> c !in s
    ensures 0 <= r ==> s[r] == c && c !in s[r + 1..]
  {
    if |s| == 0 then -1
    else if s[|s| - 1] == c then |s| - 1
    else
      assert s == s[..|s| - 1] + [s[|s| - 1]];
      LastIndexOf(s[..|s| - 1], c)
  }

  /** String.endsWith. */
  predicate EndsWith(s: JString, suffix: JString)
  {
    |suffix| <= |s| && s[|s| - |suffix|..] == suffix
  }
}
