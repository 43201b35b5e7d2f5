/**
 * A person's name in SoConnect: an immutable string made of ASCII letters,
 * digits and spaces that does not start with a space.
 */
module Name {
  import opened Results
  import opened Chars

  const MESSAGE_CONSTRAINTS :=
    "Names should only contain alphanumeric characters and spaces, and it should not be blank"
  /** Declared by the source but never consulted by the validity check. */
  const CHARACTER_LIMIT := 45

  /** The stored field of a name, before the class invariant is imposed. */
  datatype NameRecord = Name(fullName: string)

  /** A Name: every instance holds a valid name, as the class guarantees. */
  type Name = n: NameRecord | IsValidName(n.fullName) witness Name("a")

  /** A character of the pattern's repeated part [\p{Alnum} ]. */
  predicate IsAlnumOrSpace(c: char) {
    IsAlnum(c) || c == ' '
  }

  /** Whether all of s matches [\p{Alnum} ]*. */
  function MatchesAlnumOrSpaces(s: string): (b: bool)
    ensures b <==> forall i :: 0 <= i < |s| ==> IsAlnumOrSpace(s[i])
  {
    s == [] || (IsAlnumOrSpace(s[0]) && MatchesAlnumOrSpaces(s[1..]))
  }

  /**
   * isValidName: the whole string matches [\p{Alnum}][\p{Alnum} ]*, so it is
   * not empty, starts with a letter or digit, and holds only letters, digits
   * and spaces; its length is not bounded.
   */
  function IsValidName(test: string): (b: bool)
    ensures b <==> |test| > 0 && IsAlnum(test[0])
                   && forall i :: 1 <= i < |test| ==> IsAlnumOrSpace(test[i])
    ensures b ==> test[0] != ' ' && forall i :: 0 <= i < |test| ==> test[i] as int < 128
  {
    |test| > 0 && IsAlnum(test[0]) && MatchesAlnumOrSpaces(test[1..])
  }

  /** The empty string and any string that starts with a space are not names. */
  lemma BlankIsInvalid(s: string)
    requires s == [] || s[0] == ' '
    ensures !IsValidName(s)
  {
  }

  /**
   * The constructor: a valid string is stored verbatim; any other string is
   * refused with MESSAGE_CONSTRAINTS.
   */
  function Create(name: string): (r: Result<Name, string>)
    ensures r.Success? <==> IsValidName(name)
    ensures r.Success? ==> r.value.fullName == name
    ensures r.Failure? ==> r.error == MESSAGE_CONSTRAINTS
  {
    if IsValidName(name) then Success(Name(name)) else Failure(MESSAGE_CONSTRAINTS)
  }

  /** toString: the stored string. */
  function ToString(n: Name): (s: string)
    ensures IsValidName(s)
    ensures Create(s) == Success(n)
  {
    n.fullName
  }

  /** toString gives back exactly the string the name was built from. */
  lemma ToStringGivesStoredName(s: string)
    requires IsValidName(s)
    ensures Create(s).Success? && ToString(Create(s).value) == s
  {
  }

  /** Validity ignores length: names longer than CHARACTER_LIMIT are valid. */
  lemma {:induction false} LongNamesAreValid(n: nat)
    requires n > CHARACTER_LIMIT
    ensures exists s :: |s| == n && IsValidName(s)
  {
    var s := seq(n, _ => 'a');
    assert IsValidName(s);
  }

  /** Java's case folding for a character, toLowerCase(toUpperCase(c)), on ASCII. */
  function Fold(c: char): char {
    ToLowerChar(c)
  }

  /** Lexicographic order on strings by character code; a proper prefix is lesser. */
  predicate LexLess(a: string, b: string) {
    if a == [] then b != []
    else if b == [] then false
    else a[0] < b[0] || (a[0] == b[0] && LexLess(a[1..], b[1..]))
  }

  /**
   * String.compareToIgnoreCase: the difference of the first pair of folded
   * characters that differ, or else the difference in length. It is zero
   * exactly when the two strings agree once lower-cased.
   */
  function CompareToIgnoreCase(a: string, b: string): (r: int)
    ensures r == 0 <==> ToLower(a) == ToLower(b)
  {
    if a == [] || b == [] then |a| - |b|
    else if Fold(a[0]) != Fold(b[0]) then Fold(a[0]) as int - Fold(b[0]) as int
    else CompareToIgnoreCase(a[1..], b[1..])
  }

  /** Swapping the operands of compareToIgnoreCase negates the result. */
  lemma {:induction false} CompareToIgnoreCaseAntisymmetric(a: string, b: string)
    ensures CompareToIgnoreCase(a, b) == -CompareToIgnoreCase(b, a)
  {
    if a != [] && b != [] && Fold(a[0]) == Fold(b[0]) {
      CompareToIgnoreCaseAntisymmetric(a[1..], b[1..]);
    }
  }

  /** compareToIgnoreCase is negative exactly when the lower-cased a precedes the lower-cased b. */
  lemma {:induction false} CompareToIgnoreCaseOrders(a: string, b: string)
    ensures CompareToIgnoreCase(a, b) < 0 <==> LexLess(ToLower(a), ToLower(b))
  {
    if a != [] && b != [] {
      assert ToLower(a)[1..] == ToLower(a[1..]);
      assert ToLower(b)[1..] == ToLower(b[1..]);
      if Fold(a[0]) == Fold(b[0]) {
        CompareToIgnoreCaseOrders(a[1..], b[1..]);
      }
    }
  }

  /**
   * compareTo orders names ignoring letter case: negative when this name
   * precedes the other once both are lower-cased, zero when they agree,
   * positive when the other precedes it.
   */
  function CompareTo(n: Name, other: Name): (r: int)
    ensures r == 0 <==> ToLower(n.fullName) == ToLower(other.fullName)
    ensures r < 0 <==> LexLess(ToLower(n.fullName), ToLower(other.fullName))
    ensures r > 0 <==> LexLess(ToLower(other.fullName), ToLower(n.fullName))
  {
    CompareToIgnoreCaseOrders(n.fullName, other.fullName);
    CompareToIgnoreCaseOrders(other.fullName, n.fullName);
    CompareToIgnoreCaseAntisymmetric(n.fullName, other.fullName);
    CompareToIgnoreCase(n.fullName, other.fullName)
  }

  lemma CompareToAntisymmetric(n: Name, other: Name)
    ensures CompareTo(n, other) == -CompareTo(other, n)
  {
    CompareToIgnoreCaseAntisymmetric(n.fullName, other.fullName);
  }

  /** The comparison as written returns a difference of characters, not -1, 0 or 1. */
  lemma CompareToReturnsDifference()
    ensures CompareTo(Name("c"), Name("a")) == 2
  {
  }

  /** compareTo as documented: -1 if this name is lesser, 0 if they are equal, 1 otherwise. */
  function CompareSign(n: Name, other: Name): (r: int)
    ensures r == -1 || r == 0 || r == 1
    ensures r == -1 <==> LexLess(ToLower(n.fullName), ToLower(other.fullName))
    ensures r == 0 <==> ToLower(n.fullName) == ToLower(other.fullName)
    ensures r == 1 <==> LexLess(ToLower(other.fullName), ToLower(n.fullName))
  {
    var d := CompareTo(n, other);
    if d < 0 then -1 else if d == 0 then 0 else 1
  }

  /** equals compares the stored strings exactly. */
  function Equals(n: Name, other: Name): (r: bool)
    ensures r <==> n.fullName == other.fullName
  {
    n == other || n.fullName == other.fullName
  }

  /** Names that differ only in letter case compare as 0 yet are not equal. */
  lemma CaseOnlyDifferenceComparesEqualButNotEquals()
    ensures var lower, upper := Name("alex"), Name("Alex");
            CompareTo(lower, upper) == 0 && !Equals(lower, upper)
  {
  }

  const TWO_32: int := 0x1_0000_0000

  /** String.hashCode before the 32-bit signed reading: h = 31 * h + c over the characters, modulo 2^32. */
  function HashBits(s: string): (h: nat)
    ensures h < TWO_32
  {
    if s == [] then 0 else (31 * HashBits(s[..|s| - 1]) + s[|s| - 1] as int) % TWO_32
  }

  /** hashCode: the string's hash read as a signed 32-bit int. */
  function HashCode(n: Name): (h: int)
    ensures -0x8000_0000 <= h < 0x8000_0000
  {
    var bits := HashBits(n.fullName);
    if bits < 0x8000_0000 then bits else bits - TWO_32
  }

  /** Equal names have equal hash codes. */
  lemma EqualNamesHashEqually(n: Name, other: Name)
    requires Equals(n, other)
    ensures HashCode(n) == HashCode(other)
  {
  }
}
