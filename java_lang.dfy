/** The parts of java.lang the core relies on: 32-bit `int` arithmetic, the ASCII
    behaviour of String.toUpperCase/toLowerCase, String.hashCode and the order of
    String.compareTo. Strings are Dafny strings of Unicode scalar values; where Java sees
    UTF-16 code units the conversion is written out. */
module JavaLang {

  const TWO_32: int := 0x1_0000_0000
  const INT_MIN: int := -0x8000_0000
  const INT_MAX: int := 0x7fff_ffff

  predicate IsInt(x: int) {
    INT_MIN <= x <= INT_MAX
  }

  /** Two integers that a Java `int` cannot tell apart: they agree modulo 2^32. */
  predicate Congruent(a: int, b: int) {
    (a - b) % TWO_32 == 0
  }

  /** The Java `int` that arithmetic on `x` wraps around to. */
  function Wrap(x: int): (r: int)
    ensures IsInt(r)
    ensures Congruent(r, x)
    ensures IsInt(x) ==> r == x
  {
    var m := x % TWO_32;
    if m <= INT_MAX then m else m - TWO_32
  }

  /** Equal wrapped values come from congruent integers. */
  lemma CongruentOfWrap(a: int, b: int)
    requires Wrap(a) == Wrap(b)
    ensures Congruent(a, b)
  {
    var ka, kb := (a - Wrap(a)) / TWO_32, (b - Wrap(b)) / TWO_32;
    assert a == Wrap(a) + TWO_32 * ka;
    assert b == Wrap(b) + TWO_32 * kb;
    assert a - b == TWO_32 * (ka - kb);
  }

  /** Adding a multiple of 2^32 does not change the wrapped value. */
  lemma WrapShift(a: int, k: int)
    ensures Wrap(a + 0x1_0000_0000 * k) == Wrap(a)
  {
    assert (a + 0x1_0000_0000 * k) % 0x1_0000_0000 == a % 0x1_0000_0000;
  }

  /** The wrapped value differs from the original by a multiple of 2^32. */
  lemma WrapOffset(x: int) returns (k: int)
    ensures Wrap(x) == x + 0x1_0000_0000 * k
  {
    k := (Wrap(x) - x) / 0x1_0000_0000;
  }

  /** Wrapping after every step of `31 * h + x` is the same as wrapping once at the end. */
  lemma WrapStep(h: int, x: int)
    ensures Wrap(31 * Wrap(h) + x) == Wrap(31 * h + x)
  {
    var k := WrapOffset(h);
    assert 31 * Wrap(h) + x == 31 * h + x + 0x1_0000_0000 * (31 * k);
    WrapShift(31 * h + x, 31 * k);
  }

  /** Wrapping an addend before adding it changes nothing. */
  lemma WrapAddend(h: int, x: int)
    ensures Wrap(h + Wrap(x)) == Wrap(h + x)
  {
    var k := WrapOffset(x);
    WrapShift(h + x, k);
  }

  // ---------------------------------------------------------------------------
  // Letter case, ASCII only (the JDK's conversions also follow the default locale).

  predicate IsLowerLetter(c: char) {
    'a' <= c <= 'z'
  }

  predicate IsUpperLetter(c: char) {
    'A' <= c <= 'Z'
  }

  function ToUpperChar(c: char): (u: char)
    ensures !IsLowerLetter(u)
    ensures IsLowerLetter(c) ==> IsUpperLetter(u) && u as int == c as int - 32
    ensures !IsLowerLetter(c) ==> u == c
  {
    if IsLowerLetter(c) then (c as int - 32) as char else c
  }

  function ToLowerChar(c: char): (l: char)
    ensures !IsUpperLetter(l)
    ensures IsUpperLetter(c) ==> IsLowerLetter(l) && l as int == c as int + 32
    ensures !IsUpperLetter(c) ==> l == c
  {
    if IsUpperLetter(c) then (c as int + 32) as char else c
  }

  /** String.toUpperCase: every character converted on its own, the length kept. */
  function ToUpperCase(s: string): (r: string)
    ensures |r| == |s|
    ensures forall i :: 0 <= i < |s| ==> r[i] == ToUpperChar(s[i])
  {
    if s == [] then [] else [ToUpperChar(s[0])] + ToUpperCase(s[1..])
  }

  /** String.toLowerCase: every character converted on its own, the length kept. */
  function ToLowerCase(s: string): (r: string)
    ensures |r| == |s|
    ensures forall i :: 0 <= i < |s| ==> r[i] == ToLowerChar(s[i])
  {
    if s == [] then [] else [ToLowerChar(s[0])] + ToLowerCase(s[1..])
  }

  predicate HasNoLowerLetter(s: string) {
    forall i :: 0 <= i < |s| ==> !IsLowerLetter(s[i])
  }

  predicate HasNoUpperLetter(s: string) {
    forall i :: 0 <= i < |s| ==> !IsUpperLetter(s[i])
  }

  /** String.equalsIgnoreCase, for ASCII letters: same length, and the characters at each
      position are equal once both are lowered. */
  predicate EqualsIgnoreCase(a: string, b: string) {
    |a| == |b| && forall i :: 0 <= i < |a| ==> ToLowerChar(a[i]) == ToLowerChar(b[i])
  }

  /** Uppercasing a lowercased string gives the uppercased original. */
  lemma UpperOfLower(s: string)
    ensures ToUpperCase(ToLowerCase(s)) == ToUpperCase(s)
  {
    var l := ToLowerCase(s);
    assert forall i :: 0 <= i < |s| ==> ToUpperChar(l[i]) == ToUpperChar(s[i]);
  }

  /** A string without lowercase letters is unchanged by uppercasing, and conversely. */
  lemma UpperCaseFixedPoint(s: string)
    ensures ToUpperCase(s) == s <==> HasNoLowerLetter(s)
  {
    if HasNoLowerLetter(s) {
      assert forall i :: 0 <= i < |s| ==> ToUpperCase(s)[i] == s[i];
    }
  }

  lemma UpperOfLowerChar(c: char)
    ensures ToUpperChar(ToLowerChar(c)) == ToUpperChar(c)
  {
  }

  /** Strings equal up to letter case have the same uppercase form. */
  lemma {:induction false} EqualsIgnoreCaseSameUpper(a: string, b: string)
    requires EqualsIgnoreCase(a, b)
    ensures ToUpperCase(a) == ToUpperCase(b)
  {
    var ua, ub := ToUpperCase(a), ToUpperCase(b);
    forall i | 0 <= i < |a|
      ensures ua[i] == ub[i]
    {
      UpperOfLowerChar(a[i]);
      UpperOfLowerChar(b[i]);
    }
  }

  // ---------------------------------------------------------------------------
  // String.hashCode

  /** The UTF-16 code units Java stores for `s`: a character beyond U+FFFF becomes a
      surrogate pair. */
  function Utf16(s: string): (units: seq<int>)
    ensures |units| >= |s|
    ensures forall i :: 0 <= i < |units| ==> 0 <= units[i] < 0x10000
  {
    if s == [] then []
    else
      var c := s[0] as int;
      var head := if c < 0x10000 then [c]
                  else [0xD800 + (c - 0x10000) / 0x400, 0xDC00 + (c - 0x10000) % 0x400];
      head + Utf16(s[1..])
  }

  /** `h = 31 * h + unit` over the units, in `int` arithmetic. */
  function UnitsHash(units: seq<int>): (h: int)
    ensures IsInt(h)
  {
    if units == [] then 0 else Wrap(31 * UnitsHash(units[..|units| - 1]) + units[|units| - 1])
  }

  /** String.hashCode. */
  function StringHashCode(s: string): (h: int)
    ensures IsInt(h)
  {
    UnitsHash(Utf16(s))
  }

  /** The hash of a one-character string in the Basic Multilingual Plane is its code. */
  lemma SingleCharHash(c: char)
    requires c as int < 0x10000
    ensures StringHashCode([c]) == c as int
  {
    assert [c][1..] == [];
    assert Utf16([c]) == [c as int] + Utf16([]);
    assert [c as int][..0] == [];
    assert UnitsHash([c as int]) == Wrap(31 * UnitsHash([]) + c as int);
  }

  // ---------------------------------------------------------------------------
  // String.compareTo < 0: lexicographic on characters, a proper prefix first.

  predicate Less(a: string, b: string)
    decreases |a|
  {
    if a == [] then b != []
    else if b == [] then false
    else if a[0] != b[0] then a[0] < b[0]
    else Less(a[1..], b[1..])
  }

  lemma {:induction false} LessIrreflexive(a: string)
    ensures !Less(a, a)
    decreases |a|
  {
    if a != [] {
      LessIrreflexive(a[1..]);
    }
  }

  lemma {:induction false} LessAsymmetric(a: string, b: string)
    requires Less(a, b)
    ensures !Less(b, a)
    decreases |a|
  {
    if a != [] && b != [] && a[0] == b[0] {
      LessAsymmetric(a[1..], b[1..]);
    }
  }

  lemma {:induction false} LessTransitive(a: string, b: string, c: string)
    requires Less(a, b) && Less(b, c)
    ensures Less(a, c)
    decreases |a|
  {
    if a != [] && a[0] == b[0] && b[0] == c[0] {
      LessTransitive(a[1..], b[1..], c[1..]);
    }
  }

  lemma {:induction false} LessTotal(a: string, b: string)
    requires a != b
    ensures Less(a, b) || Less(b, a)
    decreases |a|
  {
    if a != [] && b != [] && a[0] == b[0] {
      assert a == [a[0]] + a[1..] && b == [b[0]] + b[1..];
      LessTotal(a[1..], b[1..]);
    }
  }
}
