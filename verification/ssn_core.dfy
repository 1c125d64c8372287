/** Shared logic of the two 9-digit identity-number (SSN) value types of the
    H2 engine: the plain ValueSSN and the masked ValueSSNSecure.  The two Java
    classes are near-identical siblings; here they are one value datatype
    tagged by its Kind, and every operation is one function over that tag. */
module SsnCore {

  /** Which of the two sibling classes a value belongs to. */
  datatype Kind = Plain | Secure

  /** One UTF-16 code unit, a Java `char`.  A character outside the Basic
      Multilingual Plane takes two of them (a surrogate pair). */
  newtype CodeUnit = x: int | 0 <= x < 0x1_0000

  /** A Java `String` as its UTF-16 code units: the units that `length`,
      `substring` and `lastIndexOf` count. */
  type JString = seq<CodeUnit>

  /** An SSN value object: its class and its immutable `value` string. */
  datatype Ssn = Ssn(kind: Kind, value: JString)

  /** The two validation failures raised by the one-argument `get`. */
  datatype Error = InvalidLength | InvalidCharacter

  /** What a constructor entry point hands back: a value, the SQL NULL
      singleton, or a validation failure (the DbException of the source). */
  datatype Result = Ok(ssn: Ssn) | Null | Err(error: Error)

  /** '-', '*' and '0'. */
  const Dash: CodeUnit := 0x2D
  const Star: CodeUnit := 0x2A
  const Zero: CodeUnit := 0x30

  /** "000000000", the string the EMPTY sentinel of each class is built
      from: no separators. */
  const EmptyDigits: JString := [Zero, Zero, Zero, Zero, Zero, Zero, Zero, Zero, Zero]

  /** "***-***-", the redaction prefix the masked class puts before the
      trailing group. */
  const Mask: JString := [Star, Star, Star, Dash, Star, Star, Star, Dash]

  /** H2's type code for VARCHAR, `Value.STRING`, reported by both classes. */
  const STRING: int := 13

  const TwoTo31: int := 0x8000_0000
  const TwoTo32: int := 0x1_0000_0000

  /** The EMPTY sentinel of a class: nine zeros, which is not the layout
      `get(String)` stores. */
  function Empty(kind: Kind): (e: Ssn)
    ensures e.kind == kind && |e.value| == 9 && AllDigits(e.value)
    ensures Dash !in e.value && !IsCanonical(e.value)
  {
    Ssn(kind, EmptyDigits)
  }

  // ---------------------------------------------------------------------
  // Character classes and the `[0-9]+` full match

  /** '0'..'9'. */
  predicate IsDigit(c: CodeUnit)
  {
    0x30 <= c <= 0x39
  }

  predicate AllDigits(s: JString)
  {
    forall i :: 0 <= i < |s| ==> IsDigit(s[i])
  }

  /** `Pattern.compile("[0-9]+").matcher(s).matches()`: one digit, then
      either the end of the input or another full match of the rest.  The
      regex accepts exactly the non-empty all-digit strings. */
  predicate MatchesDigitRun(s: JString)
    ensures MatchesDigitRun(s) <==> |s| > 0 && AllDigits(s)
  {
    |s| > 0 && IsDigit(s[0]) && (|s| == 1 || MatchesDigitRun(s[1..]))
  }

  // ---------------------------------------------------------------------
  // The canonical DDD-DD-DDDD layout

  /** The layout every successfully validated encoding has. */
  predicate IsCanonical(t: JString)
  {
    |t| == 11 &&
    forall i :: 0 <= i < 11 ==> if i == 3 || i == 6 then t[i] == Dash else IsDigit(t[i])
  }

  /** The rewrite of a nine-character input into the stored encoding. */
  function Canonicalize(s: JString): (t: JString)
    requires |s| == 9
    ensures |t| == 11 && t[3] == Dash && t[6] == Dash
    ensures t[..3] == s[..3] && t[4..6] == s[3..5] && t[7..] == s[5..]
  {
    s[..3] + [Dash] + s[3..5] + [Dash] + s[5..]
  }

  /** The stored encoding with every Dash deleted. */
  function StripSeparators(t: JString): (s: JString)
    ensures |s| <= |t|
    ensures Dash !in s
  {
    if t == [] then []
    else (if t[0] == Dash then [] else [t[0]]) + StripSeparators(t[1..])
  }

  lemma {:induction false} StripSeparatorsAppend(a: JString, b: JString)
    ensures StripSeparators(a + b) == StripSeparators(a) + StripSeparators(b)
  {
    if a != [] {
      var head := if a[0] == Dash then [] else [a[0]];
      assert (a + b)[0] == a[0];
      assert (a + b)[1..] == a[1..] + b;
      calc {
        StripSeparators(a + b);
        head + StripSeparators(a[1..] + b);
        { StripSeparatorsAppend(a[1..], b); }
        head + (StripSeparators(a[1..]) + StripSeparators(b));
        (head + StripSeparators(a[1..])) + StripSeparators(b);
        StripSeparators(a) + StripSeparators(b);
      }
    } else {
      assert a + b == b;
    }
  }

  lemma {:induction false} StripSeparatorsNoDash(s: JString)
    requires Dash !in s
    ensures StripSeparators(s) == s
  {
    if s != [] {
      StripSeparatorsNoDash(s[1..]);
    }
  }

  /** Deleting the separators of `a-b-c` leaves `abc` when the three groups
      hold none. */
  lemma StripGroups(a: JString, b: JString, c: JString)
    requires Dash !in a && Dash !in b && Dash !in c
    ensures StripSeparators(a + [Dash] + b + [Dash] + c) == a + b + c
  {
    var dash := [Dash];
    assert StripSeparators(dash) == [];
    var ad := a + dash;
    assert StripSeparators(ad) == a by {
      StripSeparatorsNoDash(a);
      StripSeparatorsAppend(a, dash);
    }
    var adb := ad + b;
    assert StripSeparators(adb) == a + b by {
      StripSeparatorsNoDash(b);
      StripSeparatorsAppend(ad, b);
    }
    var adbd := adb + dash;
    assert StripSeparators(adbd) == a + b by {
      StripSeparatorsAppend(adb, dash);
    }
    assert StripSeparators(adbd + c) == a + b + c by {
      StripSeparatorsNoDash(c);
      StripSeparatorsAppend(adbd, c);
    }
    assert a + [Dash] + b + [Dash] + c == adbd + c;
  }

  /** Validated input comes out canonical, and deleting the two separators
      gives the input back. */
  lemma CanonicalizeRoundTrip(s: JString)
    requires |s| == 9 && AllDigits(s)
    ensures IsCanonical(Canonicalize(s))
    ensures StripSeparators(Canonicalize(s)) == s
  {
    var a, b, c := s[..3], s[3..5], s[5..];
    assert s == a + b + c;
    assert forall i :: 0 <= i < |s| ==> s[i] != Dash;
    StripGroups(a, b, c);
  }

  /** Every canonical encoding is the rewrite of exactly one valid input:
      the one obtained by deleting its separators. */
  lemma CanonicalizeInverse(t: JString)
    requires IsCanonical(t)
    ensures |StripSeparators(t)| == 9 && AllDigits(StripSeparators(t))
    ensures Canonicalize(StripSeparators(t)) == t
  {
    var a, b, c := t[..3], t[4..6], t[7..];
    assert t == a + [Dash] + b + [Dash] + c;
    var s := a + b + c;
    assert forall i :: 0 <= i < 9 ==> s[i] == t[if i < 3 then i else if i < 5 then i + 1 else i + 2];
    assert AllDigits(s);
    StripGroups(a, b, c);
    assert s[..3] == a && s[3..5] == b && s[5..] == c;
  }

  // ---------------------------------------------------------------------
  // Construction entry points

  /** `get(String, boolean)`: empty input is NULL or the EMPTY sentinel;
      anything else is wrapped verbatim, without validation.  The caches
      it passes through hand back an equal value (see Interning). */
  function GetOrEmpty(kind: Kind, s: JString, treatEmptyAsNull: bool): (r: Result)
    ensures r.Null? <==> s == [] && treatEmptyAsNull
    ensures s == [] && !treatEmptyAsNull ==> r == Ok(Empty(kind))
    ensures s != [] ==> r.Ok? && r.ssn.kind == kind && r.ssn.value == s
    ensures !r.Err?
  {
    if s == [] then
      (if treatEmptyAsNull then Null else Ok(Empty(kind)))
    else
      Ok(Ssn(kind, s))
  }

  /** `get(String)`: the length check, then the digit check, then the
      rewrite, handed to `get(ssn, false)`. */
  function Get(kind: Kind, s: JString): (r: Result)
    ensures !r.Null?
    ensures r.Ok? ==> r.ssn.kind == kind && |r.ssn.value| == 11
  {
    if |s| != 9 then Err(InvalidLength)
    else if !MatchesDigitRun(s) then Err(InvalidCharacter)
    else GetOrEmpty(kind, Canonicalize(s), false)
  }

  /** The three outcomes of `get(String)`, in the order the checks run. */
  lemma GetOutcomes(kind: Kind, s: JString)
    ensures |s| != 9 ==> Get(kind, s) == Err(InvalidLength)
    ensures |s| == 9 ==> (Get(kind, s) == Err(InvalidCharacter) <==> exists i :: 0 <= i < 9 && !IsDigit(s[i]))
    ensures Get(kind, s).Ok? <==> |s| == 9 && AllDigits(s)
    ensures Get(kind, s).Ok? ==> Get(kind, s).ssn == Ssn(kind, Canonicalize(s))
  {
  }

  /** Lengths count UTF-16 code units: a character outside the Basic
      Multilingual Plane (here U+1F600, the pair D83D DE00) counts twice.
      Seven digits and that character pass the length check and fail the
      digit check; eight digits and that character fail the length check. */
  lemma SurrogatePairCountsTwice(kind: Kind, d: JString)
    requires |d| == 7 && AllDigits(d)
    ensures Get(kind, d + [0xD83D, 0xDE00]) == Err(InvalidCharacter)
    ensures Get(kind, d + [Zero, 0xD83D, 0xDE00]) == Err(InvalidLength)
  {
    var s := d + [0xD83D, 0xDE00];
    assert !IsDigit(s[7]);
    GetOutcomes(kind, s);
  }

  // ---------------------------------------------------------------------
  // Display text

  /** `String.lastIndexOf(c)`: the last position holding `c`, or -1. */
  function LastIndexOf(s: JString, c: CodeUnit): (r: int)
    ensures -1 <= r < |s|
    ensures r >= 0 ==> s[r] == c
    ensures forall j :: r < j < |s| ==> s[j] != c
  {
    if s == [] then -1
    else if s[|s| - 1] == c then |s| - 1
    else LastIndexOf(s[..|s| - 1], c)
  }

  /** `value.substring(value.lastIndexOf('-') + 1)`: the longest suffix of
      the encoding that holds no separator. */
  function TrailingGroup(value: JString): (g: JString)
    ensures |g| <= |value| && value[|value| - |g|..] == g
    ensures Dash !in g
    ensures |g| < |value| ==> value[|value| - |g| - 1] == Dash
  {
    value[LastIndexOf(value, Dash) + 1..]
  }

  /** `getString`: the trailing group, behind the mask for the secure class. */
  function GetString(v: Ssn): (r: JString)
    ensures v.kind == Plain ==> |r| <= |v.value| && r == v.value[|v.value| - |r|..] && Dash !in r
    ensures v.kind == Secure ==>
      |r| >= 8 && r[..8] == Mask && Dash !in r[8..] &&
      |r| - 8 <= |v.value| && r[8..] == v.value[|v.value| - (|r| - 8)..]
  {
    match v.kind
    case Plain => TrailingGroup(v.value)
    case Secure => Mask + TrailingGroup(v.value)
  }

  /** The trailing group of a canonical encoding is its last four digits. */
  lemma TrailingGroupOfCanonical(t: JString)
    requires IsCanonical(t)
    ensures TrailingGroup(t) == t[7..]
  {
    var r := LastIndexOf(t, Dash);
    assert t[6] == Dash;
    assert forall i :: 7 <= i < 11 ==> IsDigit(t[i]);
    assert r == 6;
  }

  /** An encoding without separators, such as EMPTY's, is shown whole. */
  lemma TrailingGroupWithoutSeparator(t: JString)
    requires Dash !in t
    ensures TrailingGroup(t) == t
  {
  }

  // ---------------------------------------------------------------------
  // Precision truncation

  /** `convertPrecision(precision, force)`: the value itself when nothing
      needs cutting, otherwise `getNew` of the prefix, which is the
      validating `get(String)` of the same class. */
  function ConvertPrecision(v: Ssn, precision: nat): (r: Result)
    ensures !r.Null?
    ensures precision == 0 || |v.value| <= precision ==> r == Ok(v)
    ensures r.Ok? ==> r.ssn.kind == v.kind
  {
    if precision == 0 || |v.value| <= precision then Ok(v)
    else Get(v.kind, v.value[..precision])
  }

  /** Truncation succeeds exactly when it is the identity, or when the cut
      keeps nine characters that are all digits. */
  lemma ConvertPrecisionSucceedsIff(v: Ssn, precision: nat)
    ensures ConvertPrecision(v, precision).Ok? <==>
      precision == 0 || |v.value| <= precision ||
      (precision == 9 && AllDigits(v.value[..9]))
  {
    if precision != 0 && precision < |v.value| {
      GetOutcomes(v.kind, v.value[..precision]);
    }
  }

  /** A canonical encoding cannot be shortened: precision 9 keeps a
      separator, every other precision below 11 has the wrong length. */
  lemma ConvertPrecisionOfCanonical(v: Ssn, precision: nat)
    requires IsCanonical(v.value) && 0 < precision < 11
    ensures ConvertPrecision(v, precision) ==
      Err(if precision == 9 then InvalidCharacter else InvalidLength)
  {
    if precision == 9 {
      var cut := v.value[..9];
      assert cut[3] == Dash;
      GetOutcomes(v.kind, cut);
    }
  }

  // ---------------------------------------------------------------------
  // Equality, hashing and the fixed accessors

  /** `equals(other)`: same class and the same encoding, dashes included,
      which is exactly equality of the two values. */
  predicate Equals(v: Ssn, other: Ssn)
    ensures Equals(v, other) <==> v == other
  {
    other.kind == v.kind && other.value == v.value
  }

  /** `equals` is an equivalence relation. */
  lemma EqualsIsEquivalence(a: Ssn, b: Ssn, c: Ssn)
    ensures Equals(a, a)
    ensures Equals(a, b) ==> Equals(b, a)
    ensures Equals(a, b) && Equals(b, c) ==> Equals(a, c)
  {
  }

  /** Java's `int` arithmetic: wrap an integer into [-2^31, 2^31). */
  function Int32(x: int): (r: int)
    ensures -TwoTo31 <= r < TwoTo31
    ensures (r - x) % TwoTo32 == 0
  {
    (x + TwoTo31) % TwoTo32 - TwoTo31
  }

  /** `String.hashCode`: h = 31 * h + c over the code units, in `int`. */
  function StringHash(s: JString): (h: int)
    ensures -TwoTo31 <= h < TwoTo31
  {
    if s == [] then 0
    else Int32(31 * StringHash(s[..|s| - 1]) + s[|s| - 1] as int)
  }

  /** `hashCode`: the hash of the encoding, whatever the class. */
  function HashCode(v: Ssn): (h: int)
    ensures -TwoTo31 <= h < TwoTo31
  {
    StringHash(v.value)
  }

  /** `getPrecision`: nine digits, whatever the stored length. */
  function GetPrecision(v: Ssn): (p: int)
    ensures p == 9
  {
    9
  }

  /** `getDisplaySize`: the stored length. */
  function GetDisplaySize(v: Ssn): (n: int)
    ensures n == |v.value|
    ensures IsCanonical(v.value) ==> n == 11
  {
    |v.value|
  }

  /** `getMemory`: `value.length() * 2 + 48` in `int` arithmetic. */
  function GetMemory(v: Ssn): (m: int)
    ensures -TwoTo31 <= m < TwoTo31
    ensures |v.value| <= 0x3FFF_FFE7 ==> m == 2 * |v.value| + 48
  {
    Int32(|v.value| * 2 + 48)
  }

  /** `getType`: both classes report the VARCHAR type code. */
  function GetType(v: Ssn): (t: int)
    ensures t == STRING
  {
    STRING
  }

  /** `getObject`: the encoding itself. */
  function GetObject(v: Ssn): (o: JString)
    ensures o == v.value
  {
    v.value
  }
}
