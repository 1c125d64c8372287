/** What ValueSSN, the plain class, promises: validation order, the stored
    layout, the last-four display, truncation and equality. */
module ValueSsn {
  import opened SsnCore

  /** A valid input is stored as DDD-DD-DDDD, and deleting the dashes
      recovers the input. */
  lemma GetStoresCanonical(s: JString)
    requires |s| == 9 && AllDigits(s)
    ensures Get(Plain, s).Ok? && Get(Plain, s).ssn.kind == Plain
    ensures IsCanonical(Get(Plain, s).ssn.value)
    ensures StripSeparators(Get(Plain, s).ssn.value) == s
  {
    GetOutcomes(Plain, s);
    CanonicalizeRoundTrip(s);
  }

  /** Two valid inputs give equal values only when they are the same input. */
  lemma GetInjective(s: JString, s': JString)
    requires Get(Plain, s).Ok? && Get(Plain, s').Ok?
    requires Equals(Get(Plain, s).ssn, Get(Plain, s').ssn)
    ensures s == s'
  {
    GetOutcomes(Plain, s);
    GetOutcomes(Plain, s');
    GetStoresCanonical(s);
    GetStoresCanonical(s');
  }

  /** `getString` of a value built from valid input is its last four digits. */
  lemma GetStringShowsLastFour(s: JString)
    requires |s| == 9 && AllDigits(s)
    ensures Get(Plain, s).Ok?
    ensures GetString(Get(Plain, s).ssn) == s[5..]
    ensures |GetString(Get(Plain, s).ssn)| == 4
  {
    GetStoresCanonical(s);
    TrailingGroupOfCanonical(Get(Plain, s).ssn.value);
  }

  /** EMPTY has no dash, so `lastIndexOf` finds none and all nine zeros show. */
  lemma GetStringOfEmpty()
    ensures GetString(Empty(Plain)) == EmptyDigits
  {
    TrailingGroupWithoutSeparator(EmptyDigits);
    assert GetString(Empty(Plain)) == EmptyDigits;
  }

  /** `get("", false)` is this class's EMPTY and `get("", true)` is NULL.
      EMPTY is not the value `get("000000000")` builds, which has dashes,
      and it is not the other class's EMPTY. */
  lemma EmptySentinel()
    ensures GetOrEmpty(Plain, [], false) == Ok(Empty(Plain)) && GetOrEmpty(Plain, [], true) == Null
    ensures Get(Plain, EmptyDigits).Ok? && Get(Plain, EmptyDigits).ssn != Empty(Plain)
    ensures !Equals(Empty(Plain), Empty(Secure))
  {
    GetStoresCanonical(EmptyDigits);
  }

  /** Truncating the value of a valid input fails for every precision that
      would shorten it, and is the identity otherwise. */
  lemma ConvertPrecisionOfValid(s: JString, precision: nat)
    requires |s| == 9 && AllDigits(s)
    ensures Get(Plain, s).Ok?
    ensures precision == 0 || precision >= 11 ==>
      ConvertPrecision(Get(Plain, s).ssn, precision) == Get(Plain, s)
    ensures 0 < precision < 11 ==>
      ConvertPrecision(Get(Plain, s).ssn, precision) ==
        Err(if precision == 9 then InvalidCharacter else InvalidLength)
  {
    GetStoresCanonical(s);
    if 0 < precision < 11 {
      ConvertPrecisionOfCanonical(Get(Plain, s).ssn, precision);
    }
  }

  /** A ValueSSN equals only a ValueSSN: never a value of the other class,
      whatever its encoding, in either direction. */
  lemma EqualsOnlySameClass(v: Ssn, other: Ssn)
    requires v.kind == Plain
    ensures Equals(v, other) ==> other.kind == Plain
    ensures forall e :: !Equals(v, Ssn(Secure, e)) && !Equals(Ssn(Secure, e), v)
  {
  }

  /** Equal values hash alike. */
  lemma HashCodeAgreesWithEquals(v: Ssn, other: Ssn)
    requires v.kind == Plain && Equals(v, other)
    ensures HashCode(v) == HashCode(other)
  {
  }

  /** The fixed accessors, and what they give for a canonical encoding. */
  lemma Accessors(v: Ssn)
    requires v.kind == Plain
    ensures GetPrecision(v) == 9 && GetType(v) == STRING && GetObject(v) == v.value
    ensures GetDisplaySize(v) == |v.value|
    ensures IsCanonical(v.value) ==> GetDisplaySize(v) == 11 && GetMemory(v) == 70
  {
  }

  /** The worked example: "078051120" is stored as "078-05-1120" and
      shows "1120". */
  lemma Example()
    ensures Get(Plain, [0x30, 0x37, 0x38, 0x30, 0x35, 0x31, 0x31, 0x32, 0x30]) ==
      Ok(Ssn(Plain, [0x30, 0x37, 0x38, Dash, 0x30, 0x35, Dash, 0x31, 0x31, 0x32, 0x30]))
    ensures GetString(Ssn(Plain, [0x30, 0x37, 0x38, Dash, 0x30, 0x35, Dash, 0x31, 0x31, 0x32, 0x30])) ==
      [0x31, 0x31, 0x32, 0x30]
  {
    var s: JString := [0x30, 0x37, 0x38, 0x30, 0x35, 0x31, 0x31, 0x32, 0x30];
    var t: JString := [0x30, 0x37, 0x38, Dash, 0x30, 0x35, Dash, 0x31, 0x31, 0x32, 0x30];
    assert AllDigits(s);
    assert Canonicalize(s) == t;
    GetOutcomes(Plain, s);
    CanonicalizeRoundTrip(s);
    TrailingGroupOfCanonical(t);
    assert t[7..] == [0x31, 0x31, 0x32, 0x30];
  }
}
