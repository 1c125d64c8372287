/** What ValueSSNSecure, the masked class, promises: the same validation and
    stored layout as ValueSSN, a display that hides all but the trailing
    group, and an equality that never matches a plain value. */
module ValueSsnSecure {
  import opened SsnCore

  /** `get(String)` runs the plain class's checks in the same order: it
      fails exactly when the plain class fails, with the same error, and
      otherwise stores the same encoding. */
  lemma GetMatchesPlain(s: JString)
    ensures Get(Secure, s).Err? <==> Get(Plain, s).Err?
    ensures Get(Secure, s).Err? ==> Get(Secure, s) == Get(Plain, s)
    ensures Get(Secure, s).Ok? ==> Get(Secure, s).ssn == Ssn(Secure, Get(Plain, s).ssn.value)
  {
  }

  /** A valid input is stored as DDD-DD-DDDD, the same encoding the plain
      class stores, and deleting the dashes recovers the input. */
  lemma GetStoresCanonical(s: JString)
    requires |s| == 9 && AllDigits(s)
    ensures Get(Secure, s).Ok? && Get(Secure, s).ssn.kind == Secure
    ensures IsCanonical(Get(Secure, s).ssn.value)
    ensures StripSeparators(Get(Secure, s).ssn.value) == s
    ensures Get(Plain, s).Ok? && Get(Secure, s).ssn.value == Get(Plain, s).ssn.value
  {
    GetOutcomes(Secure, s);
    GetOutcomes(Plain, s);
    CanonicalizeRoundTrip(s);
  }

  /** `getString` of a value built from valid input is the mask followed by
      the last four digits: twelve characters, never more of the number. */
  lemma GetStringMasksAllButLastFour(s: JString)
    requires |s| == 9 && AllDigits(s)
    ensures Get(Secure, s).Ok?
    ensures GetString(Get(Secure, s).ssn) == Mask + s[5..]
    ensures |GetString(Get(Secure, s).ssn)| == 12
  {
    GetStoresCanonical(s);
    TrailingGroupOfCanonical(Get(Secure, s).ssn.value);
  }

  /** EMPTY has no dash, so all nine zeros show behind the mask. */
  lemma GetStringOfEmpty()
    ensures GetString(Empty(Secure)) == Mask + EmptyDigits
  {
    TrailingGroupWithoutSeparator(EmptyDigits);
  }

  /** Whatever the encoding, the display starts with the mask and ends with
      the plain class's display of the same encoding. */
  lemma GetStringIsMaskedPlain(value: JString)
    ensures GetString(Ssn(Secure, value)) == Mask + GetString(Ssn(Plain, value))
    ensures Dash !in GetString(Ssn(Secure, value))[8..]
  {
  }

  /** `get("", false)` is this class's EMPTY and `get("", true)` is NULL.
      EMPTY is not the value `get("000000000")` builds, which has dashes,
      and it is not the other class's EMPTY. */
  lemma EmptySentinel()
    ensures GetOrEmpty(Secure, [], false) == Ok(Empty(Secure)) && GetOrEmpty(Secure, [], true) == Null
    ensures Get(Secure, EmptyDigits).Ok? && Get(Secure, EmptyDigits).ssn != Empty(Secure)
    ensures !Equals(Empty(Secure), Empty(Plain))
  {
    GetStoresCanonical(EmptyDigits);
  }

  /** Truncating the value of a valid input fails for every precision that
      would shorten it, and is the identity otherwise. */
  lemma ConvertPrecisionOfValid(s: JString, precision: nat)
    requires |s| == 9 && AllDigits(s)
    ensures Get(Secure, s).Ok?
    ensures precision == 0 || precision >= 11 ==>
      ConvertPrecision(Get(Secure, s).ssn, precision) == Get(Secure, s)
    ensures 0 < precision < 11 ==>
      ConvertPrecision(Get(Secure, s).ssn, precision) ==
        Err(if precision == 9 then InvalidCharacter else InvalidLength)
  {
    GetStoresCanonical(s);
    if 0 < precision < 11 {
      ConvertPrecisionOfCanonical(Get(Secure, s).ssn, precision);
    }
  }

  /** A ValueSSNSecure equals only a ValueSSNSecure: never a value of the other class,
      whatever its encoding, in either direction. */
  lemma EqualsOnlySameClass(v: Ssn, other: Ssn)
    requires v.kind == Secure
    ensures Equals(v, other) ==> other.kind == Secure
    ensures forall e :: !Equals(v, Ssn(Plain, e)) && !Equals(Ssn(Plain, e), v)
  {
  }

  /** Equal values hash alike; the hash ignores the class, so a plain value
      with the same encoding hashes alike too although it is not equal. */
  lemma HashCodeAgreesWithEquals(v: Ssn, other: Ssn)
    requires v.kind == Secure
    ensures Equals(v, other) ==> HashCode(v) == HashCode(other)
    ensures HashCode(v) == HashCode(Ssn(Plain, v.value))
  {
  }

  /** The fixed accessors, identical to the plain class's. */
  lemma Accessors(v: Ssn)
    requires v.kind == Secure
    ensures GetPrecision(v) == 9 && GetType(v) == STRING && GetObject(v) == v.value
    ensures GetDisplaySize(v) == |v.value|
    ensures GetMemory(v) == GetMemory(Ssn(Plain, v.value))
    ensures IsCanonical(v.value) ==> GetDisplaySize(v) == 11 && GetMemory(v) == 70
  {
  }

  /** The worked example: "078051120" is stored as "078-05-1120" and
      shows "***-***-1120". */
  lemma Example()
    ensures Get(Secure, [0x30, 0x37, 0x38, 0x30, 0x35, 0x31, 0x31, 0x32, 0x30]) ==
      Ok(Ssn(Secure, [0x30, 0x37, 0x38, Dash, 0x30, 0x35, Dash, 0x31, 0x31, 0x32, 0x30]))
    ensures GetString(Ssn(Secure, [0x30, 0x37, 0x38, Dash, 0x30, 0x35, Dash, 0x31, 0x31, 0x32, 0x30])) ==
      Mask + [0x31, 0x31, 0x32, 0x30]
  {
    var s: JString := [0x30, 0x37, 0x38, 0x30, 0x35, 0x31, 0x31, 0x32, 0x30];
    var t: JString := [0x30, 0x37, 0x38, Dash, 0x30, 0x35, Dash, 0x31, 0x31, 0x32, 0x30];
    assert AllDigits(s);
    assert Canonicalize(s) == t;
    GetOutcomes(Secure, s);
    CanonicalizeRoundTrip(s);
    TrailingGroupOfCanonical(t);
    assert t[7..] == [0x31, 0x31, 0x32, 0x30];
  }
}
