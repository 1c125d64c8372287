# SSN value types of the H2 engine, modelled in Dafny

This project models the two identity-number value types of an H2 database
extension: `ValueSSN`, which displays the last four digits of a 9-digit
number, and `ValueSSNSecure`, which displays them behind the mask
`***-***-`. Both classes keep the same stored string. A nine-digit input
`DDDDDDDDD` is validated (length first, digits second) and stored as
`DDD-DD-DDDD`. The two classes are siblings: neither ever equals the other.

Layout:

- `ssn_core.dfy` (module `SsnCore`): the value datatype `Ssn(kind, value)`,
  tagged `Plain` or `Secure`. It also holds the `Result` of a constructor
  entry point (`Ok`, `Null` or `Err(InvalidLength | InvalidCharacter)`),
  and every operation of both classes as one function over the tag: `Get`,
  `GetOrEmpty`, `GetString`, `ConvertPrecision`, `Equals`, `HashCode` and
  the fixed accessors. The lemmas here are the ones both classes share.
- `value_ssn.dfy` (module `ValueSsn`): the properties of `ValueSSN`.
- `value_ssn_secure.dfy` (module `ValueSsnSecure`): the properties of
  `ValueSSNSecure`.
- `value_cache.dfy` (module `Interning`): the class `ValueCache`. It holds
  the state of the process-wide string and value caches that the
  two-argument `get` goes through, and the threshold above which the value
  cache is bypassed. Its methods are the imperative `get`s and
  `convertPrecision`, proved equal to the functions of `SsnCore`.

Strings are Java strings, modelled as sequences of UTF-16 code units
(`CodeUnit`, `JString`). These are the units that `length`, `substring`,
`lastIndexOf` and `String.hashCode` count, so a character outside the Basic
Multilingual Plane counts as two.

Two behaviours of the code a reader may not expect:

- The EMPTY sentinel of both classes is built from nine zeros with no
  dashes, which is not the layout `get(String)` stores. So `getString` of
  EMPTY shows all nine zeros, because `lastIndexOf('-')` finds nothing.
- `convertPrecision` never produces a shortened value. `getNew` calls the
  validating one-argument `get`, so cutting a canonical 11-character
  encoding to any precision from 1 to 10 fails. Precision 9 keeps a dash
  and fails the digit check; every other precision fails the length check.

## Model

| member | source | states |
|---|---|---|
| `SsnCore.Empty` | h2/src/main/org/h2/value/ValueSSN.java:32 | the EMPTY sentinel of a class keeps that class and is nine digits with no dash, so it is not a `DDD-DD-DDDD` encoding |
| `SsnCore.MatchesDigitRun` | h2/src/main/org/h2/value/ValueSSN.java:136-138 | the full match of `[0-9]+` accepts a string iff it is non-empty and every code unit is in `'0'..'9'` |
| `SsnCore.Canonicalize` | h2/src/main/org/h2/value/ValueSSN.java:145 | the rewrite has length 11, dashes at indices 3 and 6, and the input's groups 0-3, 3-5 and 5-9 at 0-3, 4-6 and 7-11 |
| `SsnCore.CanonicalizeRoundTrip` | h2/src/main/org/h2/value/ValueSSN.java:145-146 | a nine-digit input is rewritten into the `DDD-DD-DDDD` layout, and deleting the dashes gives the input back |
| `SsnCore.CanonicalizeInverse` | h2/src/main/org/h2/value/ValueSSN.java:145 | every `DDD-DD-DDDD` string is the rewrite of exactly one nine-digit input, the one with its dashes deleted |
| `SsnCore.GetOrEmpty` | h2/src/main/org/h2/value/ValueSSN.java:157-168 | empty input gives NULL iff empty strings are treated as NULL, and EMPTY of the requested class otherwise; any other input is kept verbatim in the requested class, without validation; it never fails |
| `SsnCore.Get` | h2/src/main/org/h2/value/ValueSSN.java:127-147 | the validating `get` never gives NULL; on success the value belongs to the requested class and its encoding has length 11 |
| `SsnCore.GetOutcomes` | h2/src/main/org/h2/value/ValueSSN.java:129-146 | a length other than 9 is a length error whatever the characters; at length 9 a character error iff some code unit is not a digit; success iff nine digits, with the rewritten encoding |
| `SsnCore.SurrogatePairCountsTwice` | h2/src/main/org/h2/value/ValueSSN.java:129 | the length check counts UTF-16 code units: seven digits and one supplementary character pass it and fail the digit check, eight digits and that character fail it |
| `SsnCore.LastIndexOf` | h2/src/main/org/h2/value/ValueSSN.java:72 | `lastIndexOf` gives -1 or a position holding the character, and no later position holds it |
| `SsnCore.TrailingGroup` | h2/src/main/org/h2/value/ValueSSN.java:72 | the display part is a suffix of the encoding with no dash, and it is preceded by a dash unless it is the whole encoding |
| `SsnCore.GetString` | h2/src/main/org/h2/value/ValueSSN.java:71-74 | plain: a dash-free suffix of the encoding; secure: the mask `***-***-` followed by a dash-free suffix of the encoding. `TrailingGroupOfCanonical`, `ValueSsn.GetStringShowsLastFour` and `ValueSsnSecure.GetStringMasksAllButLastFour` pin the suffix down to the last four digits |
| `SsnCore.TrailingGroupOfCanonical` | h2/src/main/org/h2/value/ValueSSN.java:71-74 | for a `DDD-DD-DDDD` encoding the display part is its last four digits |
| `SsnCore.TrailingGroupWithoutSeparator` | h2/src/main/org/h2/value/ValueSSN.java:71-74 | an encoding without a dash, such as EMPTY's, is displayed whole |
| `SsnCore.ConvertPrecision` | h2/src/main/org/h2/value/ValueSSN.java:103-109 | precision 0 or at least the length returns the value itself; a result never is NULL and keeps the class |
| `SsnCore.ConvertPrecisionSucceedsIff` | h2/src/main/org/h2/value/ValueSSN.java:103-109 | truncation succeeds iff it is the identity, or it cuts to 9 code units that are all digits |
| `SsnCore.ConvertPrecisionOfCanonical` | h2/src/main/org/h2/value/ValueSSN.java:177-179 | cutting a canonical encoding to 1..10 code units fails: a character error at 9, a length error otherwise |
| `SsnCore.Equals` | h2/src/main/org/h2/value/ValueSSN.java:58-61 | `equals` holds iff the other value has the same class and the same encoding, that is iff the two values are the same |
| `SsnCore.EqualsIsEquivalence` | h2/src/main/org/h2/value/ValueSSN.java:58-61 | `equals` is reflexive, symmetric and transitive |
| `SsnCore.StringHash` | h2/src/main/org/h2/value/ValueSSN.java:112-114 | `String.hashCode` over the code units is a Java `int`, whatever the length of the string |
| `SsnCore.HashCode` | h2/src/main/org/h2/value/ValueSSN.java:112-114 | the hash code of a value is a Java `int` |
| `SsnCore.GetPrecision` | h2/src/main/org/h2/value/ValueSSN.java:77-79 | the precision is 9, whatever the stored length |
| `SsnCore.GetDisplaySize` | h2/src/main/org/h2/value/ValueSSN.java:92-95 | the display size is the length of the encoding, 11 for a canonical one |
| `SsnCore.GetMemory` | h2/src/main/org/h2/value/ValueSSN.java:97-100 | the estimate is a Java `int`, and it equals `2 * length + 48` whenever that fits |
| `SsnCore.GetType` | h2/src/main/org/h2/value/ValueSSN.java:116-119 | the type code is `Value.STRING` |
| `SsnCore.GetObject` | h2/src/main/org/h2/value/ValueSSN.java:81-84 | the object is the encoding itself |
| `ValueSsn.GetStoresCanonical` | h2/src/main/org/h2/value/ValueSSN.java:145-146 | a valid input gives a `ValueSSN` whose encoding is `DDD-DD-DDDD` and whose dashes deleted give the input |
| `ValueSsn.GetInjective` | h2/src/main/org/h2/value/ValueSSN.java:127-147 | two inputs accepted by `get` give equal values only if they are the same input |
| `ValueSsn.GetStringShowsLastFour` | h2/src/main/org/h2/value/ValueSSN.java:71-74 | `getString` of a value built from a valid input is exactly the input's last four digits |
| `ValueSsn.GetStringOfEmpty` | h2/src/main/org/h2/value/ValueSSN.java:32 | `getString` of EMPTY is the whole nine-zero encoding |
| `ValueSsn.EmptySentinel` | h2/src/main/org/h2/value/ValueSSN.java:157-160 | `get("", false)` is the `ValueSSN` EMPTY and `get("", true)` is NULL; EMPTY differs from what `get` builds from nine zeros, and from the other class's EMPTY |
| `ValueSsn.ConvertPrecisionOfValid` | h2/src/main/org/h2/value/ValueSSN.java:103-109 | for a value built from valid input, truncation is the identity at 0 or at least 11, and fails at every precision from 1 to 10 |
| `ValueSsn.EqualsOnlySameClass` | h2/src/main/org/h2/value/ValueSSN.java:58-61 | a `ValueSSN` equals only a `ValueSSN`; no `ValueSSNSecure`, whatever its encoding, equals it in either direction |
| `ValueSsn.HashCodeAgreesWithEquals` | h2/src/main/org/h2/value/ValueSSN.java:112-114 | equal values have equal hash codes |
| `ValueSsn.Accessors` | h2/src/main/org/h2/value/ValueSSN.java:77-119 | precision is 9, the type is STRING, the object is the encoding, the display size is its length; 11 and memory 70 for a canonical encoding |
| `ValueSsn.Example` | h2/src/main/org/h2/value/ValueSSN.java:127-147 | `078051120` is stored as `078-05-1120` and displayed as `1120` |
| `ValueSsnSecure.GetMatchesPlain` | h2/src/main/org/h2/value/ValueSSNSecure.java:120-137 | `ValueSSNSecure.get` fails iff `ValueSSN.get` fails, with the same error, and otherwise stores the same encoding in the secure class |
| `ValueSsnSecure.GetStoresCanonical` | h2/src/main/org/h2/value/ValueSSNSecure.java:138-139 | a valid input gives a `ValueSSNSecure` with the same `DDD-DD-DDDD` encoding the plain class stores, and the same dash-deletion round trip |
| `ValueSsnSecure.GetStringMasksAllButLastFour` | h2/src/main/org/h2/value/ValueSSNSecure.java:63-67 | `getString` of a value built from a valid input is `***-***-` and the last four digits: 12 code units |
| `ValueSsnSecure.GetStringOfEmpty` | h2/src/main/org/h2/value/ValueSSNSecure.java:24 | `getString` of EMPTY is `***-***-000000000` |
| `ValueSsnSecure.GetStringIsMaskedPlain` | h2/src/main/org/h2/value/ValueSSNSecure.java:63-67 | for any encoding the masked display is the mask followed by the plain display, and no dash follows the mask |
| `ValueSsnSecure.EmptySentinel` | h2/src/main/org/h2/value/ValueSSNSecure.java:150-153 | `get("", false)` is the `ValueSSNSecure` EMPTY and `get("", true)` is NULL; EMPTY differs from what `get` builds from nine zeros, and from the other class's EMPTY |
| `ValueSsnSecure.ConvertPrecisionOfValid` | h2/src/main/org/h2/value/ValueSSNSecure.java:96-102 | for a value built from valid input, truncation is the identity at 0 or at least 11, and fails at every precision from 1 to 10 through `getNew` |
| `ValueSsnSecure.EqualsOnlySameClass` | h2/src/main/org/h2/value/ValueSSNSecure.java:50-53 | a `ValueSSNSecure` equals only a `ValueSSNSecure`; no `ValueSSN`, whatever its encoding, equals it in either direction |
| `ValueSsnSecure.HashCodeAgreesWithEquals` | h2/src/main/org/h2/value/ValueSSNSecure.java:105-107 | equal values have equal hash codes, and the hash depends on the encoding alone, so a plain value with the same encoding hashes alike |
| `ValueSsnSecure.Accessors` | h2/src/main/org/h2/value/ValueSSNSecure.java:70-112 | precision 9, type STRING, object and display size as the encoding, memory the same as the plain class's |
| `ValueSsnSecure.Example` | h2/src/main/org/h2/value/ValueSSNSecure.java:120-140 | `078051120` is stored as `078-05-1120` and displayed as `***-***-1120` |
| `Interning.ValueCache.CacheString` | h2/src/main/org/h2/value/ValueSSN.java:161 | the string cache hands back an equal string, and it holds nothing new but that string |
| `Interning.ValueCache.CacheValue` | h2/src/main/org/h2/value/ValueSSN.java:165 | the value cache hands back an equal value and holds it afterwards, having gained nothing else |
| `Interning.ValueCache.GetOrEmpty` | h2/src/main/org/h2/value/ValueSSN.java:157-168 | the result is `SsnCore.GetOrEmpty`; empty input touches no cache; input longer than the threshold (in code units) bypasses the value cache; other input is held by it |
| `Interning.ValueCache.Get` | h2/src/main/org/h2/value/ValueSSNSecure.java:120-140 | the result is `SsnCore.Get`; a rejected input leaves both caches unchanged; an accepted one is held by the value cache when 11 is within the threshold, and the value cache is untouched otherwise |
| `Interning.ValueCache.ConvertPrecision` | h2/src/main/org/h2/value/ValueSSNSecure.java:96-102 | the result is `SsnCore.ConvertPrecision`; the identity case and a failed truncation leave both caches unchanged; a successful cut gains at most its encoding in the string cache and is held by the value cache when 11 is within the threshold |

## Left out

- `getSQL` quotes the encoding with `StringUtils.quoteStringSQL`, which is not part of this model.
- `compareSecure` hands the two encodings to the collation-dependent `CompareMode.compareString`, which is not part of this model.
- `set(PreparedStatement, int)` is a JDBC call. It passes the encoding verbatim in both classes, so the masked class binds the unmasked number.
- The exception classes and their message texts become the two `Error` constructors. The messages differ between the classes ("cannot exceed 9" against "should be 9"), but the condition is the same.
- A `null` input string, which raises a NullPointerException at `s.length()`, is not modelled.
- `SsnCore.ConvertPrecision`: the precision is a `nat`. Negative precisions and the `MathUtils.convertLongToInt` clamp are not modelled; the clamp cannot change a precision below the encoding's length. The `force` flag is ignored by the source and is not a parameter.
- `SsnCore.Equals`: the other object is always an SSN value. Comparing with any other kind of `Value` or `Object` is false in the source and is not modelled.
- `Interning.ValueCache.CacheString`: the fixed-size, hash-indexed slot arrays, their soft references and the `SysProperties.OBJECT_CACHE` switch are not modelled. The string cache may keep the string or not.
- `Interning.ValueCache.CacheValue`: the model assumes the object cache is switched on, so the value is always held afterwards. Eviction is allowed: other values may be dropped. Reference identity of the shared instance is not modelled, because values are datatypes.
- Thread safety of the caches is not modelled.
- The commented-out imports and branches (ValueSSN.java lines 18-24 and 48-52) are dead code.
