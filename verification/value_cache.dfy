/** The process-wide caches the two-argument `get` of both classes goes
    through: `StringUtils.cache` for the string and `Value.cache` for the
    value object, with the per-element size threshold above which the value
    cache is bypassed. */
module Interning {
  import opened SsnCore

  class ValueCache {
    /** `SysProperties.OBJECT_CACHE_MAX_PER_ELEMENT_SIZE`. */
    const maxPerElementSize: int
    /** The strings `StringUtils.cache` currently holds. */
    var strings: set<JString>
    /** The values `Value.cache` currently holds. */
    var values: set<Ssn>

    constructor (maxPerElementSize: int)
      ensures this.maxPerElementSize == maxPerElementSize
      ensures strings == {} && values == {}
    {
      this.maxPerElementSize := maxPerElementSize;
      strings := {};
      values := {};
    }

    /** `StringUtils.cache(s)`: an equal string; the cache may now hold `s`
        and may have dropped others. */
    method CacheString(s: JString) returns (r: JString)
      modifies this
      ensures r == s
      ensures strings <= old(strings) + {s}
      ensures values == old(values)
    {
      r := s;
      strings := strings + {s};
    }

    /** `Value.cache(v)`: an equal value, which the cache now holds in the
        slot it hashes to, in place of whatever was there. */
    method CacheValue(v: Ssn) returns (r: Ssn)
      modifies this
      ensures r == v
      ensures v in values && values <= old(values) + {v}
      ensures strings == old(strings)
    {
      r := v;
      values := values + {v};
    }

    /** `get(String, boolean)`: NULL or EMPTY for empty input, else the input
        wrapped verbatim, registered in the value cache unless it is longer
        than the threshold. */
    method GetOrEmpty(kind: Kind, s: JString, treatEmptyAsNull: bool) returns (r: Result)
      modifies this
      ensures r == SsnCore.GetOrEmpty(kind, s, treatEmptyAsNull)
      ensures s == [] ==> strings == old(strings) && values == old(values)
      ensures strings <= old(strings) + {s}
      ensures |s| > maxPerElementSize ==> values == old(values)
      ensures 0 < |s| <= maxPerElementSize ==>
        Ssn(kind, s) in values && values <= old(values) + {Ssn(kind, s)}
    {
      if s == [] {
        r := if treatEmptyAsNull then Null else Ok(Empty(kind));
        return;
      }
      var cached := CacheString(s);
      var obj := Ssn(kind, cached);
      if |s| > maxPerElementSize {
        r := Ok(obj);
        return;
      }
      var shared := CacheValue(obj);
      r := Ok(shared);
    }

    /** `get(String)`: validate, rewrite, then `get(ssn, false)`.  A rejected
        input leaves both caches as they were. */
    method Get(kind: Kind, s: JString) returns (r: Result)
      modifies this
      ensures r == SsnCore.Get(kind, s)
      ensures r.Err? ==> strings == old(strings) && values == old(values)
      ensures r.Ok? ==> strings <= old(strings) + {r.ssn.value}
      ensures r.Ok? && 11 > maxPerElementSize ==> values == old(values)
      ensures r.Ok? && 11 <= maxPerElementSize ==>
        r.ssn in values && values <= old(values) + {r.ssn}
    {
      if |s| != 9 {
        return Err(InvalidLength);
      }
      if !MatchesDigitRun(s) {
        return Err(InvalidCharacter);
      }
      var ssn := s[..3] + [Dash] + s[3..5] + [Dash] + s[5..];
      r := GetOrEmpty(kind, ssn, false);
    }

    /** `convertPrecision(precision, force)`: the value itself, touching no
        cache, or `getNew` of the prefix, which is this class's `get(String)`
        and caches what it accepts. */
    method ConvertPrecision(v: Ssn, precision: nat) returns (r: Result)
      modifies this
      ensures r == SsnCore.ConvertPrecision(v, precision)
      ensures precision == 0 || |v.value| <= precision ==>
        strings == old(strings) && values == old(values)
      ensures r.Err? ==> strings == old(strings) && values == old(values)
      ensures 0 < precision < |v.value| && r.Ok? ==> strings <= old(strings) + {r.ssn.value}
      ensures 0 < precision < |v.value| && r.Ok? && 11 > maxPerElementSize ==> values == old(values)
      ensures 0 < precision < |v.value| && r.Ok? && 11 <= maxPerElementSize ==>
        r.ssn in values && values <= old(values) + {r.ssn}
    {
      if precision == 0 || |v.value| <= precision {
        return Ok(v);
      }
      r := Get(v.kind, v.value[..precision]);
    }
  }
}
