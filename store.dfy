/**
 * The shared key-value store the tasks keep their attempt counters in, reduced
 * to the three commands they issue: INCR, EXPIRE and DEL. A key holds an
 * integer; a key may carry a time to live in seconds. Time never passes in
 * this model, so no key expires on its own.
 */
module Store {

  /** The integer INCR starts from: an absent key counts as 0. */
  function CountIn(values: map<string, int>, key: string): (n: int)
    ensures key in values ==> n == values[key]
    ensures key !in values ==> n == 0
  {
    if key in values then values[key] else 0
  }

  class KeyValueStore {
    var values: map<string, int>
    var ttl: map<string, int>

    /** Only a key that exists can carry a time to live. */
    ghost predicate Valid()
      reads this
    {
      ttl.Keys <= values.Keys
    }

    /** The integer INCR would start from for `key`. */
    function Count(key: string): (n: int)
      reads this
      ensures n == CountIn(values, key)
    {
      CountIn(values, key)
    }

    constructor ()
      ensures Valid()
      ensures values == map[] && ttl == map[]
    {
      values := map[];
      ttl := map[];
    }

    /** INCR: adds one to the key, creating it at 0 first; keeps its time to live. */
    method Incr(key: string) returns (n: int)
      requires Valid()
      modifies this
      ensures Valid()
      ensures n == old(Count(key)) + 1
      ensures values == old(values)[key := n]
      ensures ttl == old(ttl)
    {
      n := Count(key) + 1;
      values := values[key := n];
    }

    /**
     * EXPIRE with a positive timeout: gives an existing key a time to live; reports
     * whether the key exists.
     */
    method Expire(key: string, seconds: int) returns (set_: bool)
      requires Valid() && seconds > 0
      modifies this
      ensures Valid()
      ensures set_ == (key in old(values))
      ensures values == old(values)
      ensures ttl == if set_ then old(ttl)[key := seconds] else old(ttl)
    {
      set_ := key in values;
      if set_ {
        ttl := ttl[key := seconds];
      }
    }

    /** DEL: removes the key and its time to live; reports how many keys went. */
    method Delete(key: string) returns (removed: int)
      requires Valid()
      modifies this
      ensures Valid()
      ensures removed == if key in old(values) then 1 else 0
      ensures values == old(values) - {key}
      ensures ttl == old(ttl) - {key}
      ensures Count(key) == 0
    {
      removed := if key in values then 1 else 0;
      values := values - {key};
      ttl := ttl - {key};
    }
  }
}
