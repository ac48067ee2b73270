/**
 * Small lookups in apps/core/helpers.py: `dict_get_any` (first key present wins) and
 * `get_loc_env` (a location-prefixed environment variable, falling back to the plain one).
 * The process environment is the map `env`.
 */
module Lookups {
  import opened Wrappers

  /** dict_get_any: the value of the first of `keys` present in `d`; None when none is. */
  function DictGetAny<K, V>(d: map<K, V>, keys: seq<K>): (r: Option<V>)
    ensures r.None? <==> forall i :: 0 <= i < |keys| ==> keys[i] !in d
    ensures r.Some? ==> exists i :: 0 <= i < |keys| && keys[i] in d && r.value == d[keys[i]] &&
                                    forall j :: 0 <= j < i ==> keys[j] !in d
  {
    if keys == [] then None
    else if keys[0] in d then Some(d[keys[0]])
    else
      var r := DictGetAny(d, keys[1..]);
      assert forall i :: 1 <= i < |keys| ==> keys[i] == keys[1..][i - 1];
      assert r.Some? ==> exists i :: 0 <= i < |keys| && keys[i] in d && r.value == d[keys[i]] &&
                                     forall j :: 0 <= j < i ==> keys[j] !in d by {
        if r.Some? {
          var i :| 0 <= i < |keys[1..]| && keys[1..][i] in d && r.value == d[keys[1..][i]] &&
                   forall j :: 0 <= j < i ==> keys[1..][j] !in d;
          assert keys[i + 1] in d && r.value == d[keys[i + 1]];
        }
      }
      r
  }

  /** str.upper(), for the ASCII letters only: every other character is kept as it is. */
  function Upper(s: string): (r: string)
    ensures |r| == |s|
    ensures forall i :: 0 <= i < |s| ==> r[i] == (if 'a' <= s[i] <= 'z' then (s[i] as int - 32) as char else s[i])
  {
    if s == [] then [] else [if 'a' <= s[0] <= 'z' then (s[0] as int - 32) as char else s[0]] + Upper(s[1..])
  }

  /** The name under which a location overrides a setting: '{LOCATION}_{name}'. */
  function LocalName(location: string, name: string): string {
    Upper(location) + "_" + name
  }

  /**
   * get_loc_env: the prefixed name wins, then the plain name, then the default; that is,
   * dict_get_any over the two names, falling back to the default when neither is set.
   */
  function GetLocEnv(env: map<string, string>, location: string, name: string, default: Option<string>): (r: Option<string>)
    ensures LocalName(location, name) in env ==> r == Some(env[LocalName(location, name)])
    ensures LocalName(location, name) !in env && name in env ==> r == Some(env[name])
    ensures LocalName(location, name) !in env && name !in env ==> r == default
    ensures var found := DictGetAny(env, [LocalName(location, name), name]);
            r == if found.Some? then found else default
  {
    var keys := [LocalName(location, name), name];
    assert keys[1..] == [name];
    assert keys[1..][1..] == [];
    var fallback := if name in env then Some(env[name]) else default;
    if LocalName(location, name) in env then Some(env[LocalName(location, name)]) else fallback
  }
}
