/** The configuration store: `ini_set`-style values kept per environment on top of
    the defaults of the shared compile scope. */
module Config {
  import opened Common
  import opened Runtime

  /** The keys with a change handler (`Environment.configurationHandler`). */
  const HandledKeys: set<string> := {"include_path"}

  /** `setConfigValue`'s coercion: a string is kept, anything else is stored as its
      string form (as the reference PHP implementation does). */
  function Coerce(v: Value): (r: Value)
    ensures r.IsString() && r.AsString() == v.AsString()
    ensures v.IsString() ==> r == v
  {
    if v.IsString() then v else Str(v.AsString())
  }

  /** Whether `getConfigValues` lists `key`: always without a prefix, else only keys
      starting with the prefix followed by a dot. */
  predicate Listed(prefix: Option<string>, key: string) {
    prefix.None? || StartsWith(key, prefix.value + ".")
  }

  /** The part of `m` that `getConfigValues` lists. */
  function Filter(m: map<string, Value>, prefix: Option<string>): (r: map<string, Value>)
    ensures forall k :: k in r <==> k in m && Listed(prefix, k)
    ensures forall k :: k in r ==> r[k] == m[k]
  {
    map k | k in m && Listed(prefix, k) :: m[k]
  }

  /** What `getConfigValues(prefix, includingGlobal)` returns: the listed scope defaults
      (only when asked for and present), overridden by the listed per-environment
      values. */
  function Listing(global: Option<map<string, Value>>, local: map<string, Value>,
                   prefix: Option<string>, includingGlobal: bool): map<string, Value>
  {
    (if includingGlobal && global.Some? then Filter(global.value, prefix) else map[]) + Filter(local, prefix)
  }

  /** A listing holds exactly the listed keys of the two levels and gives each the value
      `getConfigValue` sees, except that the scope level only counts when it was asked for. */
  lemma ListingIsVisibleValues(global: Option<map<string, Value>>, local: map<string, Value>,
                               prefix: Option<string>, includingGlobal: bool, k: string)
    ensures var r := Listing(global, local, prefix, includingGlobal);
      && (k in r <==> Listed(prefix, k) && (k in local || (includingGlobal && global.Some? && k in global.value)))
      && (k in r && k in local ==> r[k] == local[k])
      && (k in r && k !in local ==> global.Some? && r[k] == global.value[k])
  {
  }
}
