/** The dataset registry `REQUIRED` imported by src/data.py: an ordered
    dictionary from CSV file name to the list of column names that file must
    have. Its contents live in src/schema.py, which is not part of this model,
    so every operation takes the registry as a parameter. */
module Schema {

  datatype Entry = Entry(filename: string, columns: seq<string>)

  /** Entries in dictionary insertion order. */
  datatype Registry = Registry(entries: seq<Entry>)

  /** A Python dictionary never holds the same key twice. */
  predicate Valid(registry: Registry) {
    forall i, j | 0 <= i < j < |registry.entries| ::
      registry.entries[i].filename != registry.entries[j].filename
  }

  /** `REQUIRED.keys()`, in iteration order. */
  function Keys(registry: Registry): (keys: seq<string>)
    ensures |keys| == |registry.entries|
    ensures forall i | 0 <= i < |keys| :: keys[i] == registry.entries[i].filename
  {
    seq(|registry.entries|, i requires 0 <= i < |registry.entries| => registry.entries[i].filename)
  }

  /** `REQUIRED.get(filename, default)`: the columns registered for the first
      entry with that key, or `default` when there is none. */
  function Get(registry: Registry, filename: string, default: seq<string>): (columns: seq<string>)
    ensures filename !in Keys(registry) ==> columns == default
    ensures forall i | 0 <= i < |registry.entries| && registry.entries[i].filename == filename ::
              (forall j | 0 <= j < i :: registry.entries[j].filename != filename) ==>
                columns == registry.entries[i].columns
    decreases |registry.entries|
  {
    if registry.entries == [] then default
    else if registry.entries[0].filename == filename then registry.entries[0].columns
    else Get(Registry(registry.entries[1..]), filename, default)
  }

  /** In a valid registry the lookup finds the one entry for its key. */
  lemma GetFindsEntry(registry: Registry, i: nat, default: seq<string>)
    requires Valid(registry)
    requires i < |registry.entries|
    ensures Get(registry, registry.entries[i].filename, default) == registry.entries[i].columns
  {
  }
}
