/**
 * The source registry (api/services/SourceManager.ts): a JavaScript `Map`
 * from adapter name to adapter. A `Map` iterates in first-insertion order and
 * `set` on an existing key replaces the value in place, so the model keeps the
 * key order as a sequence beside the name-to-adapter map.
 */
module Registry {
  import opened Wrappers
  import opened SourceInterface

  /** `a` can be obtained from `b` by deleting elements. */
  predicate IsSubsequence<T(==)>(a: seq<T>, b: seq<T>) {
    a == [] || (b != [] && ((a[0] == b[0] && IsSubsequence(a[1..], b[1..])) || IsSubsequence(a, b[1..])))
  }

  lemma {:induction false} SubsequenceNoLonger<T>(a: seq<T>, b: seq<T>)
    requires IsSubsequence(a, b)
    ensures |a| <= |b|
  {
    if a != [] {
      if a[0] == b[0] && IsSubsequence(a[1..], b[1..]) {
        SubsequenceNoLonger(a[1..], b[1..]);
      } else {
        SubsequenceNoLonger(a, b[1..]);
      }
    }
  }

  /** The adapters stored under `keys`, in key order. */
  function Values(keys: seq<string>, sources: map<string, Adapter>): (r: seq<Adapter>)
    requires forall k :: k in keys ==> k in sources
    ensures |r| == |keys|
    ensures forall i :: 0 <= i < |keys| ==> r[i] == sources[keys[i]]
  {
    if keys == [] then [] else [sources[keys[0]]] + Values(keys[1..], sources)
  }

  /** The keys whose adapter reports itself available, in key order. */
  function AvailableNames(keys: seq<string>, sources: map<string, Adapter>): (r: seq<string>)
    requires forall k :: k in keys ==> k in sources
    ensures IsSubsequence(r, keys)
    ensures forall n :: n in r <==> n in keys && sources[n].available
  {
    if keys == [] then []
    else
      var rest := AvailableNames(keys[1..], sources);
      if sources[keys[0]].available then [keys[0]] + rest else rest
  }

  class SourceManager {
    /** The keys of the `Map`, in iteration order. */
    var keys: seq<string>
    /** The entries of the `Map`. */
    var sources: map<string, Adapter>

    /** Keys are distinct, are exactly the map's keys, and name their adapter. */
    ghost predicate Valid()
      reads this
    {
      && (forall i, j :: 0 <= i < j < |keys| ==> keys[i] != keys[j])
      && (forall n :: n in sources <==> n in keys)
      && (forall n :: n in sources ==> sources[n].name == n)
    }

    constructor ()
      ensures Valid() && keys == [] && sources == map[]
    {
      keys := [];
      sources := map[];
    }

    /**
     * Stores the adapter under its own name: a new name is appended to the
     * key order; an existing one keeps its place and gets the new adapter.
     */
    method RegisterSource(source: Adapter)
      requires Valid()
      modifies this
      ensures Valid()
      ensures sources == old(sources)[source.name := source]
      ensures keys == if source.name in old(keys) then old(keys) else old(keys) + [source.name]
      ensures GetSource(source.name) == Some(source)
      ensures forall n :: n != source.name ==> GetSource(n) == old(GetSource(n))
      ensures source.name in GetAvailableSources() <==> source.available
    {
      if source.name !in sources {
        keys := keys + [source.name];
      }
      sources := sources[source.name := source];
    }

    /** The adapter stored under `name`, or `None` for a name never registered. */
    function GetSource(name: string): (r: Option<Adapter>)
      reads this
      requires Valid()
      ensures r.None? <==> name !in keys
      ensures r.Some? ==> r.value.name == name && r.value == sources[name]
    {
      if name in sources then Some(sources[name]) else None
    }

    /** Every stored adapter, one per key, in key order. */
    function GetAllSources(): (r: seq<Adapter>)
      reads this
      requires Valid()
      ensures |r| == |keys|
      ensures forall i :: 0 <= i < |r| ==> r[i].name == keys[i] && r[i] == sources[keys[i]]
      ensures forall i, j :: 0 <= i < j < |r| ==> r[i].name != r[j].name
    {
      Values(keys, sources)
    }

    /** Names whose adapter's `isAvailable()` is not `false`, in key order. */
    function GetAvailableSources(): (r: seq<string>)
      reads this
      requires Valid()
      ensures IsSubsequence(r, keys)
      ensures |r| <= |GetAllSources()|
      ensures forall n :: n in r <==> n in sources && sources[n].available
    {
      var r := AvailableNames(keys, sources);
      SubsequenceNoLonger(r, keys);
      r
    }
  }
}
