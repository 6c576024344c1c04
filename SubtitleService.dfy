/**
 * The aggregation service (api/services/SubtitleService.ts): picks the
 * adapters a search should consult, collects each one's outcome (a failing
 * adapter contributes nothing), concatenates the lists in adapter order and
 * sorts the whole by source; resolves one adapter for a download.
 *
 * `Promise.all` keeps the order of its input, so the parallel fan-out is
 * modelled as a map over the adapter sequence.
 */
module Aggregation {
  import opened Wrappers
  import opened SourceInterface
  import opened SourceOrder
  import opened Registry

  const QueryRequired: string := "Query is required"
  const NoSourcesAvailable: string := "None of the requested sources are available"
  const InvalidSourcePrefix: string := "Invalid source: "

  /**
   * Looks each requested name up in the registry, in request order: known
   * names resolve to their adapter, unknown names are dropped.
   */
  function Resolve(requested: seq<string>, sources: map<string, Adapter>): (r: seq<Adapter>)
    ensures |r| <= |requested|
    ensures r == [] <==> forall i :: 0 <= i < |requested| ==> requested[i] !in sources
  {
    if requested == [] then []
    else (if requested[0] in sources then [sources[requested[0]]] else []) + Resolve(requested[1..], sources)
  }

  /** Resolving one more name in front adds that name's adapter, if registered, in front. */
  lemma ResolveCons(name: string, rest: seq<string>, sources: map<string, Adapter>)
    ensures Resolve([name] + rest, sources) == (if name in sources then [sources[name]] else []) + Resolve(rest, sources)
  {
    assert ([name] + rest)[1..] == rest;
  }

  /**
   * Resolution works name by name, in request order: resolving a
   * concatenation is the concatenation of the resolutions, so a name given
   * twice yields its adapter twice.
   */
  lemma {:induction false} ResolveAppend(a: seq<string>, b: seq<string>, sources: map<string, Adapter>)
    ensures Resolve(a + b, sources) == Resolve(a, sources) + Resolve(b, sources)
  {
    if a != [] {
      ResolveAppend(a[1..], b, sources);
      assert a + b == [a[0]] + (a[1..] + b);
      assert a == [a[0]] + a[1..];
      ResolveCons(a[0], a[1..] + b, sources);
      ResolveCons(a[0], a[1..], sources);
    } else {
      assert a + b == b;
    }
  }

  /**
   * Resolution yields only the adapters stored under requested names, and
   * every requested name that is registered contributes its own adapter.
   */
  lemma {:induction false} ResolvedAdapters(requested: seq<string>, sources: map<string, Adapter>, a: Adapter)
    ensures a in Resolve(requested, sources) <==>
            exists i :: 0 <= i < |requested| && requested[i] in sources && a == sources[requested[i]]
  {
    if requested != [] {
      var rest := requested[1..];
      ResolvedAdapters(rest, sources, a);
      if i :| 0 <= i < |rest| && rest[i] in sources && a == sources[rest[i]] {
        assert requested[i + 1] == rest[i];
      }
      if i :| 0 <= i < |requested| && requested[i] in sources && a == sources[requested[i]] {
        if i > 0 {
          assert rest[i - 1] == requested[i];
        }
      }
    }
  }

  /** The outcome of one adapter's search, as the `catch` turns it: `[]` on failure. */
  function Settle(outcome: Result<seq<Item>>): (r: seq<Item>)
    ensures outcome.Ok? ==> r == outcome.value
    ensures outcome.Err? ==> r == []
  {
    match outcome
    case Ok(items) => items
    case Err(_) => []
  }

  /** The settled outcome of every selected adapter's search, one list per adapter, in adapter order. */
  function Gather(adapters: seq<Adapter>, query: string): (r: seq<seq<Item>>)
    ensures |r| == |adapters|
    ensures forall i :: 0 <= i < |adapters| && adapters[i].search(query).Ok? ==> r[i] == adapters[i].search(query).value
    ensures forall i :: 0 <= i < |adapters| && adapters[i].search(query).Err? ==> r[i] == []
  {
    seq(|adapters|, i requires 0 <= i < |adapters| => Settle(adapters[i].search(query)))
  }

  /** The lists of `xss` joined end to end. */
  function Concat(xss: seq<seq<Item>>): seq<Item> {
    if xss == [] then [] else Concat(xss[..|xss| - 1]) + xss[|xss| - 1]
  }

  lemma {:induction false} ConcatAppend(a: seq<seq<Item>>, b: seq<seq<Item>>)
    ensures Concat(a + b) == Concat(a) + Concat(b)
  {
    if b == [] {
      assert a + b == a;
    } else {
      ConcatAppend(a, b[..|b| - 1]);
      assert (a + b)[..|a + b| - 1] == a + b[..|b| - 1];
    }
  }

  /** Sum of the lengths of the lists in `xss`. */
  function TotalLength(xss: seq<seq<Item>>): nat {
    if xss == [] then 0 else TotalLength(xss[1..]) + |xss[0]|
  }

  /** No item is lost or duplicated by the concatenation. */
  lemma {:induction false} ConcatLength(xss: seq<seq<Item>>)
    ensures |Concat(xss)| == TotalLength(xss)
  {
    if xss != [] {
      ConcatLength(xss[1..]);
      ConcatAppend([xss[0]], xss[1..]);
      assert [xss[0]] + xss[1..] == xss;
      assert Concat([xss[0]]) == Concat([]) + xss[0];
    }
  }

  /** An item is in the concatenation exactly when it is in one of the lists. */
  lemma {:induction false} ConcatMember(xss: seq<seq<Item>>, x: Item)
    ensures x in Concat(xss) <==> exists i :: 0 <= i < |xss| && x in xss[i]
  {
    if xss != [] {
      var init := xss[..|xss| - 1];
      ConcatMember(init, x);
      if x in Concat(xss) && x !in xss[|xss| - 1] {
        var i :| 0 <= i < |init| && x in init[i];
        assert x in xss[i];
      }
      if i :| 0 <= i < |xss| && x in xss[i] {
        if i < |xss| - 1 {
          assert x in init[i];
        }
      }
    }
  }

  /** Gathering works adapter by adapter: gathering a concatenation concatenates the lists. */
  lemma GatherAppend(a: seq<Adapter>, b: seq<Adapter>, query: string)
    ensures Gather(a + b, query) == Gather(a, query) + Gather(b, query)
  {
  }

  /** An empty list changes nothing in a concatenation. */
  lemma ConcatSkipsEmpty(xs: seq<seq<Item>>, ys: seq<seq<Item>>)
    ensures Concat(xs + [[]] + ys) == Concat(xs + ys)
  {
    ConcatAppend(xs + [[]], ys);
    ConcatAppend(xs, [[]]);
    ConcatAppend(xs, ys);
    assert Concat([[]]) == [];
  }

  /** The lists gathered around a failing adapter, with `[]` in its place. */
  lemma GatherAroundFailure(adapters: seq<Adapter>, i: int, query: string)
    requires 0 <= i < |adapters| && adapters[i].search(query).Err?
    ensures Gather(adapters, query) == Gather(adapters[..i], query) + [[]] + Gather(adapters[i + 1..], query)
  {
    var before, after := adapters[..i], adapters[i + 1..];
    assert adapters == before + [adapters[i]] + after;
    GatherAppend(before + [adapters[i]], after, query);
    GatherAppend(before, [adapters[i]], query);
  }

  /**
   * Failure isolation: an adapter whose search throws changes nothing in
   * the merged list; the result is what the other adapters alone give.
   */
  lemma FailingAdapterContributesNothing(adapters: seq<Adapter>, i: int, query: string)
    requires 0 <= i < |adapters| && adapters[i].search(query).Err?
    ensures Concat(Gather(adapters, query)) == Concat(Gather(adapters[..i] + adapters[i + 1..], query))
  {
    GatherAroundFailure(adapters, i, query);
    GatherAppend(adapters[..i], adapters[i + 1..], query);
    ConcatSkipsEmpty(Gather(adapters[..i], query), Gather(adapters[i + 1..], query));
  }

  /**
   * An item is in the merged list exactly when some consulted adapter's
   * search succeeded with it.
   */
  lemma GatheredItems(adapters: seq<Adapter>, query: string, x: Item)
    ensures x in Concat(Gather(adapters, query)) <==>
            exists i :: 0 <= i < |adapters| && adapters[i].search(query).Ok? && x in adapters[i].search(query).value
  {
    var all := Gather(adapters, query);
    ConcatMember(all, x);
    if i :| 0 <= i < |adapters| && adapters[i].search(query).Ok? && x in adapters[i].search(query).value {
      assert x in all[i];
    }
  }

  class SubtitleService {
    const manager: SourceManager

    constructor (manager: SourceManager)
      ensures this.manager == manager
    {
      this.manager := manager;
    }

    /**
     * `getSourcesForSearch`: no names means every registered adapter; else
     * the named adapters in request order, failing when none is known.
     */
    function SourcesForSearch(requested: seq<string>): (r: Result<seq<Adapter>>)
      reads manager
      requires manager.Valid()
      ensures requested == [] ==> r == Ok(manager.GetAllSources())
      ensures requested != [] ==> (r.Err? <==> forall i :: 0 <= i < |requested| ==> requested[i] !in manager.keys)
      ensures requested != [] && r.Ok? ==> r.value == Resolve(requested, manager.sources)
      ensures r.Err? ==> r.msg == NoSourcesAvailable
    {
      if |requested| == 0 then Ok(manager.GetAllSources())
      else
        var found := Resolve(requested, manager.sources);
        if |found| == 0 then Err(NoSourcesAvailable) else Ok(found)
    }

    /**
     * `search(query, sources)`: rejects an empty query, then merges the
     * outcomes of the selected adapters and sorts them by source.
     */
    method Search(query: string, requested: seq<string>) returns (r: Result<seq<Item>>)
      requires manager.Valid()
      ensures query == [] ==> r == Err(QueryRequired)
      ensures query != [] && SourcesForSearch(requested).Err? ==> r == Err(NoSourcesAvailable)
      ensures query != [] && requested == [] ==> r.Ok?
      ensures query != [] && requested == [] && manager.keys == [] ==> r == Ok([])
      ensures query != [] && SourcesForSearch(requested).Ok? ==>
                var merged := Concat(Gather(SourcesForSearch(requested).value, query));
                && r.Ok?
                && r.value == SortBySource(merged)
                && SortedBySource(r.value)
                && multiset(r.value) == multiset(merged)
                && (forall key :: WithSource(r.value, key) == WithSource(merged, key))
    {
      if query == [] {
        return Err(QueryRequired);
      }
      var selected := SourcesForSearch(requested);
      if selected.Err? {
        return Err(selected.msg);
      }
      var all := Gather(selected.value, query);
      var results: seq<Item> := [];
      for i := 0 to |all|
        invariant results == Concat(all[..i])
      {
        assert all[..i + 1][..i] == all[..i];
        results := results + all[i];
      }
      assert all[..|all|] == all;
      SortBySourceCorrect(results);
      results := SortBySource(results);
      return Ok(results);
    }

    /**
     * `download(url, sourceName)`: an unknown name fails before any adapter
     * is asked; otherwise the adapter's outcome is passed on, keeping only
     * the bytes of a payload.
     */
    method Download(url: string, sourceName: string) returns (r: Result<seq<byte>>)
      requires manager.Valid()
      ensures sourceName !in manager.keys ==> r == Err(InvalidSourcePrefix + sourceName)
      ensures sourceName in manager.keys ==>
                var outcome := manager.sources[sourceName].download(url);
                r == if outcome.Ok? then Ok(outcome.value.content) else Err(outcome.msg)
    {
      var source := manager.GetSource(sourceName);
      if source.None? {
        return Err(InvalidSourcePrefix + sourceName);
      }
      var outcome := source.value.download(url);
      if outcome.Err? {
        return Err(outcome.msg);
      }
      return Ok(outcome.value.content);
    }

    /** `getAvailableSources()`, passed through from the registry. */
    function GetAvailableSources(): (r: seq<string>)
      reads manager
      requires manager.Valid()
      ensures IsSubsequence(r, manager.keys)
      ensures forall n :: n in r <==> n in manager.keys && manager.sources[n].available
    {
      manager.GetAvailableSources()
    }
  }
}
