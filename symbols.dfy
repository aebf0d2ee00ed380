/**
 The currency list: where `loadSymbols` takes it from (the cache, the
 symbols endpoint, or the built-in fallback) and the selection a
 `<select>` element ends up with when its value is set.
 */
module Symbols {
  import opened Wrappers
  import opened Ordering
  import opened Storage

  /** The codes offered when the symbols endpoint cannot be reached. */
  const Fallback: seq<string> := ["USD", "EUR", "BRL", "GBP", "JPY", "CAD", "AUD"]

  const DefaultFrom: string := "USD"
  const DefaultTo: string := "BRL"

  /** What a select element reads back after its value is set to `v`: `v` when
      one of its options has that value, otherwise nothing is selected and it
      reads back as the empty string. */
  function Select(options: seq<string>, v: string): (chosen: string)
    ensures chosen == "" || (chosen == v && v in options)
    ensures v in options ==> chosen == v
  {
    if v in options then v else ""
  }

  /** A value the select already holds survives being set again. */
  lemma SelectKeepsOption(options: seq<string>, v: string)
    requires v == "" || v in options
    ensures Select(options, v) == v
  {
  }

  /** The outcome of `fetchJson(API_BASE + '/symbols')`: a transport, status or
      parse failure; a body without a truthy `symbols` field; or the keys of
      `symbols`, in the order `Object.keys` lists them. */
  datatype SymbolsReply = Unreachable | WithoutSymbols | WithSymbols(keys: seq<string>)

  /** The effect of one `loadSymbols` call: the store afterwards, the list the
      selects were populated with (None: they were left alone), and whether the
      symbols endpoint was asked. */
  datatype Loaded = Loaded(store: Store, shown: Option<seq<string>>, fetched: bool)

  /** `loadSymbols`, with the reply the endpoint would give as a parameter. */
  function SymbolLoad(store: Store, reply: SymbolsReply): (r: Loaded)
    ensures r.fetched <==> CachedSymbols(store) == None
    ensures r.shown.None? <==> r.fetched && reply.WithoutSymbols?
    ensures r.store != store ==> r.fetched && reply.WithSymbols? && CachedSymbols(r.store) == r.shown
  {
    match CachedSymbols(store)
    case Some(codes) => Loaded(store, Some(codes), false)
    case None =>
      match reply
      case Unreachable => Loaded(store, Some(Fallback), true)
      case WithoutSymbols => Loaded(store, None, true)
      case WithSymbols(keys) =>
        var codes := Sort(keys);
        Loaded(store[SymbolsKey := Codes(codes)], Some(codes), true)
  }

  /** A readable cached list is shown as it is; the endpoint is not asked and the
      store does not change, whatever the endpoint would have answered. */
  lemma WarmCacheSkipsFetch(store: Store, reply: SymbolsReply, codes: seq<string>)
    requires CachedSymbols(store) == Some(codes)
    ensures SymbolLoad(store, reply) == Loaded(store, Some(codes), false)
  {
  }

  /** On a cache miss, fetched keys are sorted, cached and shown; the cached list
      holds exactly the fetched codes, in order, without duplicates when the keys
      have none. */
  lemma FetchedListIsSortedAndCached(store: Store, keys: seq<string>)
    requires CachedSymbols(store) == None
    ensures var r := SymbolLoad(store, WithSymbols(keys));
      && r.fetched
      && r.shown == Some(Sort(keys))
      && CachedSymbols(r.store) == r.shown
      && Sorted(r.shown.value)
      && multiset(r.shown.value) == multiset(keys)
      && ((forall i, j :: 0 <= i < j < |keys| ==> keys[i] != keys[j]) ==>
            forall i, j :: 0 <= i < j < |r.shown.value| ==> r.shown.value[i] != r.shown.value[j])
  {
    if forall i, j :: 0 <= i < j < |keys| ==> keys[i] != keys[j] {
      SortKeepsDistinct(keys);
    }
  }

  /** A failed fetch shows the fallback list and writes nothing to the cache. */
  lemma UnreachableFallsBack(store: Store)
    requires CachedSymbols(store) == None
    ensures SymbolLoad(store, Unreachable) == Loaded(store, Some(Fallback), true)
  {
  }

  /** A reply without symbols leaves both the cache and the selects alone. */
  lemma WithoutSymbolsChangesNothing(store: Store)
    requires CachedSymbols(store) == None
    ensures SymbolLoad(store, WithoutSymbols) == Loaded(store, None, true)
  {
  }

  /** Loading symbols touches no key but the cache key; in particular the history survives. */
  lemma LoadTouchesOnlyCache(store: Store, reply: SymbolsReply)
    ensures var after := SymbolLoad(store, reply).store;
      && (forall k :: k != SymbolsKey ==> (k in after <==> k in store))
      && (forall k :: k != SymbolsKey && k in store ==> after[k] == store[k])
      && ReadHistory(after) == ReadHistory(store)
  {
    KeysDiffer();
  }

  /** Idempotence: once a list has been fetched or found in the cache, a second
      load shows the same list, changes nothing and asks nothing. The fallback
      list is not cached, so after a failed fetch the next load asks again. */
  lemma SecondLoadHitsCache(store: Store, first: SymbolsReply, second: SymbolsReply)
    ensures var r1 := SymbolLoad(store, first);
      var r2 := SymbolLoad(r1.store, second);
      && ((CachedSymbols(store).Some? || first.WithSymbols?) ==> r2 == Loaded(r1.store, r1.shown, false))
      && ((CachedSymbols(store).None? && !first.WithSymbols?) ==> r2.fetched)
  {
  }

  /** The fallback list offers both default currencies, so they stay selectable. */
  lemma FallbackOffersDefaults()
    ensures Select(Fallback, DefaultFrom) == DefaultFrom
    ensures Select(Fallback, DefaultTo) == DefaultTo
  {
  }
}
