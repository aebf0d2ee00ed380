/**
 The page controller: the local store, the two currency selects (their option
 lists and selected values), and the error and result regions. Replies from
 the network and the clock come in as parameters.
 */
module App {
  import opened Wrappers
  import opened Numbers
  import opened Ordering
  import opened Storage
  import opened Symbols
  import opened Conversion

  class Converter {
    var store: Store
    var fromOptions: seq<string>
    var toOptions: seq<string>
    var from: string
    var to: string
    /** The text of the error region, None while it is hidden. */
    var error: Option<string>
    /** The conversion the result region shows, None while it is hidden. */
    var result: Option<Record>

    /** Both selects list the same codes, and each selected value is one of them
        or empty (nothing selected). */
    ghost predicate Valid()
      reads this
    {
      && fromOptions == toOptions
      && (from == "" || from in fromOptions)
      && (to == "" || to in toOptions)
    }

    /** The page before `loadSymbols` has run: empty selects over an existing store. */
    constructor (initial: Store)
      ensures Valid()
      ensures store == initial && fromOptions == [] && toOptions == []
      ensures from == "" && to == "" && error == None && result == None
    {
      store := initial;
      fromOptions, toOptions := [], [];
      from, to := "", "";
      error, result := None, None;
    }

    /** `setHistory`: writes the log under the history key. */
    method SetHistory(log: seq<Record>)
      modifies this`store
      ensures store == WriteHistory(old(store), log)
    {
      store := store[HistoryKey := Records(log)];
    }

    /** `renderHistory`, as far as it can fail: it walks the stored log and stops
        at the first record whose rate was stored as `null` (a NaN or infinite
        rate), where `it.rate.toFixed(6)` throws. The text it builds is not modelled. */
    method RenderHistory() returns (completed: bool)
      ensures completed == Renderable(ReadHistory(store))
    {
      var list := ReadHistory(store);
      var i := 0;
      while i < |list|
        invariant 0 <= i <= |list|
        invariant forall j :: 0 <= j < i ==> list[j].rate.Finite?
      {
        if !list[i].rate.Finite? {
          return false;
        }
        i := i + 1;
      }
      return true;
    }

    /** `addHistory`: prepends the record to the stored log, keeps the first ten
        and renders the log; `rendered` is false when rendering throws. */
    method AddHistory(item: Record) returns (rendered: bool)
      modifies this`store
      ensures store == WriteHistory(old(store), Pushed(ReadHistory(old(store)), item))
      ensures rendered == Renderable(ReadHistory(store))
      ensures |ReadHistory(store)| <= HistoryLimit
      ensures ReadHistory(store)[0] == item
      ensures ReadHistory(store)[1..] == ReadHistory(old(store))[..Min(|ReadHistory(old(store))|, HistoryLimit - 1)]
      ensures forall k :: k != HistoryKey && k in old(store) ==> k in store && store[k] == old(store)[k]
    {
      var list := ReadHistory(store);
      list := [item] + list;
      SetHistory(list[..Min(|list|, HistoryLimit)]);
      ReadAfterWrite(old(store), Pushed(ReadHistory(old(store)), item));
      rendered := RenderHistory();
    }

    /** `clearHistory`: removes the history key and nothing else; rendering the
        empty log that follows cannot fail. */
    method ClearHistory() returns (rendered: bool)
      modifies this`store
      ensures store == old(store) - {HistoryKey}
      ensures ReadHistory(store) == []
      ensures rendered
    {
      store := store - {HistoryKey};
      rendered := RenderHistory();
    }

    /** `populateSymbols`: fills both selects with `codes`, in order, then selects
        USD and BRL (each reads back empty when the list lacks it). */
    method PopulateSymbols(codes: seq<string>)
      modifies this`fromOptions, this`toOptions, this`from, this`to
      ensures fromOptions == codes && toOptions == codes
      ensures from == Select(codes, DefaultFrom) && to == Select(codes, DefaultTo)
      ensures Valid()
    {
      fromOptions, toOptions := [], [];
      for i := 0 to |codes|
        invariant fromOptions == codes[..i]
        invariant toOptions == codes[..i]
      {
        fromOptions := fromOptions + [codes[i]];
        toOptions := toOptions + [codes[i]];
      }
      from := Select(fromOptions, DefaultFrom);
      to := Select(toOptions, DefaultTo);
    }

    /** `loadSymbols`: the cached list if there is one, otherwise the fetched codes
        (sorted and cached), otherwise on a failed fetch the fallback list. */
    method LoadSymbols(reply: SymbolsReply) returns (fetched: bool)
      modifies this`store, this`fromOptions, this`toOptions, this`from, this`to
      ensures var r := SymbolLoad(old(store), reply);
        && store == r.store
        && fetched == r.fetched
        && (r.shown.Some? ==>
              fromOptions == r.shown.value && toOptions == r.shown.value &&
              from == Select(r.shown.value, DefaultFrom) && to == Select(r.shown.value, DefaultTo))
        && (r.shown.None? ==>
              fromOptions == old(fromOptions) && toOptions == old(toOptions) &&
              from == old(from) && to == old(to))
      ensures old(Valid()) ==> Valid()
    {
      var cached := CachedSymbols(store);
      if cached.Some? {
        PopulateSymbols(cached.value);
        return false;
      }
      fetched := true;
      match reply {
        case Unreachable =>
          PopulateSymbols(Fallback);
        case WithoutSymbols =>
        case WithSymbols(keys) =>
          var symbols := Sort(keys);
          store := store[SymbolsKey := Codes(symbols)];
          PopulateSymbols(symbols);
      }
    }

    /** `convert`, given the parsed amount, the reply the endpoint would give and
        the clock reading. Returns the request it sends, None when validation
        stops it before any request. */
    method Convert(amount: Num, reply: ConvertReply, now: int) returns (query: Option<Query>)
      modifies this`store, this`error, this`result
      ensures var o := Attempt(amount, from, to, reply, now);
        && query == (if o.Rejected? then None else Some(Query(from, to, amount)))
        && store == (if o.Converted? then WriteHistory(old(store), Pushed(ReadHistory(old(store)), o.entry))
                     else old(store))
        && error == ErrorShown(o, old(store))
        && result == (if o.Rejected? then old(result) else if o.Converted? then Some(o.entry) else None)
    {
      error := None;
      if IsNaN(amount) || IsNegative(amount) {
        error := Some(InvalidAmount);
        return None;
      }
      if from == "" || to == "" {
        error := Some(InvalidCurrencies);
        return None;
      }
      result := None;
      query := Some(Query(from, to, amount));
      if reply.FetchFailed? || reply.NoData? || reply.success == Some(false) {
        error := Some(ConversionFailed);
        return;
      }
      var converted := reply.result;
      var rate := RateOf(amount, converted, reply.info);
      var item := Record(now, from, to, amount, converted, rate);
      result := Some(item);
      var rendered := AddHistory(item);
      if !rendered {
        error := Some(ConversionFailed);
      }
    }

    /** `swap`: each select is set to the other's value. */
    method Swap()
      modifies this`from, this`to
      ensures from == Select(fromOptions, old(to)) && to == Select(toOptions, old(from))
      ensures old(Valid()) ==> Valid() && from == old(to) && to == old(from)
    {
      var a := from;
      from := Select(fromOptions, to);
      to := Select(toOptions, a);
      if old(Valid()) {
        SelectKeepsOption(fromOptions, old(to));
        SelectKeepsOption(toOptions, a);
      }
    }
  }

  /** A list without USD leaves the source select empty after populating, so
      the next conversion is refused before any request, whatever the amount. */
  lemma MissingDefaultBlocksConversion(codes: seq<string>, amount: Num, reply: ConvertReply, now: int)
    requires DefaultFrom !in codes
    ensures var o := Attempt(amount, Select(codes, DefaultFrom), Select(codes, DefaultTo), reply, now);
      o == Rejected(InvalidAmount) || o == Rejected(InvalidCurrencies)
  {
  }

  /** Swapping twice restores the original pair. */
  method SwapTwice(c: Converter)
    requires c.Valid()
    modifies c
    ensures c.Valid() && c.from == old(c.from) && c.to == old(c.to)
    ensures c.store == old(c.store) && c.fromOptions == old(c.fromOptions)
  {
    c.Swap();
    c.Swap();
  }

  /** A second `loadSymbols` after a fetched or cached list asks nothing, writes
      nothing and shows the same list as the first. */
  method LoadTwice(c: Converter, first: SymbolsReply, second: SymbolsReply) returns (fetchedAgain: bool)
    requires CachedSymbols(c.store).Some? || first.WithSymbols?
    modifies c
    ensures !fetchedAgain
    ensures var r := SymbolLoad(old(c.store), first);
      r.shown.Some? && c.store == r.store && c.fromOptions == r.shown.value && c.toOptions == r.shown.value
  {
    var _ := c.LoadSymbols(first);
    SecondLoadHitsCache(old(c.store), first, second);
    fetchedAgain := c.LoadSymbols(second);
  }
}
