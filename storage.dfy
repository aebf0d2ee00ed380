/**
 The browser's local key-value store as the converter uses it, and the
 history log kept under one of its keys. A stored value is what reading the
 key back would parse to: a list of conversion records, a list of currency
 codes, or text that does not parse as either.
 */
module Storage {
  import opened Wrappers
  import opened Numbers

  const HistoryKey: string := "currency_converter_history_v1"
  const SymbolsKey: string := "currency_symbols_cache_v1"

  /** The number of conversions the history keeps. */
  const HistoryLimit: nat := 10

  /** One successful conversion; `ts` is the millisecond clock reading. */
  datatype Record = Record(ts: int, from: string, to: string, amount: Num, converted: Num, rate: Num)

  datatype Stored = Records(entries: seq<Record>) | Codes(codes: seq<string>) | Corrupt

  type Store = map<string, Stored>

  lemma KeysDiffer()
    ensures HistoryKey != SymbolsKey
  {
    assert HistoryKey[9] != SymbolsKey[9];
  }

  function Min(a: int, b: int): (m: int)
    ensures m <= a && m <= b && (m == a || m == b)
  {
    if a <= b then a else b
  }

  /** `getHistory`: the stored log, or the empty log when the key is missing or
      its value is not a list of records. Reading never fails, and a non-empty
      log only ever comes from a stored list of records. */
  function ReadHistory(store: Store): (log: seq<Record>)
    ensures log != [] ==> HistoryKey in store && store[HistoryKey] == Records(log)
    ensures HistoryKey !in store ==> log == []
  {
    if HistoryKey in store && store[HistoryKey].Records? then store[HistoryKey].entries else []
  }

  /** `setHistory`: the store after writing `log` under the history key; the
      other keys keep their values. */
  function WriteHistory(store: Store, log: seq<Record>): (after: Store)
    ensures HistoryKey in after && after[HistoryKey] == Records(log)
    ensures after.Keys == store.Keys + {HistoryKey}
  {
    store[HistoryKey := Records(log)]
  }

  /** `renderHistory` gets through the log: `JSON.stringify` writes a NaN or
      infinite rate as `null`, and `it.rate.toFixed(6)` throws on `null`. */
  ghost predicate Renderable(log: seq<Record>) {
    forall i :: 0 <= i < |log| ==> log[i].rate.Finite?
  }

  lemma MissingOrCorruptHistoryReadsEmpty(store: Store)
    requires HistoryKey !in store || !store[HistoryKey].Records?
    ensures ReadHistory(store) == []
  {
  }

  /** Reading back what `setHistory` wrote gives the same log, and every other key keeps its value. */
  lemma ReadAfterWrite(store: Store, log: seq<Record>)
    ensures ReadHistory(WriteHistory(store, log)) == log
    ensures forall k :: k != HistoryKey ==>
      (k in WriteHistory(store, log) <==> k in store) &&
      (k in store ==> WriteHistory(store, log)[k] == store[k])
  {
  }

  /** After `clearHistory` the log reads back empty, and only the history key is gone. */
  lemma ReadAfterClear(store: Store)
    ensures ReadHistory(store - {HistoryKey}) == []
    ensures (store - {HistoryKey}).Keys == store.Keys - {HistoryKey}
    ensures forall k :: k in store && k != HistoryKey ==> (store - {HistoryKey})[k] == store[k]
  {
  }

  /** `list.unshift(item)` followed by `list.slice(0, 10)`: the new entry goes
      first, and the oldest entries beyond the limit are dropped. */
  function Pushed(log: seq<Record>, item: Record): (r: seq<Record>)
    ensures |r| == Min(|log| + 1, HistoryLimit)
    ensures r[0] == item
    ensures r[1..] == log[..Min(|log|, HistoryLimit - 1)]
  {
    ([item] + log)[..Min(|log| + 1, HistoryLimit)]
  }

  /** The log after pushing `items` one after the other, first item first: the
      last item pushed heads it and the limit holds. */
  function PushAll(log: seq<Record>, items: seq<Record>): (r: seq<Record>)
    ensures items != [] ==> 1 <= |r| <= HistoryLimit && r[0] == items[|items| - 1]
    decreases |items|
  {
    if items == [] then log else PushAll(Pushed(log, items[0]), items[1..])
  }

  function Reverse<T>(s: seq<T>): (r: seq<T>)
    ensures |r| == |s|
    ensures forall i :: 0 <= i < |s| ==> r[i] == s[|s| - 1 - i]
  {
    if s == [] then [] else Reverse(s[1..]) + [s[0]]
  }

  /** However many conversions are recorded, the log holds the ten most recent
      ones, newest first, followed by what is left of the earlier log. */
  lemma {:induction false} PushAllKeepsNewest(log: seq<Record>, items: seq<Record>)
    requires |log| <= HistoryLimit || items != []
    ensures PushAll(log, items) == (Reverse(items) + log)[..Min(|items| + |log|, HistoryLimit)]
    decreases |items|
  {
    if items != [] {
      var next := Pushed(log, items[0]);
      PushAllKeepsNewest(next, items[1..]);
      var n := Min(|items| + |log|, HistoryLimit);
      var lhs := (Reverse(items[1..]) + next)[..Min(|items| - 1 + |next|, HistoryLimit)];
      var rhs := (Reverse(items) + log)[..n];
      assert |lhs| == n;
      forall i | 0 <= i < n ensures lhs[i] == rhs[i] {
        var m := |items| - 1;
        if i < m {
          assert lhs[i] == Reverse(items[1..])[i] == items[1..][m - 1 - i];
          assert rhs[i] == Reverse(items)[i] == items[|items| - 1 - i];
        } else if i == m {
          assert lhs[i] == next[0] == items[0];
          assert rhs[i] == Reverse(items)[i] == items[0];
        } else {
          assert lhs[i] == next[i - m] == log[i - m - 1];
          assert rhs[i] == log[i - |items|];
        }
      }
    }
  }

  /** The history log never exceeds the limit once it has been written, even
      when the stored log it started from was longer. */
  lemma PushAllIsBounded(log: seq<Record>, items: seq<Record>)
    requires |log| <= HistoryLimit || items != []
    ensures |PushAll(log, items)| <= HistoryLimit
    ensures |items| >= HistoryLimit ==> PushAll(log, items) == Reverse(items)[..HistoryLimit]
  {
    PushAllKeepsNewest(log, items);
    if |items| >= HistoryLimit {
      assert (Reverse(items) + log)[..HistoryLimit] == Reverse(items)[..HistoryLimit];
    }
  }

  /** The cached symbol list, if the cache key holds a list of codes. The text
      `[]` is an empty list of either kind and reads as an empty list of codes. */
  function CachedSymbols(store: Store): (cached: Option<seq<string>>)
    ensures cached.Some? ==> SymbolsKey in store && !store[SymbolsKey].Corrupt?
    ensures cached.Some? && cached.value != [] ==> store[SymbolsKey] == Codes(cached.value)
  {
    if SymbolsKey in store && store[SymbolsKey].Codes? then Some(store[SymbolsKey].codes)
    else if SymbolsKey in store && store[SymbolsKey] == Records([]) then Some([])
    else None
  }

  /** The stored text `[]` is a readable, empty list for both readers. */
  lemma EmptyListReadsEmpty(store: Store, key: string)
    requires key in store && (store[key] == Records([]) || store[key] == Codes([]))
    ensures key == HistoryKey ==> ReadHistory(store) == []
    ensures key == SymbolsKey ==> CachedSymbols(store) == Some([])
  {
  }

  /** A log of finite rates stays renderable after a push with a finite rate. */
  lemma RenderableAfterPush(log: seq<Record>, item: Record)
    requires Renderable(log) && item.rate.Finite?
    ensures Renderable(Pushed(log, item))
  {
    var r := Pushed(log, item);
    forall i | 0 <= i < |r| ensures r[i].rate.Finite? {
      if i > 0 {
        assert r[i] == r[1..][i - 1] == log[i - 1];
      }
    }
  }

  /** A record with a non-finite rate among the first nine entries survives the
      next push, so the log still does not render. */
  lemma UnrenderableEntryLingers(log: seq<Record>, item: Record, k: nat)
    requires k < |log| && k < HistoryLimit - 1 && !log[k].rate.Finite?
    ensures !Renderable(Pushed(log, item))
  {
    var r := Pushed(log, item);
    assert r[k + 1] == r[1..][k] == log[k];
  }

  /** Ten pushes of finite-rate records evict every earlier entry, so the log
      renders again whatever it held before. */
  lemma UnrenderableEntryIsEvicted(log: seq<Record>, items: seq<Record>)
    requires |items| >= HistoryLimit
    requires forall i :: 0 <= i < |items| ==> items[i].rate.Finite?
    ensures Renderable(PushAll(log, items))
  {
    PushAllIsBounded(log, items);
    var r := PushAll(log, items);
    forall i | 0 <= i < |r| ensures r[i].rate.Finite? {
      assert r[i] == Reverse(items)[i] == items[|items| - 1 - i];
    }
  }
}
