/** The price stage: the last price of every common symbol on every venue
    (`fetchPricesForCommonSymbols` in index.js). */
module PriceCollector {
  import opened Wrappers
  import opened JsObject
  import opened Registry

  /** Venue id to last price; `None` where the price is absent. */
  type PriceRow = Obj<Option<real>>

  /** Symbol to the row of that symbol's prices. */
  type PriceTable = Obj<PriceRow>

  /** The value stored for one (symbol, venue) fetch: the ticker's `last` field, or absent
      when the fetch failed. */
  function Slot(o: Outcome<Option<real>>): (r: Option<real>)
    ensures r.Some? <==> o.Ok? && o.value.Some?
    ensures r.Some? ==> o == Ok(r)
  {
    match o
    case Ok(last) => last
    case Failed => None
  }

  /** The merged per-venue prices of one symbol: one key per configured venue id, each
      holding that venue's price or absent. */
  function FetchRow(vs: seq<Venue>, s: Symbol): (r: PriceRow)
    ensures DistinctKeys(r)
    ensures forall k :: k in Keys(r) <==> k in Ids(vs)
    ensures UniqueIds(vs) ==> |r| == |vs| && forall i :: 0 <= i < |vs| ==>
      && r[i].key == vs[i].id
      && (vs[i].ticker(s).Ok? ==> r[i].value == vs[i].ticker(s).value)
      && (vs[i].ticker(s).Failed? ==> r[i].value == None)
  {
    ByVenue(vs, (v: Venue) => Slot(v.ticker(s)))
  }

  /** A present slot of a row comes from a ticker that answered with that price. */
  lemma PresentSlot(vs: seq<Venue>, s: Symbol, a: int, venue: VenueId, p: real)
    requires UniqueIds(vs) && 0 <= a < |FetchRow(vs, s)|
    requires FetchRow(vs, s)[a] == Entry(venue, Some(p))
    ensures a < |vs| && vs[a].id == venue && vs[a].ticker(s) == Ok(Some(p))
  {
  }

  /** `fetchPricesForCommonSymbols(common)`: one row per common symbol, in the order of the
      common set. */
  function FetchPrices(vs: seq<Venue>, common: seq<Symbol>): (t: PriceTable)
    ensures DistinctKeys(t)
    ensures forall s :: s in Keys(t) <==> s in common
    ensures Distinct(common) ==> |t| == |common| && forall k :: 0 <= k < |t| ==>
      t[k].key == common[k] && t[k].value == FetchRow(vs, common[k])
  {
    var es := seq(|common|, k requires 0 <= k < |common| => Entry(common[k], FetchRow(vs, common[k])));
    assert Keys(es) == common;
    Assign(es)
  }

  /** Every slot of the table holds exactly what its own fetch returned. */
  lemma PriceSlot(vs: seq<Venue>, common: seq<Symbol>, k: int, i: int)
    requires UniqueIds(vs) && Distinct(common)
    requires 0 <= k < |common| && 0 <= i < |vs|
    ensures var t := FetchPrices(vs, common);
      && |t[k].value| == |vs|
      && t[k].value[i].key == vs[i].id
      && t[k].value[i].value == Slot(vs[i].ticker(common[k]))
  {
    var row := FetchPrices(vs, common)[k].value;
    assert row == FetchRow(vs, common[k]);
  }

  /** A failed price fetch leaves its own (symbol, venue) slot absent and every other slot
      as it was. */
  lemma FailedQuoteIsIsolated(vs: seq<Venue>, vs': seq<Venue>, common: seq<Symbol>, i: int, s: Symbol)
    requires UniqueIds(vs) && Distinct(common)
    requires |vs'| == |vs| && 0 <= i < |vs|
    requires forall a :: 0 <= a < |vs| ==> vs'[a].id == vs[a].id
    requires forall a, x :: 0 <= a < |vs| && (a != i || x != s) ==> vs'[a].ticker(x) == vs[a].ticker(x)
    requires vs'[i].ticker(s) == Failed
    ensures var t, t' := FetchPrices(vs, common), FetchPrices(vs', common);
      && |t'| == |t|
      && forall k, a :: 0 <= k < |t| && 0 <= a < |vs| ==>
        && |t'[k].value| == |t[k].value| == |vs|
        && t'[k].key == t[k].key
        && t'[k].value[a].key == t[k].value[a].key
        && t'[k].value[a].value == (if t[k].key == s && a == i then None else t[k].value[a].value)
  {
    assert UniqueIds(vs');
    var t, t' := FetchPrices(vs, common), FetchPrices(vs', common);
    forall k, a | 0 <= k < |t| && 0 <= a < |vs|
      ensures && |t'[k].value| == |t[k].value| == |vs|
              && t'[k].key == t[k].key
              && t'[k].value[a].key == t[k].value[a].key
              && t'[k].value[a].value == (if t[k].key == s && a == i then None else t[k].value[a].value)
    {
      PriceSlot(vs, common, k, a);
      PriceSlot(vs', common, k, a);
    }
  }
}
