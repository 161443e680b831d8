/** The configured venues, each with what its market-data client answers during one scan. */
module Registry {
  import opened Wrappers
  import opened JsObject

  type Symbol = string
  type VenueId = string

  /** A venue of the registry. `markets` is the symbol list `loadMarkets` yields (its keys) or
      a failure; `ticker(s)` is what `fetchTicker(s)` yields: the ticker's `last` field, which
      may itself be absent, or a failure. */
  datatype Venue = Venue(id: VenueId, markets: Outcome<seq<Symbol>>, ticker: Symbol -> Outcome<Option<real>>)

  /** Venue identifiers are unique across the registry: `Distinct(Ids(vs))`, stated on the
      venues themselves for the same matching reason as `DistinctKeys`. */
  predicate UniqueIds(vs: seq<Venue>) {
    forall a, b :: 0 <= a < b < |vs| ==> vs[a].id != vs[b].id
  }

  function Ids(vs: seq<Venue>): seq<VenueId> {
    seq(|vs|, i requires 0 <= i < |vs| => vs[i].id)
  }

  lemma UniqueIdsMeansDistinct(vs: seq<Venue>)
    ensures UniqueIds(vs) <==> Distinct(Ids(vs))
  {
    if Distinct(Ids(vs)) {
      forall a, b | 0 <= a < b < |vs| ensures vs[a].id != vs[b].id {
        assert Ids(vs)[a] == vs[a].id && Ids(vs)[b] == vs[b].id;
      }
    }
  }

  /** The object keyed by venue id that the fan-out over all venues merges into: one
      single-property object per venue, keyed by its id, in registry order, spread one after
      the other. */
  function ByVenue<V(==)>(vs: seq<Venue>, f: Venue -> V): (r: Obj<V>)
    ensures DistinctKeys(r)
    ensures forall k :: k in Keys(r) <==> k in Ids(vs)
    ensures forall i :: 0 <= i < |vs| && (forall j :: i < j < |vs| ==> vs[j].id != vs[i].id) ==>
      Get(r, vs[i].id) == Some(f(vs[i]))
    ensures UniqueIds(vs) ==> |r| == |vs| && forall i :: 0 <= i < |vs| ==> r[i] == Entry(vs[i].id, f(vs[i]))
  {
    var es := Spread(vs, f);
    SpreadFacts(vs, f);
    Assign(es)
  }

  /** The single-key objects of the fan-out, in registry order. */
  function Spread<V>(vs: seq<Venue>, f: Venue -> V): (es: seq<Entry<V>>)
    ensures |es| == |vs| && forall i :: 0 <= i < |vs| ==> es[i] == Entry(vs[i].id, f(vs[i]))
  {
    seq(|vs|, i requires 0 <= i < |vs| => Entry(vs[i].id, f(vs[i])))
  }

  lemma SpreadFacts<V>(vs: seq<Venue>, f: Venue -> V)
    ensures Keys(Spread(vs, f)) == Ids(vs)
    ensures forall i :: 0 <= i < |vs| && (forall j :: i < j < |vs| ==> vs[j].id != vs[i].id) ==> LastWithKey(Spread(vs, f), i)
    ensures UniqueIds(vs) ==> DistinctKeys(Spread(vs, f))
  {
  }

  /** With unique ids nothing is overwritten: the merged object is the fan-out itself. */
  lemma ByVenueUnique<V>(vs: seq<Venue>, f: Venue -> V)
    requires UniqueIds(vs)
    ensures ByVenue(vs, f) == Spread(vs, f)
  {
  }
}
