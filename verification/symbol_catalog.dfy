/** The symbol stage: every venue's tradable symbols, and the symbols traded on all of them
    (`fetchSymbols` and `findCommonSymbols` in index.js). */
module SymbolCatalog {
  import opened Wrappers
  import opened JsObject
  import opened Registry

  /** The list stored for a venue: its market symbols, or `[]` when loading them failed, so
      a symbol is listed exactly when the load succeeded and returned it. */
  function Listing(v: Venue): (r: seq<Symbol>)
    ensures forall x :: x in r <==> v.markets.Ok? && x in v.markets.value
  {
    match v.markets
    case Ok(symbols) => symbols
    case Failed => []
  }

  /** `fetchSymbols()`: one key per configured venue id, holding that venue's symbols; a
      venue whose listing failed holds the empty list and does not disturb the others. */
  function FetchSymbols(vs: seq<Venue>): (r: Obj<seq<Symbol>>)
    ensures DistinctKeys(r)
    ensures forall k :: k in Keys(r) <==> k in Ids(vs)
    ensures UniqueIds(vs) ==> |r| == |vs| && forall i :: 0 <= i < |vs| ==>
      && r[i].key == vs[i].id
      && (vs[i].markets.Ok? ==> r[i].value == vs[i].markets.value)
      && (vs[i].markets.Failed? ==> r[i].value == [])
  {
    ByVenue(vs, Listing)
  }

  /** `new Set(list)`: the symbols of `list` without repetition. */
  function Dedup(s: seq<Symbol>): (r: seq<Symbol>)
    ensures Distinct(r)
    ensures forall x :: x in r <==> x in s
  {
    if |s| == 0 then []
    else
      var init := s[..|s| - 1];
      var last := s[|s| - 1];
      assert s == init + [last];
      var d := Dedup(init);
      if last in d then d else d + [last]
  }

  /** One filtering step of `findCommonSymbols`: the symbols of `acc` that `list` contains. */
  function KeepListed(acc: seq<Symbol>, list: seq<Symbol>): (r: seq<Symbol>)
    ensures forall x :: x in r <==> x in acc && x in list
    ensures Distinct(acc) ==> Distinct(r)
    ensures |r| <= |acc|
  {
    if |acc| == 0 then []
    else
      var rest := KeepListed(acc[1..], list);
      assert acc == [acc[0]] + acc[1..];
      if acc[0] in list then [acc[0]] + rest else rest
  }

  /** The loop of `findCommonSymbols`: `acc` filtered against each list in turn. */
  function IntersectAll(acc: seq<Symbol>, lists: seq<seq<Symbol>>): (r: seq<Symbol>)
    ensures forall x :: x in r <==> x in acc && forall i :: 0 <= i < |lists| ==> x in lists[i]
    ensures Distinct(acc) ==> Distinct(r)
    decreases |lists|
  {
    if |lists| == 0 then acc
    else
      var r := IntersectAll(KeepListed(acc, lists[0]), lists[1..]);
      assert forall x :: (forall i :: 0 <= i < |lists| ==> x in lists[i]) <==>
        x in lists[0] && forall i :: 0 <= i < |lists[1..]| ==> x in lists[1..][i] by {
        forall x ensures (forall i :: 0 <= i < |lists| ==> x in lists[i]) <==>
          x in lists[0] && forall i :: 0 <= i < |lists[1..]| ==> x in lists[1..][i]
        {
          if x in lists[0] && forall i :: 0 <= i < |lists[1..]| ==> x in lists[1..][i] {
            forall i | 0 <= i < |lists| ensures x in lists[i] {
              if i > 0 { assert lists[i] == lists[1..][i - 1]; }
            }
          }
        }
      }
      r
  }

  /** The starting set of `findCommonSymbols`: the first venue's list without repetition, and
      nothing when there are no venues or the first venue lists nothing. */
  function Seed(m: Obj<seq<Symbol>>): (r: seq<Symbol>)
    ensures Distinct(r)
    ensures forall x :: x in r <==> |m| > 0 && x in m[0].value
    ensures (|m| == 0 || m[0].value == []) ==> r == []
  {
    var lists := Values(m);
    if |lists| == 0 then []
    else
      var r := Dedup(lists[0]);
      assert |r| > 0 ==> r[0] in r;
      r
  }

  /** `findCommonSymbols(symbolsPerExchange)`: seeded with the first venue's list (none when
      there are no venues), then filtered against every venue's list, the first included.
      The result holds exactly the symbols listed by every venue, each once; it is empty
      when there are no venues or when some venue's list is empty. */
  function CommonSymbols(m: Obj<seq<Symbol>>): (r: seq<Symbol>)
    ensures Distinct(r)
    ensures forall x :: x in r <==> |m| > 0 && forall i :: 0 <= i < |m| ==> x in m[i].value
    ensures (|m| == 0 || exists i :: 0 <= i < |m| && m[i].value == []) ==> r == []
  {
    var lists := Values(m);
    assert forall i :: 0 <= i < |m| ==> lists[i] == m[i].value;
    var r := IntersectAll(Seed(m), lists);
    assert |r| > 0 ==> r[0] in r;
    r
  }

  /** A venue whose listing failed, or that lists nothing, empties the common set, whatever
      its position in the registry. */
  lemma EmptyListingEmptiesCommon(vs: seq<Venue>, i: int)
    requires UniqueIds(vs) && 0 <= i < |vs|
    requires vs[i].markets == Failed || vs[i].markets == Ok([])
    ensures CommonSymbols(FetchSymbols(vs)) == []
  {
    var m := FetchSymbols(vs);
    assert m[i].value == [];
  }

  /** The common symbols of the fetched listings are those every venue listed successfully. */
  lemma CommonSymbolsOfVenues(vs: seq<Venue>, x: Symbol)
    requires UniqueIds(vs)
    ensures x in CommonSymbols(FetchSymbols(vs)) <==>
      |vs| > 0 && forall i :: 0 <= i < |vs| ==> vs[i].markets.Ok? && x in vs[i].markets.value
  {
    var m := FetchSymbols(vs);
    if x in CommonSymbols(m) {
      forall i | 0 <= i < |vs| ensures vs[i].markets.Ok? && x in vs[i].markets.value {
        assert x in m[i].value;
      }
    }
  }

  /** A failed listing changes only its own venue's entry, which becomes empty. */
  lemma FailedListingIsIsolated(vs: seq<Venue>, vs': seq<Venue>, i: int)
    requires UniqueIds(vs) && |vs'| == |vs| && 0 <= i < |vs|
    requires forall j :: 0 <= j < |vs| ==> vs'[j].id == vs[j].id
    requires forall j :: 0 <= j < |vs| && j != i ==> vs'[j].markets == vs[j].markets
    requires vs'[i].markets == Failed
    ensures FetchSymbols(vs') == FetchSymbols(vs)[i := Entry(vs[i].id, [])]
  {
    assert UniqueIds(vs');
    ByVenueUnique(vs, Listing);
    ByVenueUnique(vs', Listing);
    SpreadFailedListing(vs, vs', i);
  }

  /** The fan-out of the listings, before any merge, with one listing failed. */
  lemma SpreadFailedListing(vs: seq<Venue>, vs': seq<Venue>, i: int)
    requires |vs'| == |vs| && 0 <= i < |vs|
    requires forall j :: 0 <= j < |vs| ==> vs'[j].id == vs[j].id
    requires forall j :: 0 <= j < |vs| && j != i ==> vs'[j].markets == vs[j].markets
    requires vs'[i].markets == Failed
    ensures Spread(vs', Listing) == Spread(vs, Listing)[i := Entry(vs[i].id, [])]
  {
    var es, es' := Spread(vs, Listing), Spread(vs', Listing);
    forall j | 0 <= j < |vs| ensures es'[j] == es[i := Entry(vs[i].id, [])][j] {
      if j == i {
        assert Listing(vs'[j]) == [];
      } else {
        assert Listing(vs'[j]) == Listing(vs[j]) by { assert vs'[j].markets == vs[j].markets; }
      }
    }
  }
}
