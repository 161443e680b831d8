/** One request of the `/arbitrage` route: the three stages chained, and what the chain
    promises about the venues' answers as a whole. */
module Orchestrator {
  import opened Wrappers
  import opened JsObject
  import opened Registry
  import opened SymbolCatalog
  import opened PriceCollector
  import opened PairEnumeration
  import opened OpportunityScanner

  /** The listings, then the common symbols, then their prices, then the scan; with no
      venue configured there is nothing to report. */
  function Arbitrage(vs: seq<Venue>): (r: seq<Opportunity>)
    ensures |vs| == 0 ==> r == []
  {
    Scan(FetchPrices(vs, CommonSymbols(FetchSymbols(vs))))
  }

  /** Every report comes from the row of one common symbol. */
  lemma ReportedRow(vs: seq<Venue>, o: Opportunity) returns (sym: Symbol)
    requires o in Arbitrage(vs)
    ensures sym in CommonSymbols(FetchSymbols(vs))
    ensures o in ScanSymbol(sym, Present(FetchRow(vs, sym)))
  {
    var common := CommonSymbols(FetchSymbols(vs));
    var table := FetchPrices(vs, common);
    ScanMember(table, o);
    var t :| 0 <= t < |table| && o in ScanSymbol(table[t].key, Present(table[t].value));
    sym := common[t];
    assert table[t].key == sym && table[t].value == FetchRow(vs, sym);
  }

  /** The row of every common symbol is scanned. */
  lemma CommonRowScanned(vs: seq<Venue>, sym: Symbol, o: Opportunity)
    requires sym in CommonSymbols(FetchSymbols(vs))
    requires o in ScanSymbol(sym, Present(FetchRow(vs, sym)))
    ensures o in Arbitrage(vs)
  {
    var common := CommonSymbols(FetchSymbols(vs));
    var table := FetchPrices(vs, common);
    var t :| 0 <= t < |common| && common[t] == sym;
    assert table[t].key == sym && table[t].value == FetchRow(vs, sym);
    ScanMember(table, o);
  }

  /** Every report names a symbol every venue listed, two distinct venues in registry order
      whose tickers answered with exactly the reported prices, and a percentage difference
      above the threshold computed from those prices. */
  lemma ArbitrageSound(vs: seq<Venue>, o: Opportunity)
    requires UniqueIds(vs)
    requires o in Arbitrage(vs)
    ensures forall v :: 0 <= v < |vs| ==> vs[v].markets.Ok? && o.symbol in vs[v].markets.value
    ensures exists a, b ::
      && 0 <= a < b < |vs|
      && vs[a].id == o.exchange1 && vs[a].ticker(o.symbol) == Ok(Some(o.price1))
      && vs[b].id == o.exchange2 && vs[b].ticker(o.symbol) == Ok(Some(o.price2))
    ensures o.percentageDifference == PercentageDifference(o.price1, o.price2)
    ensures Exceeds(o.percentageDifference)
  {
    var sym := ReportedRow(vs, o);
    var row := FetchRow(vs, sym);
    ScanRowSound(sym, row, o);
    CommonSymbolsOfVenues(vs, sym);
    var a, b :| 0 <= a < b < |row|
      && row[a] == Entry(o.exchange1, Some(o.price1))
      && row[b] == Entry(o.exchange2, Some(o.price2));
    PresentSlot(vs, sym, a, o.exchange1, o.price1);
    PresentSlot(vs, sym, b, o.exchange2, o.price2);
  }

  /** Conversely, every such pair of venues is reported: a symbol every venue listed, two
      venues in registry order whose tickers answered with prices that differ by more than
      the threshold. */
  lemma ArbitrageComplete(vs: seq<Venue>, sym: Symbol, a: int, b: int, p1: real, p2: real)
    requires UniqueIds(vs)
    requires forall v :: 0 <= v < |vs| ==> vs[v].markets.Ok? && sym in vs[v].markets.value
    requires 0 <= a < b < |vs|
    requires vs[a].ticker(sym) == Ok(Some(p1)) && vs[b].ticker(sym) == Ok(Some(p2))
    requires Exceeds(PercentageDifference(p1, p2))
    ensures Opportunity(sym, vs[a].id, p1, vs[b].id, p2, PercentageDifference(p1, p2)) in Arbitrage(vs)
  {
    CommonSymbolsOfVenues(vs, sym);
    var row := FetchRow(vs, sym);
    assert row[a] == Entry(vs[a].id, Some(p1));
    assert row[b] == Entry(vs[b].id, Some(p2));
    ScanRowComplete(sym, row, a, b);
    CommonRowScanned(vs, sym, Opportunity(sym, vs[a].id, p1, vs[b].id, p2, PercentageDifference(p1, p2)));
  }

  /** With fewer than two venues there is never anything to compare. */
  lemma SingleVenueNeverReports(vs: seq<Venue>)
    requires |vs| <= 1
    ensures Arbitrage(vs) == []
  {
    var r := Arbitrage(vs);
    if |r| > 0 {
      var sym := ReportedRow(vs, r[0]);
      assert false;
    }
  }

  /** A venue whose listing failed, or that lists nothing, leaves no common symbol and hence
      no report at all. */
  lemma EmptyListingSilencesScan(vs: seq<Venue>, i: int)
    requires UniqueIds(vs) && 0 <= i < |vs|
    requires vs[i].markets == Failed || vs[i].markets == Ok([])
    ensures Arbitrage(vs) == []
  {
    EmptyListingEmptiesCommon(vs, i);
    assert |FetchPrices(vs, [])| == 0;
  }

  /** A venue with no price for a symbol, because its ticker failed or carried no last price,
      appears in no report for that symbol; the other venues are still compared. */
  lemma AbsentPriceNeverReported(vs: seq<Venue>, v: int, o: Opportunity)
    requires UniqueIds(vs) && 0 <= v < |vs|
    requires vs[v].ticker(o.symbol) == Failed || vs[v].ticker(o.symbol) == Ok(None)
    requires o in Arbitrage(vs)
    ensures o.exchange1 != vs[v].id && o.exchange2 != vs[v].id
  {
    ArbitrageSound(vs, o);
    var a, b :|
      && 0 <= a < b < |vs|
      && vs[a].id == o.exchange1 && vs[a].ticker(o.symbol) == Ok(Some(o.price1))
      && vs[b].id == o.exchange2 && vs[b].ticker(o.symbol) == Ok(Some(o.price2));
    assert a != v && b != v;
  }

  /** Three venues: A lists X and Y, B lists X, Y and Z, C lists only X; X is quoted at 100,
      102 and 110 and nothing else has a price. */
  function ThreeVenues(): seq<Venue> {
    [ Venue("A", Ok(["X", "Y"]), (s: Symbol) => if s == "X" then Ok(Some(100.0)) else Failed),
      Venue("B", Ok(["X", "Y", "Z"]), (s: Symbol) => if s == "X" then Ok(Some(102.0)) else Failed),
      Venue("C", Ok(["X"]), (s: Symbol) => if s == "X" then Ok(Some(110.0)) else Failed) ]
  }

  /** X is the only symbol all three venues list. */
  lemma ThreeVenueCommon(x: Symbol)
    ensures x in CommonSymbols(FetchSymbols(ThreeVenues())) <==> x == "X"
  {
    var vs := ThreeVenues();
    assert UniqueIds(vs);
    CommonSymbolsOfVenues(vs, x);
    if x in CommonSymbols(FetchSymbols(vs)) {
      assert x in vs[2].markets.value;
    }
  }

  /** All three pairs of X are reported, each in registry order. */
  lemma ThreeVenueReports()
    ensures Opportunity("X", "A", 100.0, "B", 102.0, PercentageDifference(100.0, 102.0)) in Arbitrage(ThreeVenues())
    ensures Opportunity("X", "A", 100.0, "C", 110.0, PercentageDifference(100.0, 110.0)) in Arbitrage(ThreeVenues())
    ensures Opportunity("X", "B", 102.0, "C", 110.0, PercentageDifference(102.0, 110.0)) in Arbitrage(ThreeVenues())
  {
    var vs := ThreeVenues();
    assert UniqueIds(vs);
    assert Reported(100.0, 102.0) && Reported(100.0, 110.0) && Reported(102.0, 110.0);
    ArbitrageComplete(vs, "X", 0, 1, 100.0, 102.0);
    ArbitrageComplete(vs, "X", 0, 2, 100.0, 110.0);
    ArbitrageComplete(vs, "X", 1, 2, 102.0, 110.0);
  }

  /** What the scenario's venues look like from the scan's side: ids A, B and C, C
      listing only X, and X quoted at 100, 102 and 110. */
  predicate ScenarioShape(vs: seq<Venue>) {
    && |vs| == 3
    && UniqueIds(vs)
    && vs[0].id == "A" && vs[1].id == "B" && vs[2].id == "C"
    && vs[2].markets == Ok(["X"])
    && vs[0].ticker("X") == Ok(Some(100.0))
    && vs[1].ticker("X") == Ok(Some(102.0))
    && vs[2].ticker("X") == Ok(Some(110.0))
  }

  /** Nothing else is reported. */
  lemma ThreeVenueOnly(o: Opportunity)
    requires o in Arbitrage(ThreeVenues())
    ensures || o == Opportunity("X", "A", 100.0, "B", 102.0, PercentageDifference(100.0, 102.0))
            || o == Opportunity("X", "A", 100.0, "C", 110.0, PercentageDifference(100.0, 110.0))
            || o == Opportunity("X", "B", 102.0, "C", 110.0, PercentageDifference(102.0, 110.0))
  {
    ThreeVenuesHaveShape();
    ArbitrageSound(ThreeVenues(), o);
    ShapeOnly(ThreeVenues(), o);
  }

  lemma ThreeVenuesHaveShape()
    ensures ScenarioShape(ThreeVenues())
  {
    var vs := ThreeVenues();
    assert vs[0].id != vs[1].id && vs[0].id != vs[2].id && vs[1].id != vs[2].id;
  }

  /** A record backed, as every report is, by a symbol that C lists and two quotes in
      registry order is one of the three pairs of X. */
  lemma ShapeOnly(vs: seq<Venue>, o: Opportunity)
    requires ScenarioShape(vs)
    requires o.symbol in vs[2].markets.value
    requires exists a, b ::
      && 0 <= a < b < |vs|
      && vs[a].id == o.exchange1 && vs[a].ticker(o.symbol) == Ok(Some(o.price1))
      && vs[b].id == o.exchange2 && vs[b].ticker(o.symbol) == Ok(Some(o.price2))
    requires o.percentageDifference == PercentageDifference(o.price1, o.price2)
    ensures || o == Opportunity("X", "A", 100.0, "B", 102.0, PercentageDifference(100.0, 102.0))
            || o == Opportunity("X", "A", 100.0, "C", 110.0, PercentageDifference(100.0, 110.0))
            || o == Opportunity("X", "B", 102.0, "C", 110.0, PercentageDifference(102.0, 110.0))
  {
    var a, b :|
      && 0 <= a < b < |vs|
      && vs[a].id == o.exchange1 && vs[a].ticker(o.symbol) == Ok(Some(o.price1))
      && vs[b].id == o.exchange2 && vs[b].ticker(o.symbol) == Ok(Some(o.price2));
    assert o.symbol == "X";
    if a == 0 {
      assert o.exchange1 == "A" && o.price1 == 100.0;
    } else {
      assert o.exchange1 == "B" && o.price1 == 102.0;
    }
    if b == 1 {
      assert o.exchange2 == "B" && o.price2 == 102.0;
    } else {
      assert o.exchange2 == "C" && o.price2 == 110.0;
    }
  }
}
