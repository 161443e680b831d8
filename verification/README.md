# Cross-venue arbitrage scan, modelled in Dafny

The modelled program is a small Node.js service, `index.js`. For one request of its
`/arbitrage` route it does four things in turn:

- It asks every configured cryptocurrency venue for its tradable symbols (`fetchSymbols`).
- It keeps the symbols that every venue lists (`findCommonSymbols`).
- It fetches each venue's last price for every common symbol (`fetchPricesForCommonSymbols`).
- It reports every pair of venues whose two prices for a symbol differ by more than 0.5 %
  of their mean (`checkArbitrageOpportunities`).

A venue whose listing fails counts as listing nothing. A price fetch that fails leaves that
one price absent.

The model follows the program's structure. Each file holds one module:

- `wrappers.dfy` (`Wrappers`): `Option` and `Outcome`. `Outcome` is an answer from a venue or
  the failure it threw.
- `js_object.dfy` (`JsObject`): plain JavaScript objects as sequences of key/value entries in
  enumeration order.
  - `Put` is the spread `{...m, [k]: v}`. A key that is already present keeps its place; a new
    key goes last.
  - `Assign` is the reduce of one-property objects, and `Object.assign`.
- `registry.dfy` (`Registry`): the venues.
  - A `Venue` is an id, the outcome of loading its markets, and a `ticker` function. The
    function says what `fetchTicker(symbol)` answers for each symbol: the ticker's `last`
    field, which may be absent, or a failure.
  - `ByVenue` is the fan-out over all venues merged into one object keyed by venue id.
- `symbol_catalog.dfy` (`SymbolCatalog`): `fetchSymbols` and `findCommonSymbols`.
- `price_collector.dfy` (`PriceCollector`): `fetchPricesForCommonSymbols`.
- `pair_enumeration.dfy` (`PairEnumeration`): the index pairs `i < j` that the scan's nested
  loops visit, in visiting order.
- `opportunity_scanner.dfy` (`OpportunityScanner`): `checkArbitrageOpportunities`.
  - The functions `ScanSymbol` and `Scan` give the reference definition.
  - The methods `CompareWithLater`, `CompareAll` and `CheckArbitrageOpportunities` are the
    source's loops. They are proved to compute exactly that definition.
- `orchestrator.dfy` (`Orchestrator`): the route's chain of the three stages, `Arbitrage`.
  - `ArbitrageSound` and `ArbitrageComplete` characterise the chain from end to end.
  - Three lemmas prove a concrete three-venue scenario.

Network answers are data. `Venue.markets` and `Venue.ticker` hold what the venue's client
would answer during this one request. `Failed` is an exception, which the source catches and
logs.

## Division by zero

The percentage difference is the distance between the two prices over their mean, times
100, computed on JavaScript numbers. A zero mean does not throw; the division gives a value. `Percent` models the three values that can come out:

- `Finite(x)`: the ordinary case.
- `Infinite`: a nonzero difference over a zero mean, which happens only when the two prices
  have opposite signs. `Infinity > 0.5` holds, so the pair **is** reported.
- `NotANumber`: two zero prices give `0 / 0`. `NaN > 0.5` is false, so the pair is not
  reported.

The program has no guard for a zero divisor, and one could expect the scan to fail on one.
The code does not fail: it reports or skips the pair as described. The model follows the
code. `Reported` states the resulting rule without any division.

## Model

| member | source | states |
|---|---|---|
| JsObject.Put | index.js:33 | After the spread, reading `k` gives the new value and every other key reads as before. An existing key keeps its place and a new key is appended. Distinct keys stay distinct. |
| JsObject.Assign | index.js:32-33 | Merging one-property objects in order gives distinct keys and exactly the keys of the inputs. Each key reads the value of the last input that carries it. Inputs with distinct keys come out unchanged. |
| Registry.ByVenue | index.js:22-33 | The merged per-venue object has one key per configured venue id, and each id reads the value computed for the last venue with that id. With unique ids it is the venues' values in registry order. |
| Registry.ByVenueUnique | index.js:22-33 | With unique ids no merge step overwrites anything: the object is the fan-out itself. |
| SymbolCatalog.Listing | index.js:24-28 | A venue lists a symbol exactly when its market load succeeded and returned that symbol; a load that threw lists nothing. |
| SymbolCatalog.FetchSymbols | index.js:21-34 | One key per venue id. With unique venue ids, the entries follow registry order, and a venue whose market load succeeded holds its symbols while a venue whose load threw holds `[]`. |
| SymbolCatalog.FailedListingIsIsolated | index.js:23-29 | A failed listing changes only that venue's entry, which becomes `[]`; every other venue's entry is identical. |
| SymbolCatalog.Dedup | index.js:37 | `new Set(list)` holds exactly the list's symbols, without repetition. |
| SymbolCatalog.KeepListed | index.js:39 | The filter keeps exactly the accumulated symbols that the venue lists. It keeps distinctness and never grows the set. |
| SymbolCatalog.Seed | index.js:37 | The starting set holds exactly the first venue's symbols, without repeats. It is empty when there are no venues or when the first venue lists nothing. |
| SymbolCatalog.IntersectAll | index.js:38-40 | After the loop, a symbol remains exactly when it was in the seed and every list contains it. |
| SymbolCatalog.CommonSymbols | index.js:36-42 | A symbol is common exactly when there is at least one venue and every venue's list contains it. The result has no repeats. It is empty with no venues or when some list is empty. |
| SymbolCatalog.EmptyListingEmptiesCommon | index.js:26-40 | A venue whose listing failed or is empty leaves no common symbol, whatever its position. |
| SymbolCatalog.CommonSymbolsOfVenues | index.js:21-42 | A symbol is common exactly when there are venues and each of them loaded its markets successfully and lists the symbol. |
| PriceCollector.Slot | index.js:48-52 | A slot holds a price exactly when the ticker answered with a `last` value, and then it holds that value. A thrown fetch or a missing `last` leaves the slot absent. |
| PriceCollector.FetchRow | index.js:46-55 | A symbol's row has one key per venue id. With unique venue ids, the entries follow registry order, and a ticker that answered gives its `last` value (maybe absent) while a ticker that threw gives an absent price. |
| PriceCollector.PresentSlot | index.js:47-53 | A present price in a row comes from a ticker that answered with exactly that price, at the same venue. |
| PriceCollector.FetchPrices | index.js:44-60 | The table has exactly the common symbols as keys, in their order. Each holds that symbol's row. |
| PriceCollector.PriceSlot | index.js:44-60 | Each (symbol, venue) slot of the table holds what that one fetch returned. |
| PriceCollector.FailedQuoteIsIsolated | index.js:47-53 | A failed price fetch leaves its own (symbol, venue) slot absent and every other slot unchanged. |
| OpportunityScanner.PercentageDifference | index.js:70-71 | The percentage is finite exactly when the prices do not sum to zero, and then it times the sum is 200 times their distance. It is NaN exactly when both prices are zero, and +Infinity for two opposite nonzero prices. |
| OpportunityScanner.Reported | index.js:70-72 | Without any division: a pair is reported exactly when `p1 + p2 > 0` and `400 * abs(p1 - p2) > p1 + p2`, or when the prices sum to zero and differ. This covers the +Infinity that JavaScript reports and the NaN that it never reports. |
| OpportunityScanner.EqualPricesNeverExceed | index.js:70-72 | Two equal prices are never reported, zero included. |
| OpportunityScanner.PercentageDifferenceSymmetric | index.js:70-71 | The percentage difference does not depend on which venue comes first. |
| OpportunityScanner.Present | index.js:65 | The filter keeps at most one quote per entry of the row. Which entries it keeps, and in what order, is stated by `PresentPositions` and `PresentMembers`. |
| OpportunityScanner.PresentPositions | index.js:65 | The filtered entries are the row's entries with a present price, in row order. |
| OpportunityScanner.PresentMembers | index.js:65 | Every filtered entry is an entry of the row with a price, and every entry with a price is kept. |
| OpportunityScanner.PresentDistinct | index.js:65 | The filtered entries name distinct venues. |
| PairEnumeration.Row | index.js:67 | The inner loop for `i` visits exactly the pairs `(i, j)` with `i < j < n`, in increasing `j`, and there are `n - i - 1` of them. |
| PairEnumeration.PairsFrom | index.js:66-67 | The nested loops visit exactly the pairs `i < j < n`, each once, in lexicographic order. There are `n (n - 1) / 2` of them. |
| OpportunityScanner.Chosen | index.js:72 | The kept pairs are exactly the visited pairs that exceed the threshold, in visiting order. |
| OpportunityScanner.ScanSymbol | index.js:66-83 | A symbol with `n` present prices yields at most `n (n - 1) / 2` reports, and none when `n < 2`. |
| OpportunityScanner.ScanSymbolMember | index.js:66-81 | A record is reported for a symbol exactly when it is the record of some pair `i < j` of its present prices that exceeds the threshold. |
| OpportunityScanner.ScanRowSound | index.js:65-81 | Every report over a row comes from two priced entries, the first before the second. It carries the symbol, both venues and both prices unchanged, and a percentage above the threshold. |
| OpportunityScanner.ScanRowComplete | index.js:65-81 | Every two priced entries of a row that differ by more than the threshold are reported, the earlier one as `exchange1`. |
| OpportunityScanner.Scan | index.js:62-86 | An empty table gives no report. Membership is stated by `ScanMember`, the symbol-by-symbol order by `ScanJoin`, and the loop form by `CheckArbitrageOpportunities`. |
| OpportunityScanner.ScanMember | index.js:64-85 | A record is reported exactly when it is reported for one of the table's symbols. |
| OpportunityScanner.ScanJoin | index.js:64-84 | Reports come symbol by symbol, in table order. |
| OpportunityScanner.ScanSymbolOrder | index.js:66-81 | Within a symbol, reports appear in strictly increasing `(i, j)` order, one per reported pair. |
| OpportunityScanner.UniformPricesAreQuiet | index.js:66-72 | A symbol with one price on every venue produces no report. |
| OpportunityScanner.NoMirrorInRow | index.js:66-69 | Within one row with distinct venues, every report names the row's symbol, no venue is compared with itself, and no pair is reported both ways round. |
| OpportunityScanner.NoMirroredReports | index.js:66-69 | No venue is compared with itself, and no pair is reported both ways round. |
| OpportunityScanner.CompareWithLater | index.js:67-82 | The inner loop pushes exactly the records of the reported pairs `(i, j)`, in increasing `j`. |
| OpportunityScanner.CompareAll | index.js:66-83 | Both loops over one symbol push exactly that symbol's reports, in order. |
| OpportunityScanner.CheckArbitrageOpportunities | index.js:62-86 | The whole loop returns exactly the reports of every symbol, in table order. |
| Orchestrator.Arbitrage | index.js:90-93 | With no venue configured, nothing is reported. `ArbitrageSound` and `ArbitrageComplete` characterise the whole chain: a record is reported exactly for two venues in registry order whose prices for a commonly listed symbol exceed the threshold. |
| Orchestrator.ReportedRow | index.js:90-93 | Every report of the route comes from the price row of a common symbol. |
| Orchestrator.CommonRowScanned | index.js:90-93 | Every report over a common symbol's row is in the route's result. |
| Orchestrator.ArbitrageSound | index.js:88-94 | Every report names a symbol that every venue listed, and two venues in registry order whose tickers answered with exactly the reported prices. Its percentage is computed from those prices and exceeds the threshold. |
| Orchestrator.ArbitrageComplete | index.js:88-94 | Conversely, for every symbol all venues list, two venues in registry order whose tickers answered with prices that exceed the threshold are reported. |
| Orchestrator.SingleVenueNeverReports | index.js:90-93 | With fewer than two venues the route reports nothing. |
| Orchestrator.EmptyListingSilencesScan | index.js:90-93 | A venue whose listing failed or is empty silences the whole scan. |
| Orchestrator.AbsentPriceNeverReported | index.js:90-93 | A venue whose ticker for a symbol failed or carried no `last` appears in no report for that symbol. |
| Orchestrator.ThreeVenueCommon | index.js:36-42 | Venues listing `[X, Y]`, `[X, Y, Z]` and `[X]` have X as their only common symbol. |
| Orchestrator.ThreeVenueReports | index.js:62-86 | With X quoted at 100, 102 and 110, all three pairs (A, B), (A, C) and (B, C) are reported. |
| Orchestrator.ThreeVenueOnly | index.js:62-86 | In that scenario nothing else is reported. |

## Left out

- The Express server, static file serving, the `/arbitrage` route's JSON response and its
  500 path. These are I/O around the modelled chain. No modelled operation throws, so the
  500 path is not reachable from the model.
- Construction of the ccxt clients, their 50-second timeouts and the network. Each venue's
  answers during one request are parameters: `Venue.markets` and `Venue.ticker`.
- `Promise.all` concurrency. The results are merged in registry and symbol order, as
  `Promise.all` orders them, so the interleaving of the fetches has no effect on the result.
- `console.error` logging on a failed fetch. It has no effect on the result.
- `toFixed(2)`: `percentageDifference` holds the exact percentage, not its two-decimal text.
- IEEE-754 doubles. Prices and percentages are exact reals, so rounding at the 0.5 %
  boundary is not modelled. Only the zero-divisor outcomes, Infinity and NaN, are modelled.
- A ticker whose `last` is `null`. The source's filter drops only undefined prices, so it
  keeps a null one, and the arithmetic then treats it as 0. The model treats every missing `last` as absent.
- Key ordering of integer-like property names. JavaScript enumerates such keys first, in
  numeric order. Venue ids and symbols of the form `BASE/QUOTE` are not integer-like, so
  the model keeps insertion order throughout.
- A ticker or market answer that changes between the two fetch stages of one request. Each
  venue answers as one fixed function.
- SymbolCatalog.CommonSymbols: states membership and distinctness but not the order of the
  common symbols. That order is the first venue's listing order, and it fixes the order in
  which symbols are scanned.
- Orchestrator.Arbitrage: its own contract states only the case with no venues. Soundness
  and completeness are stated by `ArbitrageSound` and `ArbitrageComplete`.
- OpportunityScanner.Scan: its own contract states only the empty-table case. Membership
  is stated by `ScanMember`, the order by `ScanJoin` and `ScanSymbolOrder`, and its loop
  form by `CheckArbitrageOpportunities`.
