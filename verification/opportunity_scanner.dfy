/** The scan stage: every pair of present prices of a symbol compared, and the pairs that
    differ by more than the threshold reported (`checkArbitrageOpportunities` in index.js). */
module OpportunityScanner {
  import opened Wrappers
  import opened JsObject
  import opened Registry
  import opened PriceCollector
  import opened PairEnumeration

  /** A JavaScript number as the percentage computation can produce it: finite, +Infinity
      (a nonzero difference over a zero mean) or NaN (zero over zero). */
  datatype Percent = Finite(value: real) | Infinite | NotANumber

  /** A pair is reported when its percentage difference is strictly above this. */
  const Threshold: real := 0.5

  function Abs(x: real): real {
    if x < 0.0 then -x else x
  }

  /** The distance of two prices over their mean, as a percentage, with JavaScript's
      outcomes of a zero divisor: finite exactly when the prices do not sum to zero, NaN
      exactly when both are zero, and +Infinity for two opposite nonzero prices. */
  function PercentageDifference(p1: real, p2: real): (r: Percent)
    ensures r.Finite? <==> p1 + p2 != 0.0
    ensures r.Finite? ==> r.value * (p1 + p2) == 200.0 * Abs(p1 - p2)
    ensures r == NotANumber <==> p1 == 0.0 && p2 == 0.0
    ensures r == Infinite <==> p1 + p2 == 0.0 && p1 != 0.0
  {
    var diff := Abs(p1 - p2);
    var mean := (p1 + p2) / 2.0;
    if mean != 0.0 then
      assert diff / mean * 100.0 * (p1 + p2) == 200.0 * diff by {
        assert diff / mean * mean == diff;
        assert p1 + p2 == 2.0 * mean;
      }
      Finite(diff / mean * 100.0)
    else if diff != 0.0 then Infinite
    else NotANumber
  }

  /** The threshold test, strict, with JavaScript's comparisons: +Infinity is above the
      threshold and NaN is never above anything. */
  predicate Exceeds(pct: Percent) {
    match pct
    case Finite(x) => x > Threshold
    case Infinite => true
    case NotANumber => false
  }

  /** The test the scan applies to two prices: their percentage difference is above the
      threshold. Without any division, that is exactly when the prices' sum is positive and
      400 times their distance exceeds it, or when the sum is zero and the prices differ. */
  predicate Reported(p1: real, p2: real)
    ensures Reported(p1, p2) <==>
      (p1 + p2 > 0.0 && 400.0 * Abs(p1 - p2) > p1 + p2) || (p1 + p2 == 0.0 && p1 != p2)
  {
    var r, sum, diff := PercentageDifference(p1, p2), p1 + p2, Abs(p1 - p2);
    assert sum > 0.0 ==> (Exceeds(r) <==> 400.0 * diff > sum) by {
      if sum > 0.0 {
        ScaledAboveThreshold(r.value, sum, diff);
      }
    }
    assert sum < 0.0 ==> !Exceeds(r) by {
      if sum < 0.0 {
        assert r.value * sum == 200.0 * diff;
      }
    }
    assert sum == 0.0 ==> (p1 != p2 <==> p1 != 0.0);
    Exceeds(r)
  }

  /** A percentage `x` with `x * sum == 200 * diff` over a positive sum is above the
      threshold exactly when 400 times the distance exceeds the sum. */
  lemma ScaledAboveThreshold(x: real, sum: real, diff: real)
    requires sum > 0.0 && x * sum == 200.0 * diff
    ensures x > Threshold <==> 400.0 * diff > sum
  {
    if x > Threshold {
      assert x * sum > Threshold * sum;
    } else {
      assert x * sum <= Threshold * sum;
    }
  }

  /** Equal prices are never reported. */
  lemma EqualPricesNeverExceed(p: real)
    ensures !Exceeds(PercentageDifference(p, p))
  {
    assert !Reported(p, p);
  }

  /** The comparison does not depend on which venue comes first. */
  lemma PercentageDifferenceSymmetric(p1: real, p2: real)
    ensures PercentageDifference(p1, p2) == PercentageDifference(p2, p1)
  {
    assert Abs(p1 - p2) == Abs(p2 - p1);
  }

  /** A venue's present price for the symbol under scan. */
  datatype Quote = Quote(venue: VenueId, price: real)

  /** One reported pair. `percentageDifference` holds the exact percentage, before
      `toFixed(2)` turns it into text. */
  datatype Opportunity = Opportunity(
    symbol: Symbol,
    exchange1: VenueId,
    price1: real,
    exchange2: VenueId,
    price2: real,
    percentageDifference: Percent)

  /** Positions, from `a` on, of the entries of `row` whose price is present, ascending. */
  function PresentFrom(row: PriceRow, a: nat): (idx: seq<nat>)
    requires a <= |row|
    ensures forall k :: 0 <= k < |idx| ==> a <= idx[k] < |row| && row[idx[k]].value.Some?
    ensures forall b :: a <= b < |row| && row[b].value.Some? ==> b in idx
    ensures forall k, l :: 0 <= k < l < |idx| ==> idx[k] < idx[l]
    decreases |row| - a
  {
    if a == |row| then []
    else if row[a].value.Some? then [a] + PresentFrom(row, a + 1)
    else PresentFrom(row, a + 1)
  }

  /** The entries of a price row, in row order, whose price is present. */
  function Present(row: PriceRow): (q: seq<Quote>)
    ensures |q| <= |row|
  {
    var idx := PresentFrom(row, 0);
    assert |idx| <= |row| by { PositionsBound(idx, |row|); }
    seq(|idx|, k requires 0 <= k < |idx| => Quote(row[idx[k]].key, row[idx[k]].value.value))
  }

  /** In a row with distinct keys, the present quotes name distinct venues. */
  lemma PresentDistinct(row: PriceRow)
    requires DistinctKeys(row)
    ensures forall k, l :: 0 <= k < l < |Present(row)| ==> Present(row)[k].venue != Present(row)[l].venue
  {
    PresentPositions(row);
  }

  lemma {:induction false} PositionsBound(idx: seq<nat>, n: nat)
    requires forall k :: 0 <= k < |idx| ==> idx[k] < n
    requires forall k, l :: 0 <= k < l < |idx| ==> idx[k] < idx[l]
    ensures |idx| <= n
    decreases n
  {
    if |idx| > 0 {
      var last := idx[|idx| - 1];
      PositionsBound(idx[..|idx| - 1], last);
    }
  }

  /** The present quotes are the row's entries with a price, at ascending positions of the
      row: the k-th quote comes from position `PresentFrom(row, 0)[k]`. */
  lemma PresentPositions(row: PriceRow)
    ensures var q, idx := Present(row), PresentFrom(row, 0);
      && |q| == |idx|
      && forall k :: 0 <= k < |q| ==> row[idx[k]] == Entry(q[k].venue, Some(q[k].price))
  {
  }

  /** A quote is present exactly when the row holds its venue with that price. */
  lemma PresentMembers(row: PriceRow)
    ensures forall k :: 0 <= k < |Present(row)| ==> Entry(Present(row)[k].venue, Some(Present(row)[k].price)) in row
    ensures forall b :: 0 <= b < |row| && row[b].value.Some? ==> Quote(row[b].key, row[b].value.value) in Present(row)
  {
    var q, idx := Present(row), PresentFrom(row, 0);
    PresentPositions(row);
    forall k | 0 <= k < |q| ensures Entry(q[k].venue, Some(q[k].price)) in row {
      assert row[idx[k]] == Entry(q[k].venue, Some(q[k].price));
    }
    forall b | 0 <= b < |row| && row[b].value.Some?
      ensures Quote(row[b].key, row[b].value.value) in q
    {
      var k :| 0 <= k < |idx| && idx[k] == b;
      assert q[k] == Quote(row[b].key, row[b].value.value);
    }
  }

  /** The pair of positions `p` of `q` is reported. */
  predicate Diverges(q: seq<Quote>, p: Pair)
    requires p.i < |q| && p.j < |q|
  {
    Reported(q[p.i].price, q[p.j].price)
  }

  /** The record pushed for the pair of positions `p` of `q`. */
  function Record(sym: Symbol, q: seq<Quote>, p: Pair): Opportunity
    requires p.i < |q| && p.j < |q|
  {
    Opportunity(sym, q[p.i].venue, q[p.i].price, q[p.j].venue, q[p.j].price,
      PercentageDifference(q[p.i].price, q[p.j].price))
  }

  /** The pairs of `ps` that are reported, in the order of `ps`. */
  function Chosen(q: seq<Quote>, ps: seq<Pair>): (r: seq<Pair>)
    requires InRange(ps, |q|)
    ensures forall p :: p in r <==> p in ps && Diverges(q, p)
    ensures Ascending(ps) ==> Ascending(r)
    ensures |r| <= |ps|
  {
    if |ps| == 0 then []
    else
      var rest := Chosen(q, ps[1..]);
      assert ps == [ps[0]] + ps[1..];
      if Diverges(q, ps[0]) then
        assert Ascending(ps) ==> forall y :: y in rest ==> Before(ps[0], y) by {
          if Ascending(ps) {
            forall y | y in rest ensures Before(ps[0], y) {
              var b :| 0 <= b < |ps[1..]| && ps[1..][b] == y;
              assert ps[b + 1] == y;
            }
          }
        }
        assert Ascending(ps) ==> Ascending([ps[0]] + rest) by {
          if Ascending(ps) {
            AscendingJoin([ps[0]], rest);
          }
        }
        [ps[0]] + rest
      else
        rest
  }

  /** The records of the pairs `ps`, in the order of `ps`. */
  function Records(sym: Symbol, q: seq<Quote>, ps: seq<Pair>): seq<Opportunity>
    requires InRange(ps, |q|)
  {
    seq(|ps|, k requires 0 <= k < |ps| => Record(sym, q, ps[k]))
  }

  lemma RecordsJoin(sym: Symbol, q: seq<Quote>, xs: seq<Pair>, ys: seq<Pair>)
    requires InRange(xs, |q|) && InRange(ys, |q|)
    ensures InRange(xs + ys, |q|)
    ensures Records(sym, q, xs + ys) == Records(sym, q, xs) + Records(sym, q, ys)
  {
  }

  lemma {:induction false} ChosenJoin(q: seq<Quote>, xs: seq<Pair>, ys: seq<Pair>)
    requires InRange(xs, |q|) && InRange(ys, |q|)
    ensures InRange(xs + ys, |q|)
    ensures Chosen(q, xs + ys) == Chosen(q, xs) + Chosen(q, ys)
    decreases |xs|
  {
    if |xs| > 0 {
      assert (xs + ys)[1..] == xs[1..] + ys;
      assert xs[0] in xs;
      ChosenJoin(q, xs[1..], ys);
    } else {
      assert xs + ys == ys;
    }
  }

  /** The nested loops over one symbol's present prices: at most one report per pair
      `i < j`, so at most `n (n - 1) / 2` of them, and none below two prices. */
  function ScanSymbol(sym: Symbol, q: seq<Quote>): (r: seq<Opportunity>)
    ensures 2 * |r| <= |q| * (|q| - 1)
    ensures |q| < 2 ==> r == []
  {
    var e := Chosen(q, PairsFrom(0, |q|));
    Records(sym, q, e)
  }

  /** A record is reported for a symbol exactly when it is the record of some pair `i < j` of
      its present prices whose difference exceeds the threshold. */
  lemma ScanSymbolMember(sym: Symbol, q: seq<Quote>, o: Opportunity)
    ensures o in ScanSymbol(sym, q) <==>
      exists i, j :: 0 <= i < j < |q| && Diverges(q, Pair(i, j)) && o == Record(sym, q, Pair(i, j))
  {
    if o in ScanSymbol(sym, q) {
      ScanSymbolSound(sym, q, o);
    }
    if exists i, j :: 0 <= i < j < |q| && Diverges(q, Pair(i, j)) && o == Record(sym, q, Pair(i, j)) {
      var i, j :| 0 <= i < j < |q| && Diverges(q, Pair(i, j)) && o == Record(sym, q, Pair(i, j));
      ScanSymbolComplete(sym, q, i, j);
    }
  }

  lemma ScanSymbolSound(sym: Symbol, q: seq<Quote>, o: Opportunity)
    requires o in ScanSymbol(sym, q)
    ensures exists i, j :: 0 <= i < j < |q| && Diverges(q, Pair(i, j)) && o == Record(sym, q, Pair(i, j))
  {
    var e := Chosen(q, PairsFrom(0, |q|));
    var r := Records(sym, q, e);
    assert r == ScanSymbol(sym, q);
    var k :| 0 <= k < |r| && r[k] == o;
    var p := e[k];
    assert p in e;
    assert Diverges(q, Pair(p.i, p.j)) && o == Record(sym, q, Pair(p.i, p.j));
  }

  lemma ScanSymbolComplete(sym: Symbol, q: seq<Quote>, i: nat, j: nat)
    requires i < j < |q| && Diverges(q, Pair(i, j))
    ensures Record(sym, q, Pair(i, j)) in ScanSymbol(sym, q)
  {
    var e := Chosen(q, PairsFrom(0, |q|));
    var r := Records(sym, q, e);
    assert r == ScanSymbol(sym, q);
    assert Pair(i, j) in e;
    var k :| 0 <= k < |e| && e[k] == Pair(i, j);
    assert r[k] == Record(sym, q, Pair(i, j));
  }

  /** Over one price row: every report for the symbol comes from two entries of the row, the
      first before the second, both with a price, and carries their venues and prices
      unchanged together with the percentage difference, which exceeds the threshold. */
  lemma ScanRowSound(sym: Symbol, row: PriceRow, o: Opportunity)
    requires o in ScanSymbol(sym, Present(row))
    ensures o.symbol == sym
    ensures exists a, b ::
      && 0 <= a < b < |row|
      && row[a] == Entry(o.exchange1, Some(o.price1))
      && row[b] == Entry(o.exchange2, Some(o.price2))
    ensures o.percentageDifference == PercentageDifference(o.price1, o.price2)
    ensures Exceeds(o.percentageDifference)
  {
    var q, idx := Present(row), PresentFrom(row, 0);
    ScanSymbolMember(sym, q, o);
    var i, j :| 0 <= i < j < |q| && Diverges(q, Pair(i, j)) && o == Record(sym, q, Pair(i, j));
    PresentPositions(row);
    assert row[idx[i]] == Entry(o.exchange1, Some(o.price1));
    assert row[idx[j]] == Entry(o.exchange2, Some(o.price2));
  }

  /** Over one price row: every two entries with prices that differ by more than the
      threshold are reported, the earlier entry as the first exchange. */
  lemma ScanRowComplete(sym: Symbol, row: PriceRow, a: int, b: int)
    requires 0 <= a < b < |row|
    requires row[a].value.Some? && row[b].value.Some?
    requires Exceeds(PercentageDifference(row[a].value.value, row[b].value.value))
    ensures var p1, p2 := row[a].value.value, row[b].value.value;
      Opportunity(sym, row[a].key, p1, row[b].key, p2, PercentageDifference(p1, p2)) in ScanSymbol(sym, Present(row))
  {
    var q, idx := Present(row), PresentFrom(row, 0);
    PresentPositions(row);
    var k :| 0 <= k < |idx| && idx[k] == a;
    var l :| 0 <= l < |idx| && idx[l] == b;
    assert k < l;
    assert q[k] == Quote(row[a].key, row[a].value.value);
    assert q[l] == Quote(row[b].key, row[b].value.value);
    ScanSymbolComplete(sym, q, k, l);
  }

  /** `checkArbitrageOpportunities(commonSymbolPrices)`: the symbols in table order, each
      contributing the reports of its own row. */
  function Scan(table: PriceTable): (r: seq<Opportunity>)
    ensures |table| == 0 ==> r == []
  {
    if |table| == 0 then []
    else ScanSymbol(table[0].key, Present(table[0].value)) + Scan(table[1..])
  }

  /** A record is reported exactly when it is reported for one of the table's symbols. */
  lemma {:induction false} ScanMember(table: PriceTable, o: Opportunity)
    ensures o in Scan(table) <==>
      exists t :: 0 <= t < |table| && o in ScanSymbol(table[t].key, Present(table[t].value))
    decreases |table|
  {
    if |table| > 0 {
      ScanMember(table[1..], o);
      if o in Scan(table[1..]) {
        var t :| 0 <= t < |table[1..]| && o in ScanSymbol(table[1..][t].key, Present(table[1..][t].value));
        assert table[1..][t] == table[t + 1];
      }
      if exists t :: 0 <= t < |table| && o in ScanSymbol(table[t].key, Present(table[t].value)) {
        var t :| 0 <= t < |table| && o in ScanSymbol(table[t].key, Present(table[t].value));
        if t > 0 {
          assert table[1..][t - 1] == table[t];
        }
      }
    }
  }

  /** Reports appear symbol by symbol, in table order. */
  lemma {:induction false} ScanJoin(xs: PriceTable, ys: PriceTable)
    ensures Scan(xs + ys) == Scan(xs) + Scan(ys)
    decreases |xs|
  {
    if |xs| > 0 {
      assert (xs + ys)[0] == xs[0] && (xs + ys)[1..] == xs[1..] + ys;
      ScanJoin(xs[1..], ys);
      AppendAssoc(ScanSymbol(xs[0].key, Present(xs[0].value)), Scan(xs[1..]), Scan(ys));
    } else {
      assert xs + ys == ys;
    }
  }

  /** Within a symbol, the reports come in strictly increasing (i, j) order, one per reported
      pair. */
  lemma ScanSymbolOrder(sym: Symbol, q: seq<Quote>)
    ensures var e := Chosen(q, PairsFrom(0, |q|));
      && Ascending(e)
      && |ScanSymbol(sym, q)| == |e|
      && forall k :: 0 <= k < |e| ==> e[k].i < e[k].j < |q| && ScanSymbol(sym, q)[k] == Record(sym, q, e[k])
  {
    var e := Chosen(q, PairsFrom(0, |q|));
    assert forall k :: 0 <= k < |e| ==> e[k] in e;
  }

  /** One price shared by all venues of a symbol: nothing is reported for it. */
  lemma UniformPricesAreQuiet(sym: Symbol, q: seq<Quote>)
    requires forall k :: 0 <= k < |q| ==> q[k].price == q[0].price
    ensures ScanSymbol(sym, q) == []
  {
    var r := ScanSymbol(sym, q);
    if |r| > 0 {
      ScanSymbolMember(sym, q, r[0]);
      assert false;
    }
  }

  /** Over one row with distinct venues: every report names the row's symbol, no venue is
      compared with itself and no pair is reported both ways round. */
  lemma NoMirrorInRow(sym: Symbol, row: PriceRow, o: Opportunity, o': Opportunity)
    requires DistinctKeys(row)
    requires o in ScanSymbol(sym, Present(row)) && o' in ScanSymbol(sym, Present(row))
    ensures o.symbol == sym && o'.symbol == sym
    ensures o.exchange1 != o.exchange2
    ensures !(o.exchange1 == o'.exchange2 && o.exchange2 == o'.exchange1)
  {
    var q := Present(row);
    ScanSymbolMember(sym, q, o);
    ScanSymbolMember(sym, q, o');
    var i, j :| 0 <= i < j < |q| && Diverges(q, Pair(i, j)) && o == Record(sym, q, Pair(i, j));
    var i', j' :| 0 <= i' < j' < |q| && Diverges(q, Pair(i', j')) && o' == Record(sym, q, Pair(i', j'));
    PresentDistinct(row);
  }

  /** No venue is compared with itself and no pair is reported both ways round. */
  lemma NoMirroredReports(table: PriceTable, o: Opportunity, o': Opportunity)
    requires DistinctKeys(table)
    requires forall t :: 0 <= t < |table| ==> DistinctKeys(table[t].value)
    requires o in Scan(table) && o' in Scan(table)
    ensures o.exchange1 != o.exchange2
    ensures o.symbol == o'.symbol ==> !(o.exchange1 == o'.exchange2 && o.exchange2 == o'.exchange1)
  {
    ScanMember(table, o);
    ScanMember(table, o');
    var t :| 0 <= t < |table| && o in ScanSymbol(table[t].key, Present(table[t].value));
    var t' :| 0 <= t' < |table| && o' in ScanSymbol(table[t'].key, Present(table[t'].value));
    NoMirrorInRow(table[t].key, table[t].value, o, o);
    NoMirrorInRow(table[t'].key, table[t'].value, o', o');
    if o.symbol == o'.symbol {
      assert t == t';
      NoMirrorInRow(table[t].key, table[t].value, o, o');
    }
  }

  lemma ChosenSnoc(q: seq<Quote>, ps: seq<Pair>, p: Pair)
    requires InRange(ps, |q|) && p.i < p.j < |q|
    ensures InRange(ps + [p], |q|)
    ensures Chosen(q, ps + [p]) == Chosen(q, ps) + (if Diverges(q, p) then [p] else [])
  {
    assert p in [p];
    ChosenJoin(q, ps, [p]);
  }

  lemma RowStep(sym: Symbol, q: seq<Quote>, i: nat, j: nat)
    requires i < j < |q|
    ensures InRange(Row(i, j), |q|) && InRange(Row(i, j + 1), |q|)
    ensures Records(sym, q, Chosen(q, Row(i, j + 1)))
      == Records(sym, q, Chosen(q, Row(i, j)))
        + (if Diverges(q, Pair(i, j)) then [Record(sym, q, Pair(i, j))] else [])
  {
    var init := Row(i, j);
    assert Row(i, j + 1) == init + [Pair(i, j)];
    ChosenSnoc(q, init, Pair(i, j));
    var done := Chosen(q, init);
    var next := if Diverges(q, Pair(i, j)) then [Pair(i, j)] else [];
    RecordsJoin(sym, q, done, next);
  }

  lemma PairsFromStep(sym: Symbol, q: seq<Quote>, i: nat)
    requires i < |q|
    ensures InRange(PairsFrom(i, |q|), |q|) && InRange(Row(i, |q|), |q|) && InRange(PairsFrom(i + 1, |q|), |q|)
    ensures Records(sym, q, Chosen(q, PairsFrom(i, |q|)))
      == Records(sym, q, Chosen(q, Row(i, |q|))) + Records(sym, q, Chosen(q, PairsFrom(i + 1, |q|)))
  {
    var n := |q|;
    assert PairsFrom(i, n) == Row(i, n) + PairsFrom(i + 1, n);
    ChosenJoin(q, Row(i, n), PairsFrom(i + 1, n));
    RecordsJoin(sym, q, Chosen(q, Row(i, n)), Chosen(q, PairsFrom(i + 1, n)));
  }

  /** The inner loop for one `i`: `j` from `i + 1` to the end, pushing each pair that exceeds
      the threshold. */
  method CompareWithLater(sym: Symbol, q: seq<Quote>, i: nat) returns (found: seq<Opportunity>)
    requires i < |q|
    ensures InRange(Row(i, |q|), |q|)
    ensures found == Records(sym, q, Chosen(q, Row(i, |q|)))
  {
    var n := |q|;
    found := [];
    var j := i + 1;
    while j < n
      invariant i < j <= n
      invariant InRange(Row(i, j), n)
      invariant found == Records(sym, q, Chosen(q, Row(i, j)))
    {
      RowStep(sym, q, i, j);
      var pct := PercentageDifference(q[i].price, q[j].price);
      if Exceeds(pct) {
        found := found + [Opportunity(sym, q[i].venue, q[i].price, q[j].venue, q[j].price, pct)];
      }
      j := j + 1;
    }
  }

  /** The outer loop's step: pushing the reports of row `i` leaves the pairs from `i + 1` on
      still to be pushed. */
  lemma PushRow(sym: Symbol, q: seq<Quote>, i: nat, found: seq<Opportunity>, later: seq<Opportunity>)
    requires i < |q|
    requires InRange(Row(i, |q|), |q|) && later == Records(sym, q, Chosen(q, Row(i, |q|)))
    requires found + Records(sym, q, Chosen(q, PairsFrom(i, |q|))) == ScanSymbol(sym, q)
    ensures found + later + Records(sym, q, Chosen(q, PairsFrom(i + 1, |q|))) == ScanSymbol(sym, q)
  {
    PairsFromStep(sym, q, i);
    var rest := Records(sym, q, Chosen(q, PairsFrom(i + 1, |q|)));
    AppendAssoc(found, later, rest);
  }

  lemma AppendAssoc<T>(a: seq<T>, b: seq<T>, c: seq<T>)
    ensures a + b + c == a + (b + c)
  {
  }

  /** Both loops over one symbol's present prices. */
  method CompareAll(sym: Symbol, q: seq<Quote>) returns (found: seq<Opportunity>)
    ensures found == ScanSymbol(sym, q)
  {
    var n := |q|;
    found := [];
    var i := 0;
    assert found + Records(sym, q, Chosen(q, PairsFrom(0, n))) == ScanSymbol(sym, q);
    while i < n
      invariant 0 <= i <= n
      invariant found + Records(sym, q, Chosen(q, PairsFrom(i, n))) == ScanSymbol(sym, q)
    {
      var later := CompareWithLater(sym, q, i);
      PushRow(sym, q, i, found, later);
      found := found + later;
      i := i + 1;
    }
    assert PairsFrom(n, n) == [];
  }

  /** `checkArbitrageOpportunities`: every symbol of the table in order, its reports pushed
      after those of the symbols before it. */
  method CheckArbitrageOpportunities(table: PriceTable) returns (found: seq<Opportunity>)
    ensures found == Scan(table)
  {
    found := [];
    var t := 0;
    while t < |table|
      invariant 0 <= t <= |table|
      invariant found + Scan(table[t..]) == Scan(table)
    {
      var reports := CompareAll(table[t].key, Present(table[t].value));
      assert table[t..][1..] == table[t + 1..];
      AppendAssoc(found, reports, Scan(table[t + 1..]));
      found := found + reports;
      t := t + 1;
    }
  }
}
