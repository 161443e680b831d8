/** The index pairs `i < j` that the scanner's nested loops visit, in visiting order. */
module PairEnumeration {

  datatype Pair = Pair(i: nat, j: nat)

  /** Lexicographic order on pairs: the order in which the loops reach them. */
  predicate Before(p: Pair, p': Pair) {
    p.i < p'.i || (p.i == p'.i && p.j < p'.j)
  }

  predicate Ascending(ps: seq<Pair>) {
    forall a, b :: 0 <= a < b < |ps| ==> Before(ps[a], ps[b])
  }

  /** Every pair of `ps` names two positions below `n`, the first one smaller. */
  predicate InRange(ps: seq<Pair>, n: nat) {
    forall p :: p in ps ==> p.i < p.j < n
  }

  lemma AscendingJoin(xs: seq<Pair>, ys: seq<Pair>)
    requires Ascending(xs) && Ascending(ys)
    requires forall x, y :: x in xs && y in ys ==> Before(x, y)
    ensures Ascending(xs + ys)
  {
    var zs := xs + ys;
    forall a, b | 0 <= a < b < |zs| ensures Before(zs[a], zs[b]) {
      if b < |xs| {
        assert zs[a] == xs[a] && zs[b] == xs[b];
      } else if a >= |xs| {
        assert zs[a] == ys[a - |xs|] && zs[b] == ys[b - |xs|];
      } else {
        assert zs[a] in xs && zs[b] in ys;
      }
    }
  }

  /** The pairs `(i, j)` for `i < j < n`, in increasing `j`: one full run of the inner loop,
      or, for a smaller `n`, the part of it done before `j` reaches `n`. */
  function Row(i: nat, n: nat): (ps: seq<Pair>)
    ensures forall p :: p in ps <==> p.i == i && i < p.j < n
    ensures Ascending(ps)
    ensures i < n ==> |ps| == n - i - 1
    decreases n
  {
    if n <= i + 1 then []
    else
      var init := Row(i, n - 1);
      AscendingJoin(init, [Pair(i, n - 1)]);
      init + [Pair(i, n - 1)]
  }

  /** The pairs `(i', j)` with `i <= i' < j < n`, in the order the outer loop from `i` and its
      inner loops produce them: all `n (n - 1) / 2` of them when `i` is 0. */
  function PairsFrom(i: nat, n: nat): (ps: seq<Pair>)
    ensures forall p :: p in ps <==> i <= p.i < p.j < n
    ensures Ascending(ps)
    ensures i <= n ==> 2 * |ps| == (n - i) * (n - i - 1)
    decreases n - i
  {
    if i >= n then []
    else
      var row := Row(i, n);
      var rest := PairsFrom(i + 1, n);
      AscendingJoin(row, rest);
      var m := n - i;
      assert 2 * (m - 1) + (m - 1) * (m - 2) == m * (m - 1);
      row + rest
  }
}
