/**
  Linear-interpolated quantiles of an ascending list (`forecast-band.ts`), over real numbers:
  where one falls, how it grows, and how few of the numbers a 95% band leaves outside.
 */
module Quantiles {
  import opened Ordering
  import opened RealArithmetic

  const BAND_LO: real := 0.025
  const BAND_HI: real := 0.975

  function Ceiling(x: real): int {
    -((-x).Floor)
  }

  /** Where the `q` quantile of `n` numbers falls among their indices. */
  function Position(n: int, q: real): real {
    (n - 1) as real * q
  }

  function OnLine(a: real, b: real, t: real): real {
    a + (b - a) * t
  }

  lemma PositionInside(n: int, q: real)
    requires n > 0 && 0.0 <= q <= 1.0
    ensures 0.0 <= Position(n, q) <= (n - 1) as real
    ensures 0 <= Position(n, q).Floor <= Ceiling(Position(n, q)) < n
              && Ceiling(Position(n, q)) <= Position(n, q).Floor + 1
  {
    Scaled((n - 1) as real, 0.0, q);
    Scaled((n - 1) as real, q, 1.0);
    assert Position(n, q) <= (n - 1) as real * 1.0 == (n - 1) as real;
    Rounded(Position(n, q), n - 1);
  }

  lemma Rounded(x: real, most: int)
    requires 0.0 <= x <= most as real
    ensures 0 <= x.Floor <= Ceiling(x) <= most && Ceiling(x) <= x.Floor + 1
  {
  }

  /** The source throws on an empty list. */
  function Quantile(sorted: seq<real>, q: real): real
    requires sorted != [] && 0.0 <= q <= 1.0
  {
    PositionInside(|sorted|, q);
    var pos := Position(|sorted|, q);
    OnLine(sorted[pos.Floor], sorted[Ceiling(pos)], pos - pos.Floor as real)
  }

  lemma OnLineBetween(a: real, b: real, s: real, t: real)
    requires a <= b && 0.0 <= s <= t <= 1.0
    ensures a <= OnLine(a, b, s) <= OnLine(a, b, t) <= b
  {
    Scaled(b - a, 0.0, s);
    Scaled(b - a, s, t);
    Scaled(b - a, t, 1.0);
  }

  /** The quantile lies between the two entries it is interpolated from. */
  lemma QuantileWithin(sorted: seq<real>, q: real)
    requires Ascending(sorted) && sorted != [] && 0.0 <= q <= 1.0
    ensures var pos := Position(|sorted|, q);
            && 0 <= pos.Floor <= Ceiling(pos) < |sorted|
            && sorted[0] <= sorted[pos.Floor] <= Quantile(sorted, q) <= sorted[Ceiling(pos)] <= sorted[|sorted| - 1]
  {
    hide Position, OnLine;
    var pos := Position(|sorted|, q);
    PositionInside(|sorted|, q);
    var t := pos - pos.Floor as real;
    OnLineBetween(sorted[pos.Floor], sorted[Ceiling(pos)], t, t);
  }

  /** Between two neighbouring entries, both included, the quantile is on the line through them. */
  lemma QuantileInCell(sorted: seq<real>, q: real, i: nat)
    requires i + 1 < |sorted| && 0.0 <= q <= 1.0
    requires i as real <= (|sorted| - 1) as real * q <= (i + 1) as real
    ensures var share := (|sorted| - 1) as real * q - i as real;
            && 0.0 <= share <= 1.0
            && Quantile(sorted, q) == sorted[i] + (sorted[i + 1] - sorted[i]) * share
  {
    var pos := Position(|sorted|, q);
    PositionInside(|sorted|, q);
    if pos == (i + 1) as real {
      assert pos.Floor == Ceiling(pos) == i + 1;
    } else if pos == i as real {
      assert pos.Floor == Ceiling(pos) == i;
    } else {
      assert pos.Floor == i && Ceiling(pos) == i + 1;
    }
  }

  /** At a whole rank the quantile is the entry of that rank. */
  lemma QuantileAtRank(sorted: seq<real>, q: real, i: nat)
    requires i < |sorted| && 0.0 <= q <= 1.0 && (|sorted| - 1) as real * q == i as real
    ensures Quantile(sorted, q) == sorted[i]
  {
    assert Position(|sorted|, q).Floor == i && Ceiling(Position(|sorted|, q)) == i;
  }

  /** Rounding up: the least whole number that is no less. */
  lemma CeilingExactly(x: real, n: int)
    ensures Ceiling(x) <= n <==> x <= n as real
  {
  }

  lemma QuantileMonotone(sorted: seq<real>, p: real, q: real)
    requires Ascending(sorted) && sorted != [] && 0.0 <= p <= q <= 1.0
    ensures Quantile(sorted, p) <= Quantile(sorted, q)
  {
    hide Quantile;
    Scaled((|sorted| - 1) as real, p, q);
    QuantileOrdered(sorted, p, q);
  }

  lemma QuantileOrdered(sorted: seq<real>, p: real, q: real)
    requires Ascending(sorted) && sorted != [] && 0.0 <= p <= 1.0 && 0.0 <= q <= 1.0
    requires Position(|sorted|, p) <= Position(|sorted|, q)
    ensures Quantile(sorted, p) <= Quantile(sorted, q)
  {
    hide Position, OnLine;
    var at, to := Position(|sorted|, p), Position(|sorted|, q);
    QuantileWithin(sorted, p);
    QuantileWithin(sorted, q);
    PositionInside(|sorted|, p);
    PositionInside(|sorted|, q);
    if at.Floor == to.Floor && Ceiling(at) == Ceiling(to) {
      OnLineBetween(sorted[at.Floor], sorted[Ceiling(at)], at - at.Floor as real, to - to.Floor as real);
    } else {
      assert Ceiling(at) <= to.Floor;
    }
  }

  lemma OppositeEnds(n: int)
    requires n > 0
    ensures Ceiling(Position(n, BAND_LO)) + (n - 1 - Position(n, BAND_HI).Floor) == 2 * Ceiling(Position(n, BAND_LO))
  {
    var m := (n - 1) as real;
    assert m * BAND_HI == m - m * BAND_LO;
    assert (m - m * BAND_LO).Floor == n - 1 - Ceiling(m * BAND_LO);
  }

  /** The 95% band of a collection of numbers, from its sorted copy. */
  datatype Span = Span(lo: real, hi: real, n: int)

  function SpanOf(values: seq<real>): Span
    requires values != []
  {
    SortSorts(values);
    Span(Quantile(Sort(values), BAND_LO), Quantile(Sort(values), BAND_HI), |values|)
  }

  /** Of the numbers a 95% band was learned from, at most two and a half percent fall outside at each end. */
  lemma FewOutside(values: seq<real>)
    requires values != []
    ensures var span := SpanOf(values);
            span.lo <= span.hi && Outside(values, span.lo, span.hi) <= 2 * Ceiling(Position(|values|, BAND_LO))
  {
    hide Position, Quantile, Sort, Outside, Ceiling;
    SortSorts(values);
    SortedFewOutside(Sort(values));
    QuantileMonotone(Sort(values), BAND_LO, BAND_HI);
    OutsideOfSort(values, SpanOf(values).lo, SpanOf(values).hi);
  }

  /** So no more than `most` at each end, for any `most` that is two and a half percent of all but one of them. */
  lemma FewAtEachEnd(values: seq<real>, most: int)
    requires values != [] && 0.025 * (|values| - 1) as real <= most as real
    ensures Outside(values, SpanOf(values).lo, SpanOf(values).hi) <= 2 * most
  {
    FewOutside(values);
    CeilingExactly(Position(|values|, BAND_LO), most);
  }

  lemma SortedFewOutside(s: seq<real>)
    requires s != [] && Ascending(s)
    ensures Outside(s, Quantile(s, BAND_LO), Quantile(s, BAND_HI)) <= 2 * Ceiling(Position(|s|, BAND_LO))
  {
    hide Position, OnLine, Quantile;
    QuantileWithin(s, BAND_LO);
    QuantileWithin(s, BAND_HI);
    OppositeEnds(|s|);
    OutsideOfAscending(s, Quantile(s, BAND_LO), Quantile(s, BAND_HI), Ceiling(Position(|s|, BAND_LO)),
      Position(|s|, BAND_HI).Floor);
  }

  /** A band does not depend on the order the numbers came in. */
  lemma SpanOfAnyOrder(a: seq<real>, b: seq<real>)
    requires a != [] && b != [] && multiset(a) == multiset(b)
    ensures SpanOf(a) == SpanOf(b)
  {
    hide Quantile, Sort;
    SortsAlike(a, b);
    SortSorts(a);
    SortSorts(b);
  }
}
