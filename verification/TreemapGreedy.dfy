/** What the greedy row of the treemap achieves: the ratio it minimises in closed form,
    and, for items in descending order, that stopping at the first worse row loses nothing. */
module TreemapGreedy {
  import opened Treemap

  // ---------------------------------------------------------------------------
  // The ratio depends on the smallest and the largest item only
  // ---------------------------------------------------------------------------

  function Smallest(row: seq<Item>): (a: real)
    requires |row| > 0
    ensures (exists i :: 0 <= i < |row| && a == row[i].area) && forall i :: 0 <= i < |row| ==> a <= row[i].area
  {
    var last := row[|row| - 1].area;
    if |row| == 1 then last else Min(Smallest(row[..|row| - 1]), last)
  }

  function Largest(row: seq<Item>): (a: real)
    requires |row| > 0
    ensures (exists i :: 0 <= i < |row| && a == row[i].area) && forall i :: 0 <= i < |row| ==> a >= row[i].area
  {
    var last := row[|row| - 1].area;
    if |row| == 1 then last else Max(Largest(row[..|row| - 1]), last)
  }

  lemma Quotient(n: real, d: real, u: real)
    requires d > 0.0 && u * d == n
    ensures u == n / d
  {}

  lemma DivPositive(n: real, d: real)
    requires n > 0.0 && d > 0.0
    ensures n / d > 0.0
  {}

  /** An item of length l in a row of thickness t has area t*l, whence both ratios. */
  lemma ClosedForms(t: real, l: real, area: real)
    requires t > 0.0 && l > 0.0 && t * l == area > 0.0
    ensures t * t > 0.0 && t / l == t * t / area && l / t == area / (t * t)
  {
    MulPositive(t, t);
    var u, v := t / l, l / t;
    assert u * l == t && v * t == l;
    assert u * area == t * t by { assert u * (t * l) == (u * l) * t; }
    Quotient(t * t, area, u);
    assert v * (t * t) == area by { assert v * (t * t) == (v * t) * t; }
    Quotient(area, t * t, v);
  }

  /** The square of the thickness of a row with the given area. */
  function Square(rowArea: real, short: real): (sq: real)
    requires rowArea > 0.0 && short > 0.0
    ensures sq > 0.0
  {
    DivPositive(rowArea, short);
    MulPositive(rowArea / short, rowArea / short);
    rowArea / short * (rowArea / short)
  }

  lemma RatioClosed(area: real, rowArea: real, short: real, sq: real)
    requires area > 0.0 && rowArea > 0.0 && short > 0.0 && sq == Square(rowArea, short)
    ensures Ratio(area, rowArea, short) == Max(sq / area, area / sq)
  {
    ThicknessTimesLength(area, rowArea, short);
    ClosedForms(rowArea / short, Length(area, rowArea, short), area);
  }

  lemma MulOrder(a: real, b: real, c: real)
    requires a <= b && c >= 0.0
    ensures a * c <= b * c && c * a <= c * b
  {}

  lemma CrossOrder(q: real, d: real, q': real, d': real)
    requires q * d <= q' * d' && 0.0 < d' <= d && q' > 0.0
    ensures q <= q'
  {
    MulOrder(d', d, q');
    assert (q' - q) * d == q' * d - q * d;
    NotNegative(q' - q, d);
  }

  lemma QuotientOrder(n: real, d: real, n': real, d': real)
    requires 0.0 < n <= n' && 0.0 < d' <= d
    ensures n / d <= n' / d'
  {
    DivPositive(n', d');
    CrossOrder(n / d, d, n' / d', d');
  }

  /** The largest of both ratios over two items, from the smaller and the larger one. */
  lemma ExtremesDecide(sq: real, small: real, large: real, last: real)
    requires sq > 0.0 && 0.0 < small <= large && last > 0.0
    ensures Max(Max(sq / small, large / sq), Max(sq / last, last / sq)) ==
            Max(sq / Min(small, last), Max(large, last) / sq)
  {
    if small <= last {
      QuotientOrder(sq, last, sq, small);
    } else {
      QuotientOrder(sq, small, sq, last);
    }
    if large >= last {
      QuotientOrder(last, sq, large, sq);
    } else {
      QuotientOrder(large, sq, last, sq);
    }
  }

  /** tmapWorstRatio looks at every item, but only the smallest and the largest matter. */
  lemma {:induction false} WorstRatioClosed(row: seq<Item>, rowArea: real, short: real, sq: real)
    requires |row| > 0 && Positive(row) && rowArea > 0.0 && short > 0.0 && sq == Square(rowArea, short)
    ensures WorstRatio(row, rowArea, short) == Max(sq / Smallest(row), Largest(row) / sq)
    decreases |row|
  {
    var n := |row| - 1;
    RatioClosed(row[n].area, rowArea, short, sq);
    if n > 0 {
      WorstRatioClosed(row[..n], rowArea, short, sq);
      ExtremesDecide(sq, Smallest(row[..n]), Largest(row[..n]), row[n].area);
    }
  }

  // ---------------------------------------------------------------------------
  // Where the greedy loop stops
  // ---------------------------------------------------------------------------

  lemma {:induction false} GreedyFrom(items: seq<Item>, short: real, k: nat, j: nat)
    requires 1 <= k <= |items| && Positive(items) && short > 0.0 && k <= j <= RowLength(items, short, k)
    ensures PrefixWorst(items, RowLength(items, short, k), short) <= PrefixWorst(items, j, short) <= PrefixWorst(items, k, short)
    decreases |items| - k
  {
    if k < RowLength(items, short, k) {
      GreedyFrom(items, short, k + 1, if j == k then k + 1 else j);
    }
  }

  lemma {:induction false} GreedyEnds(items: seq<Item>, short: real, k: nat)
    requires 1 <= k <= |items| && Positive(items) && short > 0.0
    ensures var n := RowLength(items, short, k);
            n < |items| ==> PrefixWorst(items, n, short) < PrefixWorst(items, n + 1, short)
    decreases |items| - k
  {
    if k < RowLength(items, short, k) {
      GreedyEnds(items, short, k + 1);
    }
  }

  lemma {:induction false} GreedyFalls(items: seq<Item>, short: real, k: nat, j: nat)
    requires 1 <= k <= j < |items| && Positive(items) && short > 0.0 && j < RowLength(items, short, k)
    ensures PrefixWorst(items, j + 1, short) <= PrefixWorst(items, j, short)
    decreases |items| - k
  {
    if k < j {
      GreedyFalls(items, short, k + 1, j);
    }
  }

  /** The row is a non-empty prefix, no worse than any shorter one, and strictly better
      than with one more item. */
  lemma {:induction false} GreedyStops(items: seq<Item>, short: real, k: nat)
    requires 1 <= k <= |items| && Positive(items) && short > 0.0
    ensures var n := RowLength(items, short, k);
            (forall j :: k <= j <= n ==> PrefixWorst(items, n, short) <= PrefixWorst(items, j, short)) &&
            (n < |items| ==> PrefixWorst(items, n, short) < PrefixWorst(items, n + 1, short))
  {
    var n := RowLength(items, short, k);
    GreedyEnds(items, short, k);
    forall j | k <= j <= n
      ensures PrefixWorst(items, n, short) <= PrefixWorst(items, j, short)
    {
      GreedyFrom(items, short, k, j);
    }
  }

  /** One more item makes the row of the first j items worse. */
  ghost predicate Worsens(items: seq<Item>, short: real, j: nat)
    requires 1 <= j < |items| && Positive(items) && short > 0.0
  {
    PrefixWorst(items, j + 1, short) > PrefixWorst(items, j, short)
  }

  /** It is the first length at which one more item would make the row worse, or all the items. */
  lemma {:induction false} GreedyIsFirst(items: seq<Item>, short: real, n: nat)
    requires 1 <= n <= |items| && Positive(items) && short > 0.0
    ensures n == RowLength(items, short, 1) <==>
            (n == |items| || Worsens(items, short, n)) && forall j :: 1 <= j < n ==> !Worsens(items, short, j)
  {
    var m := RowLength(items, short, 1);
    GreedyEnds(items, short, 1);
    forall j | 1 <= j < m
      ensures !Worsens(items, short, j)
    {
      GreedyFalls(items, short, 1, j);
    }
    assert m < |items| ==> Worsens(items, short, m);
    assert n < m ==> !Worsens(items, short, n);
  }

  /** The order in which the page sorts the items. */
  ghost predicate Descending(items: seq<Item>) {
    forall i, j :: 0 <= i < j < |items| ==> items[i].area >= items[j].area
  }

  function PrefixSquare(items: seq<Item>, k: nat, short: real): (sq: real)
    requires 1 <= k <= |items| && Positive(items) && short > 0.0
    ensures sq > 0.0
  {
    Square(Total(items[..k]), short)
  }

  lemma DescendingPrefixWorst(items: seq<Item>, k: nat, short: real)
    requires 1 <= k <= |items| && Positive(items) && Descending(items) && short > 0.0
    ensures var sq := PrefixSquare(items, k, short);
            PrefixWorst(items, k, short) == Max(sq / items[k - 1].area, items[0].area / sq)
  {
    var row := items[..k];
    WorstRatioClosed(row, Total(row), short, PrefixSquare(items, k, short));
    assert Smallest(row) == row[k - 1].area == items[k - 1].area;
    assert Largest(row) == row[0].area == items[0].area;
  }

  lemma SquareOrder(t: real, t': real)
    requires 0.0 < t <= t'
    ensures t * t <= t' * t'
  {
    MulOrder(t, t', t);
    MulOrder(t, t', t');
  }

  lemma SquareGrows(items: seq<Item>, k: nat, j: nat, short: real)
    requires 1 <= k <= j <= |items| && Positive(items) && short > 0.0
    ensures PrefixSquare(items, k, short) <= PrefixSquare(items, j, short)
  {
    assert items[..j] == items[..k] + items[k..j];
    TotalSplit(items[..k], items[k..j]);
    var a, b := Total(items[..k]), Total(items[..j]);
    DivPositive(a, short);
    QuotientOrder(a, short, b, short);
    SquareOrder(a / short, b / short);
  }

  /** For items in descending order the first worse row ends the search for good: the
      greedy row is the best among all non-empty prefixes, longer ones included. */
  lemma {:induction false} GreedyIsBest(items: seq<Item>, short: real, j: nat)
    requires 1 <= j <= |items| && Positive(items) && Descending(items) && short > 0.0
    ensures PrefixWorst(items, RowLength(items, short, 1), short) <= PrefixWorst(items, j, short)
  {
    var n := RowLength(items, short, 1);
    GreedyStops(items, short, 1);
    if j > n {
      var (sq, sq', sq'') := (PrefixSquare(items, n, short), PrefixSquare(items, n + 1, short), PrefixSquare(items, j, short));
      DescendingPrefixWorst(items, n, short);
      DescendingPrefixWorst(items, n + 1, short);
      DescendingPrefixWorst(items, j, short);
      SquareGrows(items, n, n + 1, short);
      SquareGrows(items, n + 1, j, short);
      QuotientOrder(items[0].area, sq', items[0].area, sq);
      QuotientOrder(sq', items[n].area, sq'', items[j - 1].area);
    }
  }
}
