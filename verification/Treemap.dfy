/** The squarified treemap of the dataset page: a greedy row of items is laid along the
    shorter side of the frame, and the rest of the items is laid out in what remains.
    Floating-point numbers are modelled as reals. */
module Treemap {

  datatype Item = Item(name: string, pool: string, usedStr: string, area: real)

  datatype Rect = Rect(name: string, pool: string, usedStr: string, x: real, y: real, w: real, h: real)

  /** The region a layout fills. */
  datatype Frame = Frame(x: real, y: real, w: real, h: real) {
    predicate Wide() { w >= h }

    function Short(): real { Min(w, h) }

    function Long(): real { Max(w, h) }

    function Area(): real { w * h }

    /** The strip of the given thickness along the shorter side, at the frame's origin. */
    function Strip(t: real): Frame { if Wide() then Frame(x, y, t, h) else Frame(x, y, w, t) }

    /** The frame without that strip. */
    function Without(t: real): Frame { if Wide() then Frame(x + t, y, w - t, h) else Frame(x, y + t, w, h - t) }
  }

  function Max(a: real, b: real): real { if a >= b then a else b }

  function Min(a: real, b: real): real { if a <= b then a else b }

  function ToRect(item: Item, x: real, y: real, w: real, h: real): Rect {
    Rect(item.name, item.pool, item.usedStr, x, y, w, h)
  }

  ghost predicate Positive(items: seq<Item>) {
    forall i :: 0 <= i < |items| ==> items[i].area > 0.0
  }

  function Total(items: seq<Item>): (t: real)
    ensures Positive(items) ==> t >= 0.0 && (|items| > 0 ==> t > 0.0)
  {
    if items == [] then 0.0 else Total(items[..|items| - 1]) + items[|items| - 1].area
  }

  lemma {:induction false} TotalSplit(a: seq<Item>, b: seq<Item>)
    ensures Total(a + b) == Total(a) + Total(b)
  {
    if b == [] {
      assert a + b == a;
    } else {
      var n := |b| - 1;
      assert (a + b)[..|a + b| - 1] == a + b[..n];
      TotalSplit(a, b[..n]);
    }
  }

  // ---------------------------------------------------------------------------
  // Aspect ratios
  // ---------------------------------------------------------------------------

  /** Length along the shorter side of an item in a row of area `rowArea`. */
  function Length(area: real, rowArea: real, short: real): (l: real)
    requires area > 0.0 && rowArea > 0.0 && short > 0.0
    ensures l > 0.0
  {
    MulPositive(area / rowArea, short);
    (area / rowArea) * short
  }

  lemma MulPositive(a: real, b: real)
    requires a > 0.0 && b > 0.0
    ensures a * b > 0.0
  {}

  function Ratio(area: real, rowArea: real, short: real): real
    requires area > 0.0 && rowArea > 0.0 && short > 0.0
  {
    var s := rowArea / short;
    var l := Length(area, rowArea, short);
    Max(s / l, l / s)
  }

  /** tmapWorstRatio: the largest aspect ratio in a row with the given areas. */
  function WorstRatio(row: seq<Item>, rowArea: real, short: real): real
    requires |row| > 0 && Positive(row) && rowArea > 0.0 && short > 0.0
  {
    var last := Ratio(row[|row| - 1].area, rowArea, short);
    if |row| == 1 then last else Max(WorstRatio(row[..|row| - 1], rowArea, short), last)
  }

  /** Worst ratio of the row made of the first k items. */
  function PrefixWorst(items: seq<Item>, k: nat, short: real): real
    requires 1 <= k <= |items| && Positive(items) && short > 0.0
  {
    WorstRatio(items[..k], Total(items[..k]), short)
  }

  // ---------------------------------------------------------------------------
  // Layout
  // ---------------------------------------------------------------------------

  /** Number of items in the row, once its first k items are taken. */
  function RowLength(items: seq<Item>, short: real, k: nat): (n: nat)
    requires 1 <= k <= |items| && Positive(items) && short > 0.0
    ensures k <= n <= |items|
    decreases |items| - k
  {
    if k == |items| || PrefixWorst(items, k + 1, short) > PrefixWorst(items, k, short)
    then k
    else RowLength(items, short, k + 1)
  }

  /** Distance along the shorter side from the start of the row to its i-th item. */
  function Offset(row: seq<Item>, i: nat, rowArea: real, short: real): real
    requires i <= |row| && Positive(row) && rowArea > 0.0 && short > 0.0
  {
    if i == 0 then 0.0 else Offset(row, i - 1, rowArea, short) + Length(row[i - 1].area, rowArea, short)
  }

  function RowRect(row: seq<Item>, i: nat, rowArea: real, x: real, y: real, short: real, horiz: bool): Rect
    requires i < |row| && Positive(row) && rowArea > 0.0 && short > 0.0
  {
    var len := Length(row[i].area, rowArea, short);
    var off := Offset(row, i, rowArea, short);
    if horiz then ToRect(row[i], x, y + off, rowArea / short, len)
    else ToRect(row[i], x + off, y, len, rowArea / short)
  }

  function Row(row: seq<Item>, rowArea: real, x: real, y: real, short: real, horiz: bool): (rects: seq<Rect>)
    requires Positive(row) && rowArea > 0.0 && short > 0.0
  {
    seq(|row|, i requires 0 <= i < |row| => RowRect(row, i, rowArea, x, y, short, horiz))
  }

  /** The layout as a function of the items and the frame. */
  function Layout(items: seq<Item>, f: Frame): seq<Rect>
    requires Positive(items)
    decreases |items|
  {
    if items == [] || f.w < 1.0 || f.h < 1.0 then []
    else if |items| == 1 then [ToRect(items[0], f.x, f.y, f.w, f.h)]
    else
      var row := items[..RowLength(items, f.Short(), 1)];
      Row(row, Total(row), f.x, f.y, f.Short(), f.Wide()) + Layout(items[|row|..], f.Without(Total(row) / f.Short()))
  }

  /** The greedy loop of tmapLayout. `best` needs no infinite starting value, because it
      is only compared once the row has an item. */
  method TakeRow(items: seq<Item>, short: real) returns (row: seq<Item>, rowArea: real)
    requires Positive(items) && |items| > 0 && short > 0.0
    ensures row == items[..RowLength(items, short, 1)] && rowArea == Total(row)
  {
    row, rowArea := [], 0.0;
    var best := 0.0;
    var i := 0;
    while i < |items|
      invariant 0 <= i <= |items|
      invariant row == items[..i] && rowArea == Total(row)
      invariant i > 0 ==> best == PrefixWorst(items, i, short)
      invariant i > 0 ==> RowLength(items, short, 1) == RowLength(items, short, i)
    {
      var cand := row + [items[i]];
      assert cand == items[..i + 1] && cand[..i] == row;
      var ca := rowArea + items[i].area;
      var r := WorstRatio(cand, ca, short);
      if |row| > 0 && r > best {
        break;
      }
      row, rowArea, best := cand, ca, r;
      i := i + 1;
    }
  }

  /** The placing loop of tmapLayout: `pos` walks along the shorter side. */
  method PlaceRow(row: seq<Item>, rowArea: real, x: real, y: real, short: real, horiz: bool) returns (rects: seq<Rect>)
    requires Positive(row) && rowArea > 0.0 && short > 0.0
    ensures rects == Row(row, rowArea, x, y, short, horiz)
  {
    rects := [];
    var rowW := rowArea / short;
    var pos := if horiz then y else x;
    for j := 0 to |row|
      invariant |rects| == j
      invariant pos == (if horiz then y else x) + Offset(row, j, rowArea, short)
      invariant forall m :: 0 <= m < j ==> rects[m] == RowRect(row, m, rowArea, x, y, short, horiz)
    {
      var len := Length(row[j].area, rowArea, short);
      rects := rects + [if horiz then ToRect(row[j], x, pos, rowW, len) else ToRect(row[j], pos, y, len, rowW)];
      pos := pos + len;
    }
  }

  /** tmapLayout: the row, then the rest in what is left of the frame. */
  method TmapLayout(items: seq<Item>, x: real, y: real, w: real, h: real) returns (rects: seq<Rect>)
    requires Positive(items)
    ensures rects == Layout(items, Frame(x, y, w, h))
    decreases |items|, 0
  {
    if items == [] || w < 1.0 || h < 1.0 {
      return [];
    }
    if |items| == 1 {
      return [ToRect(items[0], x, y, w, h)];
    }
    var short := Min(w, h);
    var row, rowArea := TakeRow(items, short);
    rects := PlaceRow(row, rowArea, x, y, short, w >= h);
    var more := TmapRest(items[|row|..], x, y, w, h, rowArea / short);
    LayoutRest(items, Frame(x, y, w, h), row, rects, more);
    rects := rects + more;
  }

  /** The recursive calls of tmapLayout: beside the row, or below it. */
  method TmapRest(rest: seq<Item>, x: real, y: real, w: real, h: real, rowW: real) returns (rects: seq<Rect>)
    requires Positive(rest)
    ensures rects == Layout(rest, Frame(x, y, w, h).Without(rowW))
    decreases |rest|, 1
  {
    if rest == [] {
      rects := [];
    } else if w >= h {
      rects := TmapLayout(rest, x + rowW, y, w - rowW, h);
    } else {
      rects := TmapLayout(rest, x, y + rowW, w, h - rowW);
    }
  }

  lemma LayoutRest(items: seq<Item>, f: Frame, row: seq<Item>, first: seq<Rect>, more: seq<Rect>)
    requires Positive(items) && |items| > 1 && f.w >= 1.0 && f.h >= 1.0
    requires row == items[..RowLength(items, f.Short(), 1)] && first == Row(row, Total(row), f.x, f.y, f.Short(), f.Wide())
    requires more == Layout(items[|row|..], f.Without(Total(row) / f.Short()))
    ensures first + more == Layout(items, f)
  {}

  lemma Distribute(a: real, b: real, d: real, f: real)
    requires d > 0.0
    ensures (a + b) / d * f == a / d * f + b / d * f
  {
    assert (a + b) / d == a / d + b / d;
  }

  lemma {:induction false} OffsetIsShare(row: seq<Item>, i: nat, rowArea: real, short: real)
    requires i <= |row| && Positive(row) && rowArea > 0.0 && short > 0.0
    ensures Offset(row, i, rowArea, short) == Total(row[..i]) / rowArea * short
  {
    if i > 0 {
      OffsetIsShare(row, i - 1, rowArea, short);
      assert row[..i][..i - 1] == row[..i - 1];
      Distribute(Total(row[..i - 1]), row[i - 1].area, rowArea, short);
    }
  }

  // ---------------------------------------------------------------------------
  // Geometry: the rectangles tile the frame
  // ---------------------------------------------------------------------------

  ghost predicate Inside(r: Rect, f: Frame) {
    f.x <= r.x && r.x + r.w <= f.x + f.w && f.y <= r.y && r.y + r.h <= f.y + f.h
  }

  /** The interiors do not meet. */
  ghost predicate Apart(a: Rect, b: Rect) {
    a.x + a.w <= b.x || b.x + b.w <= a.x || a.y + a.h <= b.y || b.y + b.h <= a.y
  }

  /** r shows the item, with exactly its area. */
  ghost predicate Shows(r: Rect, item: Item) {
    r.name == item.name && r.pool == item.pool && r.usedStr == item.usedStr &&
    r.w > 0.0 && r.h > 0.0 && r.w * r.h == item.area
  }

  /** rects show the first items, in order, inside the frame and without overlap. */
  ghost predicate Tiles(rects: seq<Rect>, items: seq<Item>, f: Frame) {
    |rects| <= |items| &&
    (forall i :: 0 <= i < |rects| ==> Shows(rects[i], items[i]) && Inside(rects[i], f)) &&
    (forall i, j :: 0 <= i < j < |rects| ==> Apart(rects[i], rects[j]))
  }

  lemma ThicknessTimesLength(area: real, rowArea: real, short: real)
    requires area > 0.0 && rowArea > 0.0 && short > 0.0
    ensures rowArea / short * Length(area, rowArea, short) == area
    ensures rowArea / short > 0.0 && rowArea / short * short == rowArea
  {
    var t := rowArea / short;
    var p := area / rowArea;
    assert t * short == rowArea && p * rowArea == area;
    calc {
      t * (p * short);
      (t * short) * p;
      area;
    }
  }

  lemma {:induction false} OffsetMonotone(row: seq<Item>, i: nat, j: nat, rowArea: real, short: real)
    requires i <= j <= |row| && Positive(row) && rowArea > 0.0 && short > 0.0
    ensures Offset(row, i, rowArea, short) <= Offset(row, j, rowArea, short)
    decreases j
  {
    if i < j {
      OffsetMonotone(row, i, j - 1, rowArea, short);
    }
  }

  lemma Whole(t: real, short: real)
    requires t > 0.0
    ensures t / t * short == short
  {
    assert t / t == 1.0;
  }

  /** Offsets grow along the row, from 0 to the whole shorter side. */
  lemma {:induction false} OffsetBounds(row: seq<Item>, i: nat, j: nat, short: real)
    requires Positive(row) && i <= j <= |row| && |row| > 0 && short > 0.0
    ensures 0.0 <= Offset(row, i, Total(row), short) <= Offset(row, j, Total(row), short) <= short
  {
    var t := Total(row);
    OffsetMonotone(row, 0, i, t, short);
    OffsetMonotone(row, i, j, t, short);
    OffsetMonotone(row, j, |row|, t, short);
    OffsetIsShare(row, |row|, t, short);
    assert row[..|row|] == row;
    Whole(t, short);
  }

  lemma ToRectShows(item: Item, x: real, y: real, w: real, h: real)
    requires w > 0.0 && h > 0.0 && (w * h == item.area || h * w == item.area)
    ensures Shows(ToRect(item, x, y, w, h), item)
  {}

  lemma RowRectShows(row: seq<Item>, i: nat, rowArea: real, x: real, y: real, short: real, horiz: bool)
    requires Positive(row) && i < |row| && rowArea > 0.0 && short > 0.0
    ensures Shows(RowRect(row, i, rowArea, x, y, short, horiz), row[i])
  {
    var (t, l, o) := (rowArea / short, Length(row[i].area, rowArea, short), Offset(row, i, rowArea, short));
    ThicknessTimesLength(row[i].area, rowArea, short);
    if horiz {
      ToRectShows(row[i], x, y + o, t, l);
    } else {
      ToRectShows(row[i], x + o, y, l, t);
    }
  }

  lemma {:induction false} RowRectInside(row: seq<Item>, i: nat, f: Frame, t: real)
    requires Positive(row) && i < |row| && f.Short() > 0.0 && t == Total(row) / f.Short()
    ensures Inside(RowRect(row, i, Total(row), f.x, f.y, f.Short(), f.Wide()), f.Strip(t))
  {
    OffsetBounds(row, i, i + 1, f.Short());
  }

  lemma RowRectsApart(row: seq<Item>, i: nat, j: nat, rowArea: real, x: real, y: real, short: real, horiz: bool)
    requires Positive(row) && i < j < |row| && rowArea > 0.0 && short > 0.0
    ensures Apart(RowRect(row, i, rowArea, x, y, short, horiz), RowRect(row, j, rowArea, x, y, short, horiz))
  {
    OffsetMonotone(row, i + 1, j, rowArea, short);
  }

  lemma {:induction false} RowTiles(row: seq<Item>, f: Frame, t: real)
    requires Positive(row) && |row| > 0 && f.Short() > 0.0 && t == Total(row) / f.Short()
    ensures Tiles(Row(row, Total(row), f.x, f.y, f.Short(), f.Wide()), row, f.Strip(t))
  {
    var rects := Row(row, Total(row), f.x, f.y, f.Short(), f.Wide());
    forall i | 0 <= i < |row|
      ensures Shows(rects[i], row[i]) && Inside(rects[i], f.Strip(t))
    {
      RowRectShows(row, i, Total(row), f.x, f.y, f.Short(), f.Wide());
      RowRectInside(row, i, f, t);
    }
    forall i, j | 0 <= i < j < |row|
      ensures Apart(rects[i], rects[j])
    {
      RowRectsApart(row, i, j, Total(row), f.x, f.y, f.Short(), f.Wide());
    }
  }

  /** Tilings of the strip and of the frame without it make a tiling of the frame. */
  lemma TilesJoin(r1: seq<Rect>, r2: seq<Rect>, items: seq<Item>, f: Frame, t: real)
    requires |r1| <= |items| && 0.0 <= t <= f.Long()
    requires Tiles(r1, items[..|r1|], f.Strip(t)) && Tiles(r2, items[|r1|..], f.Without(t))
    ensures Tiles(r1 + r2, items, f)
  {
    var k := |r1|;
    var r := r1 + r2;
    forall i | 0 <= i < |r|
      ensures Shows(r[i], items[i]) && Inside(r[i], f)
    {
      if i < k {
        assert r[i] == r1[i] && items[i] == items[..k][i];
      } else {
        assert r[i] == r2[i - k] && items[i] == items[k..][i - k];
      }
    }
    forall i, j | 0 <= i < j < |r|
      ensures Apart(r[i], r[j])
    {
      if j < k {
        assert r[i] == r1[i] && r[j] == r1[j];
      } else if i < k {
        assert r[i] == r1[i] && r[j] == r2[j - k];
      } else {
        assert r[i] == r2[i - k] && r[j] == r2[j - k];
      }
    }
  }

  lemma NotNegative(a: real, b: real)
    requires a * b >= 0.0 && b > 0.0
    ensures a >= 0.0
  {}

  /** What remains beside the row is a frame whose area is the total of the rest. */
  lemma RestFillsRest(rowArea: real, restArea: real, f: Frame, t: real)
    requires rowArea > 0.0 && restArea >= 0.0 && f.Short() > 0.0
    requires rowArea + restArea == f.Area() && t == rowArea / f.Short()
    ensures 0.0 < t <= f.Long()
    ensures restArea == f.Without(t).Area()
  {
    assert t * f.Short() == rowArea;
    assert restArea == (f.Long() - t) * f.Short();
    NotNegative(f.Long() - t, f.Short());
  }

  lemma Shrinks(a: real, b: real)
    requires a < 1.0 && b > 0.0
    ensures a * b < b
  {
    MulPositive(1.0 - a, b);
  }

  lemma PositiveFactors(a: real, b: real)
    requires a >= 0.0 && b >= 0.0 && a * b > 0.0
    ensures a > 0.0 && b > 0.0
  {}

  lemma ThinFrame(w: real, h: real, area: real)
    requires w >= 0.0 && h >= 0.0 && area == w * h > 0.0 && (w < 1.0 || h < 1.0)
    ensures area < Max(w, h)
  {
    PositiveFactors(w, h);
    if w < 1.0 {
      Shrinks(w, h);
    } else {
      Shrinks(h, w);
    }
  }

  /** Tilings of the strip and of the frame without it, and what the latter leaves out. */
  lemma RowThenRest(items: seq<Item>, f: Frame, t: real, first: seq<Rect>, more: seq<Rect>)
    requires |first| <= |items| && 0.0 < t <= f.Long() && f.Short() > 0.0
    requires Tiles(first, items[..|first|], f.Strip(t)) && Tiles(more, items[|first|..], f.Without(t))
    requires |first| < |items| ==> Total(items[|first|..][|more|..]) < f.Without(t).Long()
    ensures Tiles(first + more, items, f)
    ensures Total(items[|first + more|..]) < f.Long()
  {
    TilesJoin(first, more, items, f, t);
    assert items[|first + more|..] == items[|first|..][|more|..];
  }

  /** The main geometric result: the rectangles tile the frame, and the items the
      one-pixel cutoff drops are a suffix, smaller in total than the longer side. */
  lemma {:induction false} LayoutTiles(items: seq<Item>, f: Frame)
    requires Positive(items) && f.w >= 0.0 && f.h >= 0.0 && Total(items) == f.Area()
    ensures Tiles(Layout(items, f), items, f)
    ensures items != [] ==> Total(items[|Layout(items, f)|..]) < f.Long()
    decreases |items|
  {
    if items == [] {
    } else if f.w < 1.0 || f.h < 1.0 {
      assert items[0..] == items;
      ThinFrame(f.w, f.h, Total(items));
    } else if |items| == 1 {
      assert Total(items) == items[0].area by { assert items[..0] == []; }
    } else {
      var k := RowLength(items, f.Short(), 1);
      var t := Total(items[..k]) / f.Short();
      RestFits(items, f, k, t);
      LayoutTiles(items[k..], f.Without(t));
      RowAndRest(items, f, k, t);
    }
  }

  lemma {:induction false} RestFits(items: seq<Item>, f: Frame, k: nat, t: real)
    requires Positive(items) && 0 < k <= |items| && f.Short() > 0.0 && Total(items) == f.Area()
    requires t == Total(items[..k]) / f.Short()
    ensures 0.0 < t <= f.Long() && Total(items[k..]) == f.Without(t).Area()
  {
    assert items == items[..k] + items[k..];
    TotalSplit(items[..k], items[k..]);
    RestFillsRest(Total(items[..k]), Total(items[k..]), f, t);
  }

  lemma {:induction false} RowAndRest(items: seq<Item>, f: Frame, k: nat, t: real)
    requires Positive(items) && |items| > 1 && f.w >= 1.0 && f.h >= 1.0 && k == RowLength(items, f.Short(), 1)
    requires t == Total(items[..k]) / f.Short() && 0.0 < t <= f.Long()
    requires Tiles(Layout(items[k..], f.Without(t)), items[k..], f.Without(t))
    requires k < |items| ==> Total(items[k..][|Layout(items[k..], f.Without(t))|..]) < f.Without(t).Long()
    ensures Tiles(Layout(items, f), items, f) && Total(items[|Layout(items, f)|..]) < f.Long()
  {
    var row := items[..k];
    RowTiles(row, f, t);
    var first, more := Row(row, Total(row), f.x, f.y, f.Short(), f.Wide()), Layout(items[k..], f.Without(t));
    RowThenRest(items, f, t, first, more);
    LayoutRest(items, f, row, first, more);
  }

  // ---------------------------------------------------------------------------
  // Where every rectangle is, and where the layout ends
  // ---------------------------------------------------------------------------

  /** Nothing is drawn exactly if there is nothing to draw or a side is below one pixel. */
  lemma {:induction false} LayoutEmpty(items: seq<Item>, f: Frame)
    requires Positive(items)
    ensures Layout(items, f) == [] <==> items == [] || f.w < 1.0 || f.h < 1.0
  {}

  /** The rectangles of a row start at the frame's corner and follow one another along its shorter side to
      the end; all are as thick as the row's area asks. */
  ghost predicate RunsAlong(rects: seq<Rect>, f: Frame, t: real) {
    |rects| > 0 &&
    if f.w >= f.h then
      rects[0].y == f.y && (forall i :: 0 <= i < |rects| ==> rects[i].x == f.x && rects[i].w == t) &&
      (forall i :: 0 < i < |rects| ==> rects[i].y == rects[i - 1].y + rects[i - 1].h) &&
      rects[|rects| - 1].y + rects[|rects| - 1].h == f.y + f.h
    else
      rects[0].x == f.x && (forall i :: 0 <= i < |rects| ==> rects[i].y == f.y && rects[i].h == t) &&
      (forall i :: 0 < i < |rects| ==> rects[i].x == rects[i - 1].x + rects[i - 1].w) &&
      rects[|rects| - 1].x + rects[|rects| - 1].w == f.x + f.w
  }

  /** The frame without a strip of thickness t at its origin, across the longer side. */
  function Beside(f: Frame, t: real): Frame {
    if f.w >= f.h then Frame(f.x + t, f.y, f.w - t, f.h) else Frame(f.x, f.y + t, f.w, f.h - t)
  }

  lemma RowStep(row: seq<Item>, i: nat, rowArea: real, x: real, y: real, short: real, horiz: bool)
    requires 0 < i < |row| && Positive(row) && rowArea > 0.0 && short > 0.0
    ensures var (before, r) := (RowRect(row, i - 1, rowArea, x, y, short, horiz), RowRect(row, i, rowArea, x, y, short, horiz));
            if horiz then r.y == before.y + before.h else r.x == before.x + before.w
  {}

  lemma {:induction false} OffsetEnd(row: seq<Item>, short: real)
    requires Positive(row) && |row| > 0 && short > 0.0
    ensures Offset(row, |row|, Total(row), short) == short
  {
    var t := Total(row);
    OffsetIsShare(row, |row|, t, short);
    assert row[..|row|] == row;
    Whole(t, short);
  }

  lemma {:induction false} RowEnd(row: seq<Item>, rowArea: real, x: real, y: real, short: real, horiz: bool)
    requires Positive(row) && |row| > 0 && rowArea > 0.0 && short > 0.0 && Offset(row, |row|, rowArea, short) == short
    ensures var r := RowRect(row, |row| - 1, rowArea, x, y, short, horiz);
            if horiz then r.y + r.h == y + short else r.x + r.w == x + short
  {}

  lemma {:induction false} RowRuns(row: seq<Item>, f: Frame, t: real)
    requires Positive(row) && |row| > 0 && f.Short() > 0.0 && t == Total(row) / f.Short()
    ensures RunsAlong(Row(row, Total(row), f.x, f.y, f.Short(), f.Wide()), f, t)
  {
    var rects := Row(row, Total(row), f.x, f.y, f.Short(), f.Wide());
    forall i | 0 < i < |rects|
      ensures if f.w >= f.h then rects[i].y == rects[i - 1].y + rects[i - 1].h else rects[i].x == rects[i - 1].x + rects[i - 1].w
    {
      RowStep(row, i, Total(row), f.x, f.y, f.Short(), f.Wide());
    }
    OffsetEnd(row, f.Short());
    RowEnd(row, Total(row), f.x, f.y, f.Short(), f.Wide());
  }

  /** The first rectangles are a row along the shorter side; the others are the layout beside it. */
  lemma {:induction false} LayoutRows(items: seq<Item>, f: Frame)
    requires Positive(items) && |items| > 1 && f.w >= 1.0 && f.h >= 1.0
    ensures var n := RowLength(items, Min(f.w, f.h), 1);
            var t := Total(items[..n]) / Min(f.w, f.h);
            |Layout(items, f)| >= n && RunsAlong(Layout(items, f)[..n], f, t) &&
            Layout(items, f)[n..] == Layout(items[n..], Beside(f, t))
  {
    var n := RowLength(items, f.Short(), 1);
    var t := Total(items[..n]) / f.Short();
    RowRuns(items[..n], f, t);
    var first := Row(items[..n], Total(items[..n]), f.x, f.y, f.Short(), f.Wide());
    assert Layout(items, f) == first + Layout(items[n..], f.Without(t));
  }

  /** g is what is left of the frame when the first k items are in whole rows. */
  ghost predicate Region(items: seq<Item>, f: Frame, k: nat, g: Frame)
    requires Positive(items)
    decreases |items|
  {
    if k == 0 then g == f
    else
      |items| > 1 && Min(f.w, f.h) > 0.0 &&
      var n := RowLength(items, Min(f.w, f.h), 1);
      n <= k && Region(items[n..], Beside(f, Total(items[..n]) / Min(f.w, f.h)), k - n, g)
  }

  /** Items are lost exactly from the first region on that has a side below one pixel. */
  lemma {:induction false} LostWhereThin(items: seq<Item>, f: Frame, k: nat, g: Frame)
    requires Positive(items) && k < |items| && Region(items, f, k, g)
    ensures |Layout(items, f)| == k ==> g.w < 1.0 || g.h < 1.0
    ensures |Layout(items, f)| > k ==> g.w >= 1.0 && g.h >= 1.0
    decreases |items|
  {
    LayoutEmpty(items, f);
    if k > 0 && f.w >= 1.0 && f.h >= 1.0 {
      var n := RowLength(items, Min(f.w, f.h), 1);
      var beside := Beside(f, Total(items[..n]) / Min(f.w, f.h));
      LayoutRows(items, f);
      LostWhereThin(items[n..], beside, k - n, g);
    }
  }

  /** Whenever items are lost there is such a region. */
  lemma {:induction false} LostSomewhere(items: seq<Item>, f: Frame) returns (g: Frame)
    requires Positive(items) && |Layout(items, f)| < |items|
    ensures Region(items, f, |Layout(items, f)|, g) && (g.w < 1.0 || g.h < 1.0)
    decreases |items|
  {
    LayoutEmpty(items, f);
    if f.w < 1.0 || f.h < 1.0 {
      g := f;
    } else {
      var n := RowLength(items, Min(f.w, f.h), 1);
      LayoutRows(items, f);
      g := LostSomewhere(items[n..], Beside(f, Total(items[..n]) / Min(f.w, f.h)));
    }
  }
}
