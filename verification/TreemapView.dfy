/** The storage map: dataset sizes in bytes scaled to the drawing, then laid out. */
module TreemapView {
  import opened Treemap
  import opened TreemapGreedy

  const MAP_HEIGHT: real := 260.0

  /** The area a size gets when `total` bytes share the whole drawing. */
  function AreaOf(total: real, area: real): real -> real
    requires total > 0.0
  {
    size => size / total * area
  }

  function MapAreas(items: seq<Item>, g: real -> real): (scaled: seq<Item>)
    ensures |scaled| == |items|
  {
    if items == [] then []
    else MapAreas(items[..|items| - 1], g) + [items[|items| - 1].(area := g(items[|items| - 1].area))]
  }

  lemma {:induction false} MapAreasAt(items: seq<Item>, g: real -> real, i: nat)
    requires i < |items|
    ensures MapAreas(items, g)[i] == items[i].(area := g(items[i].area))
    decreases |items|
  {
    if i < |items| - 1 {
      MapAreasAt(items[..|items| - 1], g, i);
    }
  }

  /** The items as the map lays them out. */
  function Scaled(items: seq<Item>, f: Frame): seq<Item>
    requires Positive(items) && items != []
  {
    MapAreas(items, AreaOf(Total(items), f.Area()))
  }

  function MapFrame(width: real): Frame { Frame(0.0, 0.0, width, MAP_HEIGHT) }

  function StorageRects(items: seq<Item>, width: real): seq<Rect>
    requires Positive(items)
  {
    if width < 10.0 || items == [] || Total(items) == 0.0 then []
    else
      MulPositive(width, MAP_HEIGHT);
      AreaOfScales(Total(items), MapFrame(width).Area());
      MappedPositive(items, AreaOf(Total(items), MapFrame(width).Area()));
      Layout(Scaled(items, MapFrame(width)), MapFrame(width))
  }

  // ---------------------------------------------------------------------------
  // What the proofs need of a scaling function
  // ---------------------------------------------------------------------------

  ghost predicate Adds(g: real -> real, a: real, b: real) { g(a + b) == g(a) + g(b) }

  ghost predicate Keeps(g: real -> real, a: real, b: real) { a <= b ==> g(a) <= g(b) }

  ghost predicate Scaling(g: real -> real) {
    g(0.0) == 0.0 && (forall a, b :: Adds(g, a, b)) && (forall a, b :: Keeps(g, a, b)) &&
    (forall a :: a > 0.0 ==> g(a) > 0.0)
  }

  lemma MulDivOrder(a: real, b: real, total: real, area: real)
    requires a <= b && total > 0.0 && area > 0.0
    ensures a / total * area <= b / total * area
  {
    var p, q := a / total, b / total;
    assert p * total == a && q * total == b;
    assert (q - p) * total == b - a;
    NotNegative(q - p, total);
    MulOrder(p, q, area);
  }

  lemma AreaOfScales(total: real, area: real)
    requires total > 0.0 && area > 0.0
    ensures Scaling(AreaOf(total, area))
  {
    var g := AreaOf(total, area);
    assert g(0.0) == 0.0 by { assert 0.0 / total == 0.0; }
    forall a, b ensures Adds(g, a, b) { Distribute(a, b, total, area); }
    forall a, b ensures Keeps(g, a, b) { if a <= b { MulDivOrder(a, b, total, area); } }
    forall a | a > 0.0 ensures g(a) > 0.0 {
      DivPositive(a, total);
      MulPositive(a / total, area);
    }
  }

  lemma {:induction false} TotalMapped(items: seq<Item>, g: real -> real)
    requires Scaling(g)
    ensures Total(MapAreas(items, g)) == g(Total(items))
    decreases |items|
  {
    if items != [] {
      var n := |items| - 1;
      TotalMapped(items[..n], g);
      assert MapAreas(items, g)[..n] == MapAreas(items[..n], g);
      assert Adds(g, Total(items[..n]), items[n].area);
    }
  }

  lemma {:induction false} MappedPositive(items: seq<Item>, g: real -> real)
    requires Scaling(g) && Positive(items)
    ensures Positive(MapAreas(items, g))
  {
    forall i | 0 <= i < |items|
      ensures MapAreas(items, g)[i].area > 0.0
    {
      MapAreasAt(items, g, i);
    }
  }

  /** Scaling keeps the descending order, so the greedy rows of the map are the best ones. */
  lemma {:induction false} MappedDescending(items: seq<Item>, g: real -> real)
    requires Scaling(g) && Descending(items)
    ensures Descending(MapAreas(items, g))
  {
    forall i, j | 0 <= i < j < |items|
      ensures MapAreas(items, g)[i].area >= MapAreas(items, g)[j].area
    {
      MapAreasAt(items, g, i);
      MapAreasAt(items, g, j);
      assert Keeps(g, items[j].area, items[i].area);
    }
  }

  lemma ProductPositive(a: real, b: real)
    requires a * b > 0.0 && b > 0.0
    ensures a > 0.0
  {}

  /** A loss below the longer side, as a share of the whole area. */
  lemma LostShare(lost: real, total: real, short: real, long: real, factor: real)
    requires total > 0.0 && factor > 0.0 && short > 0.0
    requires total * factor == short * long && lost * factor < long
    ensures lost * short < total
  {
    MulPositive(long - lost * factor, short);
    assert (total - lost * short) * factor == (long - lost * factor) * short;
    ProductPositive(total - lost * short, factor);
  }

  lemma Factor(a: real, total: real, area: real, factor: real)
    requires total > 0.0 && factor == area / total
    ensures a / total * area == a * factor
  {
    var p := a / total;
    assert p * total == a && factor * total == area;
    assert p * (factor * total) == (p * total) * factor;
  }

  /** Less than one part in n of the total. */
  ghost predicate LessThanOneIn(n: real, lost: real, total: real) { lost * n < total }

  lemma LostBytes(lost: real, total: real, f: Frame)
    requires total > 0.0 && f.Area() > 0.0 && f.Short() > 0.0
    requires AreaOf(total, f.Area())(lost) < f.Long()
    ensures LessThanOneIn(f.Short(), lost, total)
  {
    var factor := f.Area() / total;
    DivPositive(f.Area(), total);
    Factor(lost, total, f.Area(), factor);
    LostShare(lost, total, f.Short(), f.Long(), factor);
  }

  lemma AreaOfWhole(total: real, area: real)
    requires total > 0.0
    ensures AreaOf(total, area)(total) == area
  {
    Whole(total, area);
  }

  lemma {:induction false} MappedFills(items: seq<Item>, g: real -> real, area: real)
    requires Positive(items) && Scaling(g) && g(Total(items)) == area
    ensures Positive(MapAreas(items, g)) && Total(MapAreas(items, g)) == area
  {
    MappedPositive(items, g);
    TotalMapped(items, g);
  }

  lemma MapFills(items: seq<Item>, f: Frame)
    requires Positive(items) && items != [] && f.Area() > 0.0
    ensures Positive(Scaled(items, f)) && Total(Scaled(items, f)) == f.Area()
  {
    AreaOfScales(Total(items), f.Area());
    AreaOfWhole(Total(items), f.Area());
    MappedFills(items, AreaOf(Total(items), f.Area()), f.Area());
  }

  lemma {:induction false} SuffixTotal(items: seq<Item>, g: real -> real, k: nat)
    requires Scaling(g) && k <= |items|
    ensures Total(MapAreas(items, g)[k..]) == g(Total(items[k..]))
  {
    forall i | 0 <= i < |items| - k
      ensures MapAreas(items, g)[k + i] == MapAreas(items[k..], g)[i]
    {
      MapAreasAt(items, g, k + i);
      MapAreasAt(items[k..], g, i);
    }
    assert MapAreas(items, g)[k..] == MapAreas(items[k..], g);
    TotalMapped(items[k..], g);
  }

  lemma {:induction false} MapLoses(items: seq<Item>, f: Frame, k: nat)
    requires Positive(items) && items != [] && k <= |items| && f.Area() > 0.0 && f.Short() > 0.0
    requires Total(Scaled(items, f)[k..]) < f.Long()
    ensures LessThanOneIn(f.Short(), Total(items[k..]), Total(items))
  {
    AreaOfScales(Total(items), f.Area());
    SuffixTotal(items, AreaOf(Total(items), f.Area()), k);
    LostBytes(Total(items[k..]), Total(items), f);
  }

  // ---------------------------------------------------------------------------
  // Every row of the map
  // ---------------------------------------------------------------------------

  /** Each row that tmapLayout makes is the best of all non-empty prefixes of what is left. */
  ghost predicate BestRows(items: seq<Item>, f: Frame)
    requires Positive(items)
    decreases |items|
  {
    items == [] || f.w < 1.0 || f.h < 1.0 || |items| == 1 ||
    var n := RowLength(items, f.Short(), 1);
    (forall j :: 1 <= j <= |items| ==> PrefixWorst(items, n, f.Short()) <= PrefixWorst(items, j, f.Short())) &&
    BestRows(items[n..], f.Without(Total(items[..n]) / f.Short()))
  }

  lemma {:induction false} DescendingBestRows(items: seq<Item>, f: Frame)
    requires Positive(items) && Descending(items)
    ensures BestRows(items, f)
    decreases |items|
  {
    if items != [] && f.w >= 1.0 && f.h >= 1.0 && |items| > 1 {
      var n := RowLength(items, f.Short(), 1);
      forall j | 1 <= j <= |items|
        ensures PrefixWorst(items, n, f.Short()) <= PrefixWorst(items, j, f.Short())
      {
        GreedyIsBest(items, f.Short(), j);
      }
      DescendingBestRows(items[n..], f.Without(Total(items[..n]) / f.Short()));
    }
  }

  /** The page sorts the datasets by size, largest first: then every row of the map is a best one. */
  lemma {:induction false} MapRowsAreBest(items: seq<Item>, width: real)
    requires Positive(items) && items != [] && Descending(items) && width >= 10.0
    ensures Positive(Scaled(items, MapFrame(width))) && BestRows(Scaled(items, MapFrame(width)), MapFrame(width))
  {
    var f := MapFrame(width);
    assert f.Area() > 0.0 by { MulPositive(width, MAP_HEIGHT); }
    var g := AreaOf(Total(items), f.Area());
    AreaOfScales(Total(items), f.Area());
    MappedPositive(items, g);
    MappedDescending(items, g);
    DescendingBestRows(Scaled(items, f), f);
  }

  /** Every dataset has its share of the area, and nothing else about it has changed. */
  ghost predicate SharesArea(scaled: seq<Item>, items: seq<Item>, area: real) {
    |scaled| == |items| &&
    forall i :: 0 <= i < |items| ==>
      scaled[i] == items[i].(area := scaled[i].area) && scaled[i].area * Total(items) == items[i].area * area
  }

  lemma ShareOf(size: real, total: real, area: real)
    requires total > 0.0
    ensures AreaOf(total, area)(size) * total == size * area
  {
    var p := size / total;
    assert p * total == size;
    assert p * area * total == p * total * area;
  }

  /** The areas drawn are the shares of the bytes. */
  lemma {:induction false} ScaledShares(items: seq<Item>, f: Frame)
    requires Positive(items) && items != []
    ensures SharesArea(Scaled(items, f), items, f.Area())
  {
    forall i | 0 <= i < |items|
      ensures Scaled(items, f)[i] == items[i].(area := AreaOf(Total(items), f.Area())(items[i].area)) &&
              Scaled(items, f)[i].area * Total(items) == items[i].area * f.Area()
    {
      MapAreasAt(items, AreaOf(Total(items), f.Area()), i);
      ShareOf(items[i].area, Total(items), f.Area());
    }
  }

  /** Below ten pixels, or without datasets, nothing is drawn. */
  lemma NoMap(items: seq<Item>, width: real)
    requires Positive(items)
    ensures StorageRects(items, width) == [] <==> width < 10.0 || items == []
  {
    if width >= 10.0 && items != [] {
      MulPositive(width, 260.0);
      MapFills(items, MapFrame(width));
      LayoutEmpty(Scaled(items, MapFrame(width)), MapFrame(width));
    }
  }

  lemma {:induction false} MapTiles(items: seq<Item>, width: real, f: Frame)
    requires Positive(items) && items != [] && width >= 10.0 && f == Frame(0.0, 0.0, width, 260.0)
    ensures Tiles(StorageRects(items, width), Scaled(items, f), f)
    ensures LessThanOneIn(f.Short(), Total(items[|StorageRects(items, width)|..]), Total(items))
  {
    assert f.Area() > 0.0 by { MulPositive(width, 260.0); }
    MapFills(items, f);
    LayoutTiles(Scaled(items, f), f);
    MapLoses(items, f, |Layout(Scaled(items, f), f)|);
  }

  /** scaled are the datasets, each with its share of the drawing; rects show the first of them in
      order, without overlap; those left out hold less than one part in min(width, 260) of the bytes. */
  ghost predicate Maps(rects: seq<Rect>, scaled: seq<Item>, items: seq<Item>, f: Frame) {
    SharesArea(scaled, items, f.Area()) && Tiles(rects, scaled, f) &&
    LessThanOneIn(f.Short(), Total(items[|rects|..]), Total(items))
  }

  lemma {:induction false} StorageMap(items: seq<Item>, width: real, f: Frame) returns (scaled: seq<Item>)
    requires Positive(items) && items != [] && width >= 10.0 && f == Frame(0.0, 0.0, width, 260.0)
    ensures Maps(StorageRects(items, width), scaled, items, f)
  {
    scaled := Scaled(items, f);
    MapTiles(items, width, f);
    ScaledShares(items, f);
  }
}
