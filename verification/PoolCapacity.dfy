/** The contiguous cut of the size-sorted candidates is the best possible split. */
module PoolCapacity {
  import opened PoolLayout
  import opened StableSort

  // ---------------------------------------------------------------------------
  // Sums compared threshold by threshold
  // ---------------------------------------------------------------------------

  ghost function Sum(s: seq<nat>): nat { if s == [] then 0 else s[0] + Sum(s[1..]) }

  /** How many numbers reach the threshold. */
  ghost function Reach(s: seq<nat>, t: nat): (n: nat)
    ensures n <= |s|
  {
    if s == [] then 0 else (if s[0] >= t then 1 else 0) + Reach(s[1..], t)
  }

  ghost function Layers(s: seq<nat>, top: nat): nat {
    if top == 0 then 0 else Layers(s, top - 1) + Reach(s, top)
  }

  lemma {:induction false} LayersCons(x: nat, s: seq<nat>, top: nat)
    ensures Layers([x] + s, top) == (if x <= top then x else top) + Layers(s, top)
    decreases top
  {
    assert ([x] + s)[1..] == s;
    if top > 0 {
      LayersCons(x, s, top - 1);
    }
  }

  lemma {:induction false} SumIsLayers(s: seq<nat>, top: nat)
    requires forall i :: 0 <= i < |s| ==> s[i] <= top
    ensures Sum(s) == Layers(s, top)
    decreases |s|
  {
    if s == [] {
      NoLayers(top);
    } else {
      SumIsLayers(s[1..], top);
      LayersCons(s[0], s[1..], top);
      assert s == [s[0]] + s[1..];
    }
  }

  lemma {:induction false} NoLayers(top: nat)
    ensures Layers([], top) == 0
    decreases top
  {
    if top > 0 {
      NoLayers(top - 1);
    }
  }

  lemma {:induction false} LayersOrder(a: seq<nat>, b: seq<nat>, top: nat)
    requires forall t: nat :: t > 0 ==> Reach(a, t) <= Reach(b, t)
    ensures Layers(a, top) <= Layers(b, top)
    decreases top
  {
    if top > 0 {
      LayersOrder(a, b, top - 1);
    }
  }

  lemma {:induction false} BoundedBySum(s: seq<nat>, i: nat)
    requires i < |s|
    ensures s[i] <= Sum(s)
    decreases |s|
  {
    if i > 0 {
      BoundedBySum(s[1..], i - 1);
    }
  }

  /** If at least as many numbers of b as of a reach every threshold, b sums to no less. */
  lemma {:induction false} SumOrder(a: seq<nat>, b: seq<nat>)
    requires forall t: nat :: t > 0 ==> Reach(a, t) <= Reach(b, t)
    ensures Sum(a) <= Sum(b)
  {
    var top := Sum(a) + Sum(b);
    forall i | 0 <= i < |a| ensures a[i] <= top { BoundedBySum(a, i); }
    forall i | 0 <= i < |b| ensures b[i] <= top { BoundedBySum(b, i); }
    SumIsLayers(a, top);
    SumIsLayers(b, top);
    LayersOrder(a, b, top);
  }

  // ---------------------------------------------------------------------------
  // Counting disks and vdevs
  // ---------------------------------------------------------------------------

  ghost function Sizes(disks: seq<Disk>): (s: seq<nat>)
    ensures |s| == |disks|
  {
    if disks == [] then [] else [disks[0].size] + Sizes(disks[1..])
  }

  /** How many disks have at least t bytes. */
  ghost function AtLeast(disks: seq<Disk>, t: nat): nat { Reach(Sizes(disks), t) }

  ghost function Minima(groups: seq<seq<Disk>>): seq<nat>
    requires forall i :: 0 <= i < |groups| ==> |groups[i]| > 0
  {
    if groups == [] then [] else [Smallest(groups[0])] + Minima(groups[1..])
  }

  lemma {:induction false} AtLeastConcat(a: seq<Disk>, b: seq<Disk>, t: nat)
    ensures AtLeast(a + b, t) == AtLeast(a, t) + AtLeast(b, t)
    decreases |a|
  {
    if a == [] {
      assert a + b == b;
    } else {
      assert (a + b)[1..] == a[1..] + b;
      AtLeastConcat(a[1..], b, t);
    }
  }

  /** Both the disks that reach the threshold and those that do not grow with the multiset. */
  lemma {:induction false} AtLeastSub(a: seq<Disk>, b: seq<Disk>, t: nat)
    requires multiset(a) <= multiset(b)
    ensures AtLeast(a, t) <= AtLeast(b, t) && |a| - AtLeast(a, t) <= |b| - AtLeast(b, t)
    decreases |a|
  {
    if a != [] {
      var i := TakeOut(a, b);
      AtLeastSub(a[1..], b[..i] + b[i + 1..], t);
      assert b == b[..i] + ([b[i]] + b[i + 1..]);
      AtLeastConcat(b[..i], [b[i]] + b[i + 1..], t);
      AtLeastConcat([b[i]], b[i + 1..], t);
      AtLeastConcat(b[..i], b[i + 1..], t);
      assert Sizes([b[i]]) == Sizes([a[0]]);
      AtLeastConcat([a[0]], a[1..], t);
    }
  }

  lemma {:induction false} AllReach(disks: seq<Disk>, t: nat)
    requires forall i :: 0 <= i < |disks| ==> disks[i].size >= t
    ensures AtLeast(disks, t) == |disks|
    decreases |disks|
  {
    if disks != [] {
      AllReach(disks[1..], t);
    }
  }

  lemma {:induction false} SomeReaches(disks: seq<Disk>, t: nat) returns (i: nat)
    requires AtLeast(disks, t) > 0
    ensures i < |disks| && disks[i].size >= t
    decreases |disks|
  {
    if disks[0].size >= t {
      i := 0;
    } else {
      i := SomeReaches(disks[1..], t);
      i := i + 1;
    }
  }

  lemma {:induction false} ReachCons(g: seq<Disk>, groups: seq<seq<Disk>>, t: nat)
    requires |g| > 0 && forall i :: 0 <= i < |groups| ==> |groups[i]| > 0
    ensures Reach(Minima([g] + groups), t) == (if Smallest(g) >= t then 1 else 0) + Reach(Minima(groups), t)
  {
    assert ([g] + groups)[1..] == groups;
    assert Minima([g] + groups)[1..] == Minima(groups);
  }

  lemma OneMoreVdev(width: nat, reach: nat, disks: nat, head: nat, reaches: bool)
    requires width * reach <= disks && (reaches ==> head == width)
    ensures width * ((if reaches then 1 else 0) + reach) <= head + disks
  {}

  /** A vdev that reaches the threshold has `width` disks that do. */
  lemma {:induction false} GroupsNeedDisks(groups: seq<seq<Disk>>, width: nat, t: nat)
    requires width > 0 && forall i :: 0 <= i < |groups| ==> |groups[i]| == width
    ensures width * Reach(Minima(groups), t) <= AtLeast(Flatten(groups), t)
    decreases |groups|
  {
    if groups != [] {
      var (g, rest) := (groups[0], groups[1..]);
      assert groups == [g] + rest;
      GroupsNeedDisks(rest, width, t);
      AtLeastConcat(g, Flatten(rest), t);
      if Smallest(g) >= t {
        AllReach(g, t);
      }
      ReachCons(g, rest, t);
      OneMoreVdev(width, Reach(Minima(rest), t), AtLeast(Flatten(rest), t), AtLeast(g, t), Smallest(g) >= t);
    }
  }

  // ---------------------------------------------------------------------------
  // The contiguous cut
  // ---------------------------------------------------------------------------

  ghost function Cut(disks: seq<Disk>, width: nat, vdevs: nat): (groups: seq<seq<Disk>>)
    requires width > 0 && |disks| == width * vdevs
    ensures |groups| == vdevs && forall i :: 0 <= i < vdevs ==> |groups[i]| == width
    ensures Flatten(groups) == disks
  {
    if vdevs == 0 then []
    else
      CutRest(width, vdevs);
      [disks[..width]] + Cut(disks[width..], width, vdevs - 1)
  }

  lemma CutRest(width: nat, vdevs: nat)
    requires vdevs > 0
    ensures width * vdevs == width + width * (vdevs - 1) && width <= width * vdevs
  {}

  /** In front of larger disks, a vdev either does not reach the threshold with all its
      disks, or everything behind it does. */
  lemma {:induction false} HeadReaches(g: seq<Disk>, rest: seq<Disk>, t: nat)
    requires |g| > 0 && Ascending(g + rest)
    ensures Smallest(g) >= t <==> AtLeast(g, t) == |g|
    ensures AtLeast(g, t) > 0 ==> AtLeast(rest, t) == |rest|
  {
    if Smallest(g) >= t {
      AllReach(g, t);
    } else {
      NotAll(g, t);
    }
    if AtLeast(g, t) > 0 {
      var i := SomeReaches(g, t);
      forall j | 0 <= j < |rest|
        ensures rest[j].size >= t
      {
        assert (g + rest)[i] == g[i] && (g + rest)[|g| + j] == rest[j];
      }
      AllReach(rest, t);
    }
  }

  lemma MulOrder(d: nat, x: nat, y: nat)
    requires x <= y
    ensures d * x <= d * y
  {}

  lemma Quotient(n: nat, d: nat, q: nat)
    requires d > 0 && d * q <= n < d * q + d
    ensures MaxVdevs(n, d) == q
  {
    var r := n / d;
    assert d * r <= n < d * r + d;
    if r < q {
      MulOrder(d, r + 1, q);
      assert false;
    } else if r > q {
      MulOrder(d, q + 1, r);
      assert false;
    }
  }

  /** The arithmetic of one more vdev in front: c of its width disks reach the threshold. */
  lemma OneMore(width: nat, vdevs: nat, c: nat, behind: nat, reaches: bool, reach: nat)
    requires width > 0 && c <= width && behind <= width * vdevs && (c > 0 ==> behind == width * vdevs)
    requires (reaches <==> c == width) && reach == MaxVdevs(behind, width)
    ensures (if reaches then 1 else 0) + reach == MaxVdevs(c + behind, width)
  {
    if c > 0 {
      Quotient(behind, width, vdevs);
      Quotient(c + behind, width, (if c == width then 1 else 0) + vdevs);
    }
  }

  /** One more vdev in front of a cut. */
  lemma {:induction false} CutReachesMore(g: seq<Disk>, rest: seq<Disk>, groups: seq<seq<Disk>>, vdevs: nat, t: nat)
    requires |g| > 0 && Ascending(g + rest) && |rest| == |g| * vdevs
    requires forall i :: 0 <= i < |groups| ==> |groups[i]| > 0
    requires Reach(Minima(groups), t) == MaxVdevs(AtLeast(rest, t), |g|)
    ensures Reach(Minima([g] + groups), t) == MaxVdevs(AtLeast(g + rest, t), |g|)
  {
    AtLeastConcat(g, rest, t);
    HeadReaches(g, rest, t);
    ReachCons(g, groups, t);
    OneMore(|g|, vdevs, AtLeast(g, t), AtLeast(rest, t), Smallest(g) >= t, Reach(Minima(groups), t));
  }

  lemma CutCons(disks: seq<Disk>, width: nat, vdevs: nat)
    requires width > 0 && vdevs > 0 && |disks| == width * vdevs
    ensures width <= |disks| && |disks[width..]| == width * (vdevs - 1)
    ensures Cut(disks, width, vdevs) == [disks[..width]] + Cut(disks[width..], width, vdevs - 1)
  {
    CutRest(width, vdevs);
  }

  lemma SplitAscending(disks: seq<Disk>, k: nat)
    requires k <= |disks| && Ascending(disks)
    ensures disks == disks[..k] + disks[k..] && Ascending(disks[k..])
  {}

  /** In a cut of ascending disks exactly as many vdevs reach the threshold as could. */
  lemma {:induction false} CutReaches(disks: seq<Disk>, width: nat, vdevs: nat, t: nat)
    requires width > 0 && |disks| == width * vdevs && Ascending(disks)
    ensures Reach(Minima(Cut(disks, width, vdevs)), t) == MaxVdevs(AtLeast(disks, t), width)
    decreases vdevs
  {
    if vdevs == 0 {
      assert AtLeast(disks, t) == 0;
      Quotient(0, width, 0);
    } else {
      CutCons(disks, width, vdevs);
      var (g, rest) := (disks[..width], disks[width..]);
      SplitAscending(disks, width);
      CutReaches(rest, width, vdevs - 1, t);
      CutReachesMore(g, rest, Cut(rest, width, vdevs - 1), vdevs - 1, t);
    }
  }

  lemma {:induction false} NotAll(disks: seq<Disk>, t: nat)
    requires |disks| > 0 && Smallest(disks) < t
    ensures AtLeast(disks, t) < |disks|
    decreases |disks|
  {
    if |disks| > 1 && disks[0].size >= t {
      NotAll(disks[1..], t);
    }
  }

  // ---------------------------------------------------------------------------
  // selectVdevs
  // ---------------------------------------------------------------------------

  lemma MulSteps(width: nat, i: nat)
    requires i > 0
    ensures (i - 1) * width + width == i * width && i * width + width == (i + 1) * width
  {}

  lemma {:induction false} CutAt(disks: seq<Disk>, width: nat, vdevs: nat, i: nat)
    requires width > 0 && |disks| == width * vdevs && i < vdevs
    ensures 0 <= i * width <= (i + 1) * width <= |disks|
    ensures Cut(disks, width, vdevs)[i] == disks[i * width..(i + 1) * width]
    decreases vdevs
  {
    SliceFits(width, i, vdevs);
    CutCons(disks, width, vdevs);
    if i > 0 {
      CutAt(disks[width..], width, vdevs - 1, i - 1);
      MulSteps(width, i);
      ShiftSlice(disks, width, (i - 1) * width, i * width);
    }
  }

  lemma ShiftSlice(disks: seq<Disk>, k: nat, a: nat, b: nat)
    requires a <= b && k + b <= |disks|
    ensures disks[k..][a..b] == disks[k + a..k + b]
  {}

  /** How many vdevs of a width the candidates allow. */
  lemma FitsMaxVdevs(n: nat, width: nat, vdevs: nat)
    requires width > 0
    ensures width * vdevs <= n <==> vdevs <= MaxVdevs(n, width)
  {
    var q := n / width;
    assert width * q <= n < width * q + width;
    if vdevs <= q {
      MulOrder(width, vdevs, q);
    } else {
      MulOrder(width, q + 1, vdevs);
    }
  }

  /** selectVdevs gives vdevs exactly up to maxVdevs, and then it is the contiguous cut of the
      first width*vdevs candidates: no disk twice, none left out. */
  lemma {:induction false} SelectIsCut(cands: seq<Disk>, width: int, vdevs: int)
    ensures SelectVdevs(cands, width, vdevs) != [] <==> 1 <= vdevs <= MaxVdevs(|cands|, width)
    ensures 1 <= vdevs <= MaxVdevs(|cands|, width) ==>
              width > 0 && |cands| >= width * vdevs >= 0 &&
              SelectVdevs(cands, width, vdevs) == Cut(cands[..width * vdevs], width, vdevs) &&
              Flatten(SelectVdevs(cands, width, vdevs)) == cands[..width * vdevs]
  {
    if width > 0 && vdevs > 0 {
      FitsMaxVdevs(|cands|, width, vdevs);
      if width * vdevs <= |cands| {
        SlicesAreCut(cands, width, vdevs);
      }
    }
  }

  lemma {:induction false} SlicesAreCut(cands: seq<Disk>, width: nat, vdevs: nat)
    requires width > 0 && vdevs > 0 && width * vdevs <= |cands|
    ensures SelectVdevs(cands, width, vdevs) == Cut(cands[..width * vdevs], width, vdevs)
  {
    var used := cands[..width * vdevs];
    forall i | 0 <= i < vdevs
      ensures Slice(cands, width, i, vdevs) == Cut(used, width, vdevs)[i]
    {
      CutAt(used, width, vdevs, i);
      SliceFits(width, i, vdevs);
      assert used[i * width..(i + 1) * width] == cands[i * width..(i + 1) * width];
    }
  }

  // ---------------------------------------------------------------------------
  // The main results
  // ---------------------------------------------------------------------------

  lemma MulDistribute(a: int, b: int, d: int)
    ensures (a + b) * d == a * d + b * d
  {}

  lemma {:induction false} MinimaCons(groups: seq<seq<Disk>>)
    requires |groups| > 0 && forall i :: 0 <= i < |groups| ==> |groups[i]| > 0
    ensures Sum(Minima(groups)) == Smallest(groups[0]) + Sum(Minima(groups[1..]))
  {
    assert Minima(groups)[1..] == Minima(groups[1..]);
  }

  lemma {:induction false} UsableIsSum(layout: DataLayout, groups: seq<seq<Disk>>, width: nat, d: int)
    requires width > 0 && d == DataDisks(layout, width) && forall i :: 0 <= i < |groups| ==> |groups[i]| == width
    ensures UsableBytes(layout, groups) == Sum(Minima(groups)) * d
    decreases |groups|
  {
    if groups != [] {
      UsableIsSum(layout, groups[1..], width, d);
      MinimaCons(groups);
      MulDistribute(Smallest(groups[0]), Sum(Minima(groups[1..])), d);
    }
  }

  lemma ReachAtMost(width: nat, reach: nat, disks: nat)
    requires width > 0 && width * reach <= disks
    ensures reach <= MaxVdevs(disks, width)
  {
    FitsMaxVdevs(disks, width, reach);
  }

  /** No split has larger smallest disks, summed over the vdevs, than the contiguous cut. */
  lemma {:induction false} CutMaximisesMinima(used: seq<Disk>, groups: seq<seq<Disk>>, width: nat, vdevs: nat)
    requires width > 0 && |used| == width * vdevs && Ascending(used) && Split(groups, used, width, vdevs)
    ensures Sum(Minima(groups)) <= Sum(Minima(Cut(used, width, vdevs)))
  {
    forall t: nat | t > 0
      ensures Reach(Minima(groups), t) <= Reach(Minima(Cut(used, width, vdevs)), t)
    {
      GroupsNeedDisks(groups, width, t);
      AtLeastSub(Flatten(groups), used, t);
      ReachAtMost(width, Reach(Minima(groups), t), AtLeast(used, t));
      CutReaches(used, width, vdevs, t);
    }
    SumOrder(Minima(groups), Minima(Cut(used, width, vdevs)));
  }

  lemma {:induction false} SingleMinima(groups: seq<seq<Disk>>)
    requires forall i :: 0 <= i < |groups| ==> |groups[i]| == 1
    ensures Minima(groups) == Sizes(Flatten(groups))
    decreases |groups|
  {
    if groups != [] {
      SingleMinima(groups[1..]);
      assert Flatten(groups)[1..] == Flatten(groups[1..]);
    }
  }

  lemma {:induction false} SameDisksSameSum(a: seq<Disk>, b: seq<Disk>)
    requires multiset(a) == multiset(b)
    ensures Sum(Sizes(a)) == Sum(Sizes(b))
  {
    forall t: nat | t > 0
      ensures Reach(Sizes(a), t) == Reach(Sizes(b), t)
    {
      AtLeastSub(a, b, t);
      AtLeastSub(b, a, t);
    }
    SumOrder(Sizes(a), Sizes(b));
    SumOrder(Sizes(b), Sizes(a));
  }

  lemma MulMonotone(a: int, b: int, d: int)
    requires a <= b && d >= 0
    ensures a * d <= b * d
  {}

  /** Among all splits of the disks selectVdevs uses into as many vdevs of the same width, its
      own gives the most usable bytes. Every layout and width qualifies but RAID-Z3 on two. */
  lemma {:induction false} SelectIsBest(layout: DataLayout, cands: seq<Disk>, width: int, vdevs: int, groups: seq<seq<Disk>>)
    requires Ascending(cands) && 1 <= vdevs <= MaxVdevs(|cands|, width)
    requires width > 0 && 0 <= width * vdevs <= |cands| && Split(groups, cands[..width * vdevs], width, vdevs)
    requires !(layout == Raidz3 && width == 2)
    ensures UsableBytes(layout, groups) <= UsableBytes(layout, SelectVdevs(cands, width, vdevs))
  {
    var used := cands[..width * vdevs];
    var best := Cut(used, width, vdevs);
    SelectIsCut(cands, width, vdevs);
    UsableIsSum(layout, groups, width, DataDisks(layout, width));
    UsableIsSum(layout, best, width, DataDisks(layout, width));
    if width == 1 {
      SingleMinima(groups);
      SingleMinima(best);
      SameDisksSameSum(Flatten(groups), used);
    } else {
      CutMaximisesMinima(used, groups, width, vdevs);
      MulMonotone(Sum(Minima(groups)), Sum(Minima(best)), DataDisks(layout, width));
    }
  }

  /** The smallest disks of the vdevs, added up. */
  ghost function SmallestSum(groups: seq<seq<Disk>>): nat
    requires forall i :: 0 <= i < |groups| ==> |groups[i]| > 0
  {
    Sum(Minima(groups))
  }

  lemma LevelsLose(n: int, width: int)
    ensures n * (width - 1) == n * width - n
    ensures n * (width - 2) == n * (width - 1) - n
    ensures n * (width - 3) == n * (width - 2) - n
  {}

  /** What each layout gives: a stripe all disks at the size of the smallest of its vdev, a mirror one of
      them, and each RAID-Z level one less than the level before, beginning with the stripe. */
  lemma {:induction false} UsableByLayout(groups: seq<seq<Disk>>, width: nat)
    requires width > 0 && forall i :: 0 <= i < |groups| ==> |groups[i]| == width
    ensures UsableBytes(Stripe, groups) == SmallestSum(groups) * width
    ensures UsableBytes(Mirror, groups) == SmallestSum(groups)
    ensures UsableBytes(Raidz1, groups) == UsableBytes(Stripe, groups) - SmallestSum(groups)
    ensures UsableBytes(Raidz2, groups) == UsableBytes(Raidz1, groups) - SmallestSum(groups)
    ensures UsableBytes(Raidz3, groups) == UsableBytes(Raidz2, groups) - SmallestSum(groups)
  {
    var n := SmallestSum(groups);
    UsableIsSum(Stripe, groups, width, width);
    UsableIsSum(Mirror, groups, width, 1);
    UsableIsSum(Raidz1, groups, width, width - 1);
    UsableIsSum(Raidz2, groups, width, width - 2);
    UsableIsSum(Raidz3, groups, width, width - 3);
    LevelsLose(n, width);
  }

  /** Empty vdevs count for nothing, wherever they stand. */
  lemma {:induction false} EmptyVdev(layout: DataLayout, groups: seq<seq<Disk>>)
    ensures UsableBytes(layout, [[]] + groups) == UsableBytes(layout, groups)
  {
    assert ([[]] + groups)[1..] == groups;
  }

  /** A vdev of any layout but the mirror loses as many disks of capacity as it survives losing; a mirror
      survives the loss of all but one. */
  lemma {:induction false} SurvivesLoss(layout: DataLayout, vdev: seq<Disk>)
    requires vdev != []
    ensures VdevBytes(layout, vdev) ==
              if layout == Mirror then Smallest(vdev) else Smallest(vdev) * (|vdev| - FaultTolerance(layout, |vdev|))
    ensures layout == Mirror ==> FaultTolerance(layout, |vdev|) == |vdev| - 1
    ensures layout == Stripe ==> FaultTolerance(layout, |vdev|) == 0
  {}

  /** The dialog's minimum widths: any stripe, the least mirror that survives a loss, and of each RAID-Z
      level the least width with two disks of capacity. */
  lemma MinWidthExactly(layout: DataLayout, width: nat)
    ensures width >= MinWidth(layout) <==>
            width >= 1 &&
            (layout == Mirror ==> FaultTolerance(layout, width) >= 1) &&
            (layout != Mirror && layout != Stripe ==> width - FaultTolerance(layout, width) >= 2)
  {}

  /** The dialog's minimum widths are among them. */
  lemma MinWidthQualifies(layout: DataLayout, width: int)
    requires width >= MinWidth(layout)
    ensures width > 0 && !(layout == Raidz3 && width == 2) && DataDisks(layout, width) > 0
    ensures 0 <= FaultTolerance(layout, width) < width
  {}

  /** RAID-Z3 on two disks counts minus one data disk, so there the cut of four disks loses
      against another split as soon as the middle two differ. */
  lemma Raidz3OnTwoIsNotBest(a: Disk, b: Disk, c: Disk, d: Disk)
    requires a.size <= b.size < c.size <= d.size
    ensures Split([[a, d], [b, c]], [a, b, c, d], 2, 2)
    ensures UsableBytes(Raidz3, [[a, d], [b, c]]) > UsableBytes(Raidz3, SelectVdevs([a, b, c, d], 2, 2))
  {
    OtherPairs(a, b, c, d);
    var other, best := UsableBytes(Raidz3, [[a, d], [b, c]]), UsableBytes(Raidz3, SelectVdevs([a, b, c, d], 2, 2));
    assert other == 0 - (a.size + b.size) by { TwoPairs(a, d, b, c); }
    assert best == 0 - (a.size + c.size) by { SelectTwoPairs(a, b, c, d); TwoPairs(a, b, c, d); }
  }

  ghost predicate NoBetter(layout: DataLayout, cands: seq<Disk>, width: int, vdevs: int, groups: seq<seq<Disk>>) {
    UsableBytes(layout, groups) <= UsableBytes(layout, SelectVdevs(cands, width, vdevs))
  }

  /** groups split the disks selectVdevs uses into as many vdevs of the same width. */
  ghost predicate Splits(cands: seq<Disk>, width: nat, vdevs: int, groups: seq<seq<Disk>>) {
    Ascending(cands) && 1 <= vdevs <= MaxVdevs(|cands|, width) && 0 <= width * vdevs <= |cands| &&
    Split(groups, cands[..width * vdevs], width, vdevs)
  }

  /** For candidates of any sizes, no split into vdevs of this width beats selectVdevs. */
  ghost predicate AlwaysBest(layout: DataLayout, width: nat) {
    forall cands, vdevs, groups :: Splits(cands, width, vdevs, groups) ==> NoBetter(layout, cands, width, vdevs, groups)
  }

  lemma SplitsAll(cands: seq<Disk>, groups: seq<seq<Disk>>)
    requires |cands| == 4 && Ascending(cands) && Split(groups, cands, 2, 2)
    ensures Splits(cands, 2, 2, groups)
  {
    assert cands[..4] == cands;
    FitsMaxVdevs(4, 2, 2);
  }

  lemma FourAscend(a: Disk, b: Disk, c: Disk, d: Disk)
    requires a.size <= b.size <= c.size <= d.size
    ensures Ascending([a, b, c, d])
  {}

  lemma TwoAndTwo() returns (cands: seq<Disk>, groups: seq<seq<Disk>>)
    ensures Splits(cands, 2, 2, groups) && !NoBetter(Raidz3, cands, 2, 2, groups)
  {
    var (small, large) := (Disk("small", 1, "HDD", false), Disk("large", 2, "HDD", false));
    cands, groups := [small, small, large, large], [[small, large], [small, large]];
    FourAscend(small, small, large, large);
    OtherPairs(small, small, large, large);
    SplitsAll(cands, groups);
    Raidz3OnTwoIsNotBest(small, small, large, large);
  }

  lemma AlwaysBestExactly(layout: DataLayout, width: nat)
    requires width > 0
    ensures AlwaysBest(layout, width) <==> !(layout == Raidz3 && width == 2)
  {
    if layout == Raidz3 && width == 2 {
      var cands, groups := TwoAndTwo();
      assert !NoBetter(layout, cands, 2, 2, groups);
    } else {
      forall cands, vdevs, groups | Splits(cands, width, vdevs, groups)
        ensures NoBetter(layout, cands, width, vdevs, groups)
      {
        SelectIsBest(layout, cands, width, vdevs, groups);
      }
    }
  }

  lemma OtherPairs(a: Disk, b: Disk, c: Disk, d: Disk)
    ensures Split([[a, d], [b, c]], [a, b, c, d], 2, 2)
  {
    FlattenPairs([a, d], [b, c]);
    assert [a, d] + [b, c] == [a] + [d] + [b, c] && [a, b, c, d] == [a] + [b, c] + [d];
  }

  lemma SelectTwoPairs(a: Disk, b: Disk, c: Disk, d: Disk)
    ensures SelectVdevs([a, b, c, d], 2, 2) == [[a, b], [c, d]]
  {
    var cands := [a, b, c, d];
    assert Slice(cands, 2, 0, 2) == cands[0..2] == [a, b] && Slice(cands, 2, 1, 2) == cands[2..4] == [c, d];
  }

  lemma FlattenPairs(p: seq<Disk>, q: seq<Disk>)
    ensures Flatten([p, q]) == p + q
  {
    assert [p, q][1..] == [q] && [q][1..] == [];
    assert Flatten([q]) == q + [];
  }

  lemma TwoPairs(a: Disk, b: Disk, c: Disk, d: Disk)
    requires a.size <= b.size && c.size <= d.size
    ensures UsableBytes(Raidz3, [[a, b], [c, d]]) == 0 - (a.size + c.size)
  {
    var (p, q) := ([a, b], [c, d]);
    assert [p, q][1..] == [q] && [q][1..] == [];
    PairBytes(a, b);
    PairBytes(c, d);
    assert UsableBytes(Raidz3, [q]) == 0 - c.size;
  }

  lemma PairBytes(a: Disk, b: Disk)
    requires a.size <= b.size
    ensures VdevBytes(Raidz3, [a, b]) == 0 - a.size
  {
    assert [a, b][1..] == [b];
    assert Smallest([a, b]) == a.size;
  }

  /** No choice of as many candidates has a smaller raw total than the first ones. */
  lemma {:induction false} FirstCandidatesAreLeast(cands: seq<Disk>, k: nat, choice: seq<Disk>)
    requires Ascending(cands) && k <= |cands| && |choice| == k && multiset(choice) <= multiset(cands)
    ensures Sum(Sizes(cands[..k])) <= Sum(Sizes(choice))
  {
    forall t: nat | t > 0
      ensures Reach(Sizes(cands[..k]), t) <= Reach(Sizes(choice), t)
    {
      AtLeastSub(choice, cands, t);
      SplitAscending(cands, k);
      AtLeastConcat(cands[..k], cands[k..], t);
      if AtLeast(cands[..k], t) > 0 {
        HeadReaches(cands[..k], cands[k..], t);
      }
    }
    SumOrder(Sizes(cands[..k]), Sizes(choice));
  }
}
