/** Automatic disk selection for new pools: free disks grouped by size, the candidates of a
    group, their split into vdevs, and the capacity that gives. */
module PoolLayout {
  import opened StableSort

  // ---------------------------------------------------------------------------
  // Model
  // ---------------------------------------------------------------------------

  /** Sizes are whole bytes. */
  datatype Disk = Disk(name: string, size: nat, kind: string, inUse: bool)

  datatype DataLayout = Stripe | Mirror | Raidz1 | Raidz2 | Raidz3

  function MinWidth(layout: DataLayout): nat {
    match layout
    case Stripe => 1
    case Mirror => 2
    case Raidz1 => 3
    case Raidz2 => 4
    case Raidz3 => 5
  }

  function FaultTolerance(layout: DataLayout, width: int): int {
    match layout
    case Stripe => 0
    case Mirror => width - 1
    case Raidz1 => 1
    case Raidz2 => 2
    case Raidz3 => 3
  }

  // ---------------------------------------------------------------------------
  // Candidates
  // ---------------------------------------------------------------------------

  datatype SizeGroup = SizeGroup(key: string, kind: string, size: nat, count: nat)

  /** The place of a name in the locale's order, which is a parameter here. */
  type Collation = string -> real

  /** By size, then by name. */
  function SmallestFirst(rank: Collation): (Disk, Disk) -> bool {
    (a: Disk, b: Disk) => a.size < b.size || (a.size == b.size && rank(a.name) <= rank(b.name))
  }

  predicate Eligible(d: Disk, group: SizeGroup, treatAsMinimum: bool) {
    !d.inUse && d.kind == group.kind && if treatAsMinimum then d.size >= group.size else d.size == group.size
  }

  function Filter(disks: seq<Disk>, group: SizeGroup, treatAsMinimum: bool): seq<Disk> {
    if disks == [] then []
    else
      var (n, d) := (|disks| - 1, disks[|disks| - 1]);
      Filter(disks[..n], group, treatAsMinimum) + if Eligible(d, group, treatAsMinimum) then [d] else []
  }

  function Candidates(disks: seq<Disk>, group: SizeGroup, treatAsMinimum: bool, rank: Collation): seq<Disk> {
    Sort(Filter(disks, group, treatAsMinimum), SmallestFirst(rank))
  }

  ghost predicate Ascending(disks: seq<Disk>) {
    forall i, j :: 0 <= i < j < |disks| ==> disks[i].size <= disks[j].size
  }

  lemma {:induction false} CandidatesAscend(disks: seq<Disk>, group: SizeGroup, treatAsMinimum: bool, rank: Collation)
    ensures var c := Candidates(disks, group, treatAsMinimum, rank);
            Ascending(c) && multiset(c) == multiset(Filter(disks, group, treatAsMinimum)) &&
            |c| == |Filter(disks, group, treatAsMinimum)|
  {
    SortSorts(Filter(disks, group, treatAsMinimum), SmallestFirst(rank));
  }

  /** Smaller disks first, and of the same size those whose names come first. */
  lemma {:induction false} CandidatesByName(disks: seq<Disk>, group: SizeGroup, treatAsMinimum: bool, rank: Collation, i: nat, j: nat)
    requires i < j < |Candidates(disks, group, treatAsMinimum, rank)|
    ensures var (c, d) := (Candidates(disks, group, treatAsMinimum, rank)[i], Candidates(disks, group, treatAsMinimum, rank)[j]);
            c.size < d.size || (c.size == d.size && rank(c.name) <= rank(d.name))
  {
    SortSorts(Filter(disks, group, treatAsMinimum), SmallestFirst(rank));
  }

  lemma {:induction false} FilterCount(disks: seq<Disk>, group: SizeGroup, treatAsMinimum: bool, d: Disk)
    ensures multiset(Filter(disks, group, treatAsMinimum))[d] ==
              if !d.inUse && d.kind == group.kind && (d.size == group.size || (treatAsMinimum && d.size > group.size))
              then multiset(disks)[d] else 0
    decreases |disks|
  {
    if disks != [] {
      var (before, last) := (disks[..|disks| - 1], disks[|disks| - 1]);
      FilterCount(before, group, treatAsMinimum, d);
      assert disks == before + [last];
    }
  }

  /** The candidates are the free disks of the group's type and size, each as often as it is listed;
      treatAsMinimum adds the larger ones and no other. */
  lemma {:induction false} CandidatesExactly(disks: seq<Disk>, group: SizeGroup, treatAsMinimum: bool, rank: Collation, d: Disk)
    ensures multiset(Candidates(disks, group, treatAsMinimum, rank))[d] ==
              if !d.inUse && d.kind == group.kind && (d.size == group.size || (treatAsMinimum && d.size > group.size))
              then multiset(disks)[d] else 0
  {
    CandidatesAscend(disks, group, treatAsMinimum, rank);
    FilterCount(disks, group, treatAsMinimum, d);
  }

  // ---------------------------------------------------------------------------
  // Vdevs
  // ---------------------------------------------------------------------------

  function MaxVdevs(candidateCount: nat, width: int): nat {
    if width > 0 then candidateCount / width else 0
  }

  function SelectVdevs(cands: seq<Disk>, width: int, vdevs: int): seq<seq<Disk>> {
    if width < 1 || vdevs < 1 || |cands| < width * vdevs then []
    else seq(vdevs, i requires 0 <= i < vdevs => Slice(cands, width, i, vdevs))
  }

  function Slice(cands: seq<Disk>, width: nat, i: nat, vdevs: nat): seq<Disk>
    requires i < vdevs && width * vdevs <= |cands|
  {
    SliceFits(width, i, vdevs);
    cands[i * width..(i + 1) * width]
  }

  lemma SliceFits(width: nat, i: nat, vdevs: nat)
    requires i < vdevs
    ensures 0 <= i * width <= (i + 1) * width <= width * vdevs
  {
    assert width * vdevs == (i + 1) * width + (vdevs - i - 1) * width;
  }

  function Smallest(vdev: seq<Disk>): (m: nat)
    requires |vdev| > 0
    ensures (exists i :: 0 <= i < |vdev| && m == vdev[i].size) && forall i :: 0 <= i < |vdev| ==> m <= vdev[i].size
  {
    if |vdev| == 1 then vdev[0].size
    else
      var rest := Smallest(vdev[1..]);
      if vdev[0].size <= rest then vdev[0].size else rest
  }

  function DataDisks(layout: DataLayout, width: int): int {
    match layout
    case Stripe => width
    case Mirror => 1
    case _ => width - FaultTolerance(layout, width)
  }

  function VdevBytes(layout: DataLayout, vdev: seq<Disk>): int {
    if vdev == [] then 0 else Smallest(vdev) * DataDisks(layout, |vdev|)
  }

  function UsableBytes(layout: DataLayout, vdevs: seq<seq<Disk>>): int {
    if vdevs == [] then 0 else VdevBytes(layout, vdevs[0]) + UsableBytes(layout, vdevs[1..])
  }

  function Flatten(vdevs: seq<seq<Disk>>): seq<Disk> {
    if vdevs == [] then [] else vdevs[0] + Flatten(vdevs[1..])
  }

  /** A split of the disks `used` into `vdevs` groups of `width`, in any order. */
  ghost predicate Split(groups: seq<seq<Disk>>, used: seq<Disk>, width: nat, vdevs: nat) {
    |groups| == vdevs && (forall i :: 0 <= i < |groups| ==> |groups[i]| == width) &&
    multiset(Flatten(groups)) == multiset(used)
  }
}
