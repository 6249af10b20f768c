/** Free disks grouped through a map keyed by "type:size". */
module SizeGroups {
  import opened PoolLayout
  import opened StableSort

  // ---------------------------------------------------------------------------
  // The key
  // ---------------------------------------------------------------------------

  function Digit(d: nat): char
    requires d < 10
  {
    "0123456789"[d]
  }

  function Decimal(n: nat): (s: string)
    ensures |s| > 0 && (n < 10 <==> |s| == 1) && forall i :: 0 <= i < |s| ==> s[i] != ':'
  {
    if n < 10 then [Digit(n)] else Decimal(n / 10) + [Digit(n % 10)]
  }

  lemma DigitInjective(a: nat, b: nat)
    requires a < 10 && b < 10 && Digit(a) == Digit(b)
    ensures a == b
  {}

  lemma {:induction false} DecimalInjective(a: nat, b: nat)
    requires Decimal(a) == Decimal(b)
    ensures a == b
    decreases a
  {
    var s := Decimal(a);
    if a >= 10 && b >= 10 {
      assert Decimal(a / 10) == s[..|s| - 1] == Decimal(b / 10);
      assert Digit(a % 10) == s[|s| - 1] == Digit(b % 10);
      DecimalInjective(a / 10, b / 10);
      DigitInjective(a % 10, b % 10);
    } else {
      assert Digit(a) == s[0] == Digit(b);
      DigitInjective(a, b);
    }
  }

  /** The number a text of digits stands for. */
  function Number(s: string): int { if s == "" then 0 else 10 * Number(s[..|s| - 1]) + (s[|s| - 1] as int - '0' as int) }

  lemma {:induction false} NumberSnoc(s: string, d: nat)
    requires d < 10
    ensures Number(s + [Digit(d)]) == 10 * Number(s) + d && '0' <= Digit(d) <= '9'
  {
    assert (s + [Digit(d)])[..|s|] == s;
  }

  lemma {:induction false} DecimalReads(n: nat)
    ensures Number(Decimal(n)) == n && (forall i :: 0 <= i < |Decimal(n)| ==> '0' <= Decimal(n)[i] <= '9')
    ensures n > 0 ==> Decimal(n)[0] != '0'
    decreases n
  {
    if n < 10 {
      NumberSnoc("", n);
      assert "" + [Digit(n)] == [Digit(n)];
    } else {
      DecimalReads(n / 10);
      NumberSnoc(Decimal(n / 10), n % 10);
    }
  }

  function Key(kind: string, size: nat): string { kind + ":" + Decimal(size) }

  /** The size follows the last colon, so the key tells types and sizes apart. */
  lemma KeyInjective(kind: string, size: nat, kind': string, size': nat)
    requires Key(kind, size) == Key(kind', size')
    ensures kind == kind' && size == size'
  {
    var (k, s, s') := (Key(kind, size), Decimal(size), Decimal(size'));
    assert k[|kind|] == ':' && k[|kind'|] == ':';
    assert forall i :: |kind| < i < |k| ==> k[i] == s[i - |kind| - 1];
    assert forall i :: |kind'| < i < |k| ==> k[i] == s'[i - |kind'| - 1];
    assert |kind| == |kind'|;
    assert kind == k[..|kind|] == kind';
    assert s == k[|kind| + 1..] == s';
    DecimalInjective(size, size');
  }

  // ---------------------------------------------------------------------------
  // The grouping loop
  // ---------------------------------------------------------------------------

  predicate Free(d: Disk) { !d.inUse && d.size != 0 }

  function FreeCount(disks: seq<Disk>): nat {
    if disks == [] then 0
    else FreeCount(disks[..|disks| - 1]) + if Free(disks[|disks| - 1]) then 1 else 0
  }

  function TotalCount(groups: seq<SizeGroup>): nat {
    if groups == [] then 0 else groups[0].count + TotalCount(groups[1..])
  }

  /** A group as sizeGroups makes it, over the given disks. */
  ghost predicate Exact(g: SizeGroup, disks: seq<Disk>) {
    g.key == Key(g.kind, g.size) && g.size > 0 && g.count > 0 && g.count == |Filter(disks, g, false)|
  }

  ghost predicate DistinctKeys(groups: seq<SizeGroup>) {
    forall i, j :: 0 <= i < j < |groups| ==> groups[i].key != groups[j].key
  }

  ghost predicate HasGroup(groups: seq<SizeGroup>, d: Disk) {
    exists i :: 0 <= i < |groups| && groups[i].kind == d.kind && groups[i].size == d.size
  }

  /** The groups made of the disks: each once, with the right count, none missing. */
  ghost predicate GroupsOf(groups: seq<SizeGroup>, disks: seq<Disk>) {
    DistinctKeys(groups) && (forall i :: 0 <= i < |groups| ==> Exact(groups[i], disks)) &&
    (forall d :: d in disks && Free(d) ==> HasGroup(groups, d)) && TotalCount(groups) == FreeCount(disks)
  }

  function LargestFirst(): (SizeGroup, SizeGroup) -> bool {
    (a: SizeGroup, b: SizeGroup) => a.count > b.count || (a.count == b.count && a.size >= b.size)
  }

  lemma {:induction false} TotalUpdate(groups: seq<SizeGroup>, i: nat, g: SizeGroup)
    requires i < |groups|
    ensures TotalCount(groups[i := g]) == TotalCount(groups) - groups[i].count + g.count
    decreases |groups|
  {
    if i > 0 {
      assert groups[i := g][1..] == groups[1..][i - 1 := g];
      TotalUpdate(groups[1..], i - 1, g);
    } else {
      assert groups[0 := g][1..] == groups[1..];
    }
  }

  lemma {:induction false} TotalAppend(groups: seq<SizeGroup>, g: SizeGroup)
    ensures TotalCount(groups + [g]) == TotalCount(groups) + g.count
    decreases |groups|
  {
    if groups != [] {
      assert (groups + [g])[1..] == groups[1..] + [g];
      TotalAppend(groups[1..], g);
    }
  }

  lemma {:induction false} FilterLast(disks: seq<Disk>, d: Disk, g: SizeGroup)
    ensures |Filter(disks + [d], g, false)| == |Filter(disks, g, false)| + if Eligible(d, g, false) then 1 else 0
  {
    assert (disks + [d])[..|disks|] == disks;
  }

  lemma {:induction false} FreeCountLast(disks: seq<Disk>, d: Disk)
    ensures FreeCount(disks + [d]) == FreeCount(disks) + if Free(d) then 1 else 0
  {
    assert (disks + [d])[..|disks|] == disks;
  }

  /** A disk that is in use or has no size changes no group. */
  lemma SkipDisk(groups: seq<SizeGroup>, disks: seq<Disk>, d: Disk)
    requires GroupsOf(groups, disks) && !Free(d)
    ensures GroupsOf(groups, disks + [d])
  {
    FreeCountLast(disks, d);
    forall i | 0 <= i < |groups|
      ensures Exact(groups[i], disks + [d])
    {
      FilterLast(disks, d, groups[i]);
    }
  }

  /** A disk whose key is there counts for that group and for no other. */
  lemma CountDisk(groups: seq<SizeGroup>, disks: seq<Disk>, d: Disk, i: nat)
    requires GroupsOf(groups, disks) && Free(d) && i < |groups| && groups[i].key == Key(d.kind, d.size)
    ensures GroupsOf(groups[i := groups[i].(count := groups[i].count + 1)], disks + [d])
  {
    var g := groups[i].(count := groups[i].count + 1);
    var groups' := groups[i := g];
    KeyInjective(groups[i].kind, groups[i].size, d.kind, d.size);
    FreeCountLast(disks, d);
    TotalUpdate(groups, i, g);
    forall j | 0 <= j < |groups|
      ensures Exact(groups'[j], disks + [d])
    {
      FilterLast(disks, d, groups[j]);
      SameFilter(disks + [d], groups[j], groups'[j]);
    }
    forall e | e in disks + [d] && Free(e)
      ensures HasGroup(groups', e)
    {
      var j :| 0 <= j < |groups| && groups[j].kind == e.kind && groups[j].size == e.size;
      assert groups'[j].kind == e.kind && groups'[j].size == e.size;
    }
  }

  lemma {:induction false} SameFilter(disks: seq<Disk>, g: SizeGroup, h: SizeGroup)
    requires g.kind == h.kind && g.size == h.size
    ensures Filter(disks, g, false) == Filter(disks, h, false)
    decreases |disks|
  {
    if disks != [] {
      SameFilter(disks[..|disks| - 1], g, h);
    }
  }

  lemma {:induction false} NoneYet(disks: seq<Disk>, g: SizeGroup)
    requires forall d :: d in disks ==> !Eligible(d, g, false)
    ensures Filter(disks, g, false) == []
    decreases |disks|
  {
    if disks != [] {
      NoneYet(disks[..|disks| - 1], g);
    }
  }

  /** A disk with a new key starts a group of one. */
  lemma NewDisk(groups: seq<SizeGroup>, disks: seq<Disk>, d: Disk, g: SizeGroup)
    requires GroupsOf(groups, disks) && Free(d) && g == SizeGroup(Key(d.kind, d.size), d.kind, d.size, 1)
    requires forall i :: 0 <= i < |groups| ==> groups[i].key != g.key
    ensures GroupsOf(groups + [g], disks + [d])
  {
    var groups' := groups + [g];
    FreeCountLast(disks, d);
    TotalAppend(groups, g);
    forall j | 0 <= j < |groups|
      ensures Exact(groups'[j], disks + [d])
    {
      FilterLast(disks, d, groups[j]);
    }
    forall e | e in disks
      ensures !Eligible(e, g, false)
    {
      if Free(e) {
        var j :| 0 <= j < |groups| && groups[j].kind == e.kind && groups[j].size == e.size;
        assert groups[j].key == Key(e.kind, e.size) != g.key;
      }
    }
    NoneYet(disks, g);
    FilterLast(disks, d, g);
    forall e | e in disks + [d] && Free(e)
      ensures HasGroup(groups', e)
    {
      if e in disks {
        assert HasGroup(groups, e);
        var j :| 0 <= j < |groups| && groups[j].kind == e.kind && groups[j].size == e.size;
        assert groups'[j] == groups[j];
      } else {
        assert groups'[|groups|] == g;
      }
    }
  }

  /** The Map: every key is at its place, and every place has its key. */
  ghost predicate Indexed(index: map<string, nat>, groups: seq<SizeGroup>) {
    (forall k :: k in index ==> index[k] < |groups| && groups[index[k]].key == k) &&
    (forall i :: 0 <= i < |groups| ==> groups[i].key in index)
  }

  /** sizeGroups: `index` is the Map from key to place, `groups` its values in insertion order. */
  method SizeGroups(disks: seq<Disk>) returns (result: seq<SizeGroup>)
    ensures GroupsOf(result, disks)
    ensures forall d :: d in disks && !d.inUse && d.size != 0 ==> HasGroup(result, d)
    ensures forall i :: 0 <= i < |result| ==> result[i].key == result[i].kind + ":" + Decimal(result[i].size)
    ensures forall i, j :: 0 <= i < j < |result| ==>
              result[i].count > result[j].count || (result[i].count == result[j].count && result[i].size >= result[j].size)
  {
    var groups: seq<SizeGroup> := [];
    var index: map<string, nat> := map[];
    for n := 0 to |disks|
      invariant GroupsOf(groups, disks[..n]) && Indexed(index, groups)
    {
      var d := disks[n];
      assert disks[..n + 1] == disks[..n] + [d];
      if d.inUse || d.size == 0 {
        SkipDisk(groups, disks[..n], d);
      } else {
        groups, index := AddDisk(groups, index, d, disks[..n]);
      }
    }
    assert disks[..|disks|] == disks;
    result := Sort(groups, LargestFirst());
    SortSorts(groups, LargestFirst());
    SortKeepsGroups(groups, result, disks);
  }

  /** The body of the loop for a free disk. */
  method AddDisk(groups: seq<SizeGroup>, index: map<string, nat>, d: Disk, ghost seen: seq<Disk>)
    returns (groups': seq<SizeGroup>, index': map<string, nat>)
    requires GroupsOf(groups, seen) && Indexed(index, groups) && Free(d)
    ensures GroupsOf(groups', seen + [d]) && Indexed(index', groups')
  {
    var key := Key(d.kind, d.size);
    if key in index {
      var i := index[key];
      CountDisk(groups, seen, d, i);
      groups' := groups[i := groups[i].(count := groups[i].count + 1)];
      index' := index;
    } else {
      var g := SizeGroup(key, d.kind, d.size, 1);
      NewDisk(groups, seen, d, g);
      groups' := groups + [g];
      index' := index[key := |groups|];
    }
  }

  lemma SortKeepsGroups(groups: seq<SizeGroup>, sorted: seq<SizeGroup>, disks: seq<Disk>)
    requires GroupsOf(groups, disks) && multiset(sorted) == multiset(groups)
    ensures GroupsOf(sorted, disks)
  {
    forall i | 0 <= i < |sorted|
      ensures Exact(sorted[i], disks)
    {
      assert sorted[i] in multiset(groups);
    }
    forall d | d in disks && Free(d)
      ensures HasGroup(sorted, d)
    {
      assert HasGroup(groups, d);
      var i :| 0 <= i < |groups| && groups[i].kind == d.kind && groups[i].size == d.size;
      assert groups[i] in multiset(sorted);
      var j :| 0 <= j < |sorted| && sorted[j] == groups[i];
    }
    DistinctAsMultiset(groups);
    forall i, j | 0 <= i < j < |sorted|
      ensures sorted[i].key != sorted[j].key
    {
      if sorted[i].key == sorted[j].key {
        TwoOf(sorted, i, j);
        SameKeySame(groups, sorted[i], sorted[j]);
        assert false;
      }
    }
    TotalOfMultiset(groups, sorted);
  }

  lemma DistinctAsMultiset(groups: seq<SizeGroup>)
    requires DistinctKeys(groups)
    ensures forall g :: multiset(groups)[g] <= 1
  {
    forall g
      ensures multiset(groups)[g] <= 1
    {
      if multiset(groups)[g] > 0 {
        var i :| 0 <= i < |groups| && groups[i] == g;
        assert groups == groups[..i] + [groups[i]] + groups[i + 1..];
        assert g !in groups[..i] && g !in groups[i + 1..];
      }
    }
  }

  lemma TwoOf(s: seq<SizeGroup>, i: nat, j: nat)
    requires i < j < |s|
    ensures s[i] in multiset(s) && s[j] in multiset(s) && (s[i] == s[j] ==> multiset(s)[s[i]] >= 2)
  {
    assert s == s[..j] + ([s[j]] + s[j + 1..]);
    assert s[i] in s[..j];
  }

  lemma SameKeySame(groups: seq<SizeGroup>, a: SizeGroup, b: SizeGroup)
    requires DistinctKeys(groups) && a in multiset(groups) && b in multiset(groups) && a.key == b.key
    ensures a == b
  {
    var i :| 0 <= i < |groups| && groups[i] == a;
    var j :| 0 <= j < |groups| && groups[j] == b;
  }

  lemma {:induction false} TotalOfMultiset(a: seq<SizeGroup>, b: seq<SizeGroup>)
    requires multiset(a) == multiset(b)
    ensures TotalCount(a) == TotalCount(b)
    decreases |a|
  {
    if a == [] {
      assert |multiset(b)| == 0;
    } else {
      var i := TakeOut(a, b);
      TotalOfMultiset(a[1..], b[..i] + b[i + 1..]);
      TotalInsert(b[..i], b[i], b[i + 1..]);
    }
  }

  lemma {:induction false} TotalInsert(a: seq<SizeGroup>, g: SizeGroup, b: seq<SizeGroup>)
    ensures TotalCount(a + [g] + b) == g.count + TotalCount(a + b)
    decreases |a|
  {
    if a == [] {
      assert ([g] + b)[1..] == b;
      assert [] + [g] + b == [g] + b && [] + b == b;
    } else {
      assert (a + [g] + b)[1..] == a[1..] + [g] + b;
      assert (a + b)[1..] == a[1..] + b;
      TotalInsert(a[1..], g, b);
    }
  }

  /** A group's count is the number of candidates the dialog offers for exactly that size. */
  lemma CountsAreCandidates(groups: seq<SizeGroup>, disks: seq<Disk>, i: nat, rank: Collation)
    requires GroupsOf(groups, disks) && i < |groups|
    ensures groups[i].count == |Candidates(disks, groups[i], false, rank)|
  {
    CandidatesAscend(disks, groups[i], false, rank);
    assert Exact(groups[i], disks);
  }
}
