/** The configuration history grouped by changeset. */
module Changesets {
  import opened Sequences

  datatype Revision = Revision(id: int, changeset: string)
  datatype Group = Group(changeset: string, revisions: seq<Revision>)

  /** The revisions of one changeset, in the order received. */
  function Of(revs: seq<Revision>, c: string): seq<Revision> {
    if revs == [] then []
    else
      var r := revs[|revs| - 1];
      Of(revs[..|revs| - 1], c) + if r.changeset == c then [r] else []
  }

  /** The changesets in the order of their first revisions. */
  function Firsts(revs: seq<Revision>): seq<string> {
    if revs == [] then []
    else
      var before := Firsts(revs[..|revs| - 1]);
      before + if revs[|revs| - 1].changeset in before then [] else [revs[|revs| - 1].changeset]
  }

  /** The simple form: every changeset with all its revisions. */
  function Grouped(revs: seq<Revision>): seq<Group> {
    var cs := Firsts(revs);
    seq(|cs|, i requires 0 <= i < |cs| => Group(cs[i], Of(revs, cs[i])))
  }

  /** index holds the place of every changeset in cs. */
  ghost predicate Indexes(index: map<string, nat>, cs: seq<string>) {
    (forall c :: c in index ==> index[c] < |cs| && cs[index[c]] == c) &&
    forall i :: 0 <= i < |cs| ==> cs[i] in index && index[cs[i]] == i
  }

  lemma {:induction false} FirstsOnce(revs: seq<Revision>)
    ensures forall i, j :: 0 <= i < j < |Firsts(revs)| ==> Firsts(revs)[i] != Firsts(revs)[j]
    ensures forall c :: c in Firsts(revs) <==> exists r :: r in revs && r.changeset == c
    decreases |revs|
  {
    if revs != [] {
      FirstsOnce(revs[..|revs| - 1]);
      assert revs == revs[..|revs| - 1] + [revs[|revs| - 1]];
    }
  }

  /** Each group has exactly the revisions of its changeset, in the order received. */
  lemma {:induction false} OfInOrder(revs: seq<Revision>, c: string) returns (idx: seq<nat>)
    ensures Places(idx, |revs|) && |Of(revs, c)| == |idx|
    ensures forall i :: 0 <= i < |revs| ==> (i in idx <==> revs[i].changeset == c)
    ensures forall k :: 0 <= k < |idx| ==> Of(revs, c)[k] == revs[idx[k]]
    decreases |revs|
  {
    idx := [];
    if revs != [] {
      var n := |revs| - 1;
      idx := OfInOrder(revs[..n], c);
      PlacesMore(idx, n);
      if revs[n].changeset == c {
        idx := idx + [n];
      }
    }
  }

  /** Revision i is the first of its changeset. */
  ghost predicate Begins(revs: seq<Revision>, i: nat) {
    i < |revs| && forall j :: 0 <= j < i ==> revs[j].changeset != revs[i].changeset
  }

  lemma BeginsBefore(before: seq<Revision>, r: Revision, i: nat)
    requires i < |before|
    ensures Begins(before + [r], i) <==> Begins(before, i)
  {
    assert forall j :: 0 <= j <= i ==> (before + [r])[j] == before[j];
  }

  lemma {:induction false} BeginsLast(before: seq<Revision>, r: Revision)
    ensures Begins(before + [r], |before|) <==> r.changeset !in Firsts(before)
  {
    FirstsOnce(before);
    assert forall j :: 0 <= j < |before| ==> (before + [r])[j] == before[j] && before[j] in before;
  }

  /** The groups stand in the order in which their changesets began. */
  lemma {:induction false} FirstsInOrder(revs: seq<Revision>) returns (idx: seq<nat>)
    ensures Places(idx, |revs|) && |Firsts(revs)| == |idx|
    ensures forall i: nat :: i in idx <==> Begins(revs, i)
    ensures forall k :: 0 <= k < |idx| ==> Firsts(revs)[k] == revs[idx[k]].changeset
    decreases |revs|
  {
    idx := [];
    if revs != [] {
      var (before, r) := (revs[..|revs| - 1], revs[|revs| - 1]);
      assert revs == before + [r];
      idx := FirstsInOrder(before);
      PlacesMore(idx, |before|);
      forall i: nat | i < |before|
        ensures Begins(revs, i) <==> Begins(before, i)
      {
        BeginsBefore(before, r, i);
      }
      BeginsLast(before, r);
      if r.changeset !in Firsts(before) {
        idx := idx + [|before|];
      }
    }
  }

  lemma {:induction false} NoneOf(revs: seq<Revision>, c: string)
    requires c !in Firsts(revs)
    ensures Of(revs, c) == []
    decreases |revs|
  {
    if revs != [] {
      NoneOf(revs[..|revs| - 1], c);
    }
  }

  lemma {:induction false} OfSnoc(before: seq<Revision>, r: Revision, c: string)
    ensures Of(before + [r], c) == if r.changeset == c then Of(before, c) + [r] else Of(before, c)
  {}

  lemma {:induction false} NewGroup(before: seq<Revision>, r: Revision)
    requires r.changeset !in Firsts(before)
    ensures Firsts(before + [r]) == Firsts(before) + [r.changeset]
    ensures Grouped(before + [r]) == Grouped(before) + [Group(r.changeset, [r])]
  {
    assert (before + [r])[..|before|] == before;
    var (cs, gs) := (Firsts(before), Grouped(before + [r]));
    forall i | 0 <= i < |cs|
      ensures gs[i] == Grouped(before)[i]
    {
      OfSnoc(before, r, cs[i]);
    }
    NoneOf(before, r.changeset);
    OfSnoc(before, r, r.changeset);
    assert gs[|cs|] == Group(r.changeset, [r]);
  }

  lemma {:induction false} OldGroup(before: seq<Revision>, r: Revision, k: nat)
    requires k < |Firsts(before)| && Firsts(before)[k] == r.changeset
    ensures Firsts(before + [r]) == Firsts(before)
    ensures var g := Grouped(before)[k]; Grouped(before + [r]) == Grouped(before)[k := g.(revisions := g.revisions + [r])]
  {
    assert (before + [r])[..|before|] == before;
    FirstsOnce(before);
    var (cs, g) := (Firsts(before), Grouped(before)[k]);
    assert cs + [] == cs;
    forall i | 0 <= i < |cs|
      ensures Grouped(before + [r])[i] == Grouped(before)[k := g.(revisions := g.revisions + [r])][i]
    {
      OfSnoc(before, r, cs[i]);
    }
  }

  method GroupByChangeset(revs: seq<Revision>) returns (groups: seq<Group>)
    ensures groups == Grouped(revs)
  {
    groups := [];
    var index: map<string, nat> := map[];
    for i := 0 to |revs|
      invariant groups == Grouped(revs[..i]) && Indexes(index, Firsts(revs[..i]))
    {
      var r := revs[i];
      ghost var before := revs[..i];
      assert revs[..i + 1] == before + [r];
      if r.changeset !in index {
        NewGroup(before, r);
        index := index[r.changeset := |groups|];
        groups := groups + [Group(r.changeset, [r])];
      } else {
        var k := index[r.changeset];
        OldGroup(before, r, k);
        groups := groups[k := groups[k].(revisions := groups[k].revisions + [r])];
      }
    }
    assert revs[..|revs|] == revs;
  }

  // ---------------------------------------------------------------------------
  // What grouping keeps
  // ---------------------------------------------------------------------------

  function Flatten(groups: seq<Group>): seq<Revision> {
    if groups == [] then [] else Flatten(groups[..|groups| - 1]) + groups[|groups| - 1].revisions
  }

  lemma {:induction false} FlattenSnoc(groups: seq<Group>, g: Group)
    ensures Flatten(groups + [g]) == Flatten(groups) + g.revisions
  {}

  lemma {:induction false} FlattenUpdate(groups: seq<Group>, k: nat, r: Revision)
    requires k < |groups|
    ensures var g := groups[k];
            multiset(Flatten(groups[k := g.(revisions := g.revisions + [r])])) == multiset(Flatten(groups)) + multiset{r}
    decreases |groups|
  {
    var (g, last) := (groups[k], |groups| - 1);
    var updated := groups[k := g.(revisions := g.revisions + [r])];
    if k == last {
      assert updated[..last] == groups[..last];
    } else {
      FlattenUpdate(groups[..last], k, r);
      assert updated[..last] == groups[..last][k := g.(revisions := g.revisions + [r])];
    }
  }

  /** Every revision is in exactly one group, as often as it was received. */
  lemma {:induction false} Conserved(revs: seq<Revision>)
    ensures multiset(Flatten(Grouped(revs))) == multiset(revs)
    decreases |revs|
  {
    if revs != [] {
      var (before, r) := (revs[..|revs| - 1], revs[|revs| - 1]);
      assert revs == before + [r];
      Conserved(before);
      if r.changeset !in Firsts(before) {
        NewGroup(before, r);
        FlattenSnoc(Grouped(before), Group(r.changeset, [r]));
      } else {
        var k :| 0 <= k < |Firsts(before)| && Firsts(before)[k] == r.changeset;
        OldGroup(before, r, k);
        FlattenUpdate(Grouped(before), k, r);
      }
    }
  }

  /** Between two revisions of a changeset there is none of another. */
  ghost predicate Contiguous(revs: seq<Revision>) {
    forall i, j, k :: 0 <= i < j < k < |revs| && revs[i].changeset == revs[k].changeset ==>
                        revs[j].changeset == revs[i].changeset
  }

  lemma {:induction false} OfChangeset(revs: seq<Revision>, c: string)
    ensures forall r :: r in Of(revs, c) ==> r.changeset == c
    ensures Of(revs, c) == [] ==> forall r :: r in revs ==> r.changeset != c
    decreases |revs|
  {
    if revs != [] {
      OfChangeset(revs[..|revs| - 1], c);
      assert revs == revs[..|revs| - 1] + [revs[|revs| - 1]];
    }
  }

  lemma {:induction false} LastGroup(revs: seq<Revision>)
    requires revs != []
    ensures Firsts(revs) != []
    ensures var c := Firsts(revs)[|Firsts(revs)| - 1];
            Of(revs, c) != [] && Of(revs, c)[|Of(revs, c)| - 1].changeset == c
  {
    FirstsOnce(revs);
    assert revs[0] in revs && revs[0].changeset in Firsts(revs);
    var c := Firsts(revs)[|Firsts(revs)| - 1];
    assert c in Firsts(revs);
    OfChangeset(revs, c);
    assert Of(revs, c)[|Of(revs, c)| - 1] in Of(revs, c);
  }

  /** The last revision shown is of the changeset that began last. */
  lemma {:induction false} LastShown(revs: seq<Revision>)
    requires revs != []
    ensures Firsts(revs) != [] && Flatten(Grouped(revs)) != []
    ensures var shown := Flatten(Grouped(revs)); shown[|shown| - 1].changeset == Firsts(revs)[|Firsts(revs)| - 1]
  {
    LastGroup(revs);
    var (gs, c) := (Grouped(revs), Firsts(revs)[|Firsts(revs)| - 1]);
    assert |gs| == |Firsts(revs)| && gs[|gs| - 1].revisions == Of(revs, c);
    LastOfFlatten(gs);
  }

  lemma LastOfFlatten(groups: seq<Group>)
    requires groups != [] && groups[|groups| - 1].revisions != []
    ensures Flatten(groups) != []
    ensures var g := groups[|groups| - 1].revisions; Flatten(groups)[|Flatten(groups)| - 1] == g[|g| - 1]
  {}

  /** Grouping keeps the order received if and only if no changeset is interrupted. */
  lemma {:induction false} KeepsOrder(revs: seq<Revision>)
    ensures Flatten(Grouped(revs)) == revs <==> Contiguous(revs)
    decreases |revs|
  {
    if revs != [] {
      var (before, r) := (revs[..|revs| - 1], revs[|revs| - 1]);
      assert revs == before + [r];
      KeepsOrder(before);
      FirstsOnce(before);
      if r.changeset !in Firsts(before) {
        NewGroup(before, r);
        FlattenSnoc(Grouped(before), Group(r.changeset, [r]));
        NewKeepsOrder(before, r);
      } else {
        var k :| 0 <= k < |Firsts(before)| && Firsts(before)[k] == r.changeset;
        OldGroup(before, r, k);
        OldKeepsOrder(before, r, k);
      }
    }
  }

  lemma SnocEqual(a: seq<Revision>, b: seq<Revision>, r: Revision)
    ensures a + [r] == b + [r] <==> a == b
  {
    assert (a + [r])[..|a + [r]| - 1] == a && (b + [r])[..|b + [r]| - 1] == b;
  }

  lemma NewContiguous(before: seq<Revision>, r: Revision)
    requires forall q :: q in before ==> q.changeset != r.changeset
    ensures Contiguous(before + [r]) <==> Contiguous(before)
  {
    var revs := before + [r];
    assert forall i :: 0 <= i < |before| ==> revs[i] == before[i] && before[i] in before;
    if Contiguous(before) {
      forall i, j, k | 0 <= i < j < k < |revs| && revs[i].changeset == revs[k].changeset
        ensures revs[j].changeset == revs[i].changeset
      {
        assert k < |before|;
      }
    }
  }

  lemma {:induction false} NewKeepsOrder(before: seq<Revision>, r: Revision)
    requires r.changeset !in Firsts(before) && (Flatten(Grouped(before)) == before <==> Contiguous(before))
    ensures Flatten(Grouped(before)) + [r] == before + [r] <==> Contiguous(before + [r])
  {
    FirstsOnce(before);
    SnocEqual(Flatten(Grouped(before)), before, r);
    NewContiguous(before, r);
  }

  /** Whether or not it keeps the order: a revision of an old changeset is shown in its place only if
      that changeset began last. */
  lemma {:induction false} OldKeepsOrder(before: seq<Revision>, r: Revision, k: nat)
    requires k < |Firsts(before)| && Firsts(before)[k] == r.changeset
    requires Flatten(Grouped(before)) == before <==> Contiguous(before)
    ensures Flatten(Grouped(before + [r])) == before + [r] <==> Contiguous(before + [r])
  {
    assert before != [] by {
      FirstsOnce(before);
      assert r.changeset in Firsts(before);
    }
    LastShown(before);
    assert Contiguous(before + [r]) ==> Contiguous(before) by {
      assert forall i :: 0 <= i < |before| ==> (before + [r])[i] == before[i];
    }
    if k == |Firsts(before)| - 1 {
      FlattenLast(before, r);
      SnocEqual(Flatten(Grouped(before)), before, r);
      if Contiguous(before) {
        ContinuesLast(before, r);
      }
    } else {
      InterruptedShown(before, r, k);
      if Contiguous(before) {
        InterruptedIsNot(before, r, k);
      }
    }
  }

  lemma {:induction false} FlattenLast(before: seq<Revision>, r: Revision)
    requires Firsts(before) != [] && Firsts(before)[|Firsts(before)| - 1] == r.changeset
    ensures Flatten(Grouped(before + [r])) == Flatten(Grouped(before)) + [r]
  {
    var (gs, k) := (Grouped(before), |Firsts(before)| - 1);
    OldGroup(before, r, k);
    assert gs[k := gs[k].(revisions := gs[k].revisions + [r])][..k] == gs[..k];
    assert Flatten(gs[..k]) + (gs[k].revisions + [r]) == Flatten(gs[..k]) + gs[k].revisions + [r];
  }

  lemma ContinuesLast(before: seq<Revision>, r: Revision)
    requires before != [] && Contiguous(before) && before[|before| - 1].changeset == r.changeset
    ensures Contiguous(before + [r])
  {}

  lemma {:induction false} InterruptedShown(before: seq<Revision>, r: Revision, k: nat)
    requires k < |Firsts(before)| - 1 && Firsts(before)[k] == r.changeset
    ensures Flatten(Grouped(before + [r])) != before + [r]
  {
    OldGroup(before, r, k);
    FirstsOnce(before);
    LastShown(before + [r]);
  }

  lemma {:induction false} InterruptedIsNot(before: seq<Revision>, r: Revision, k: nat)
    requires k < |Firsts(before)| - 1 && Firsts(before)[k] == r.changeset && before != []
    requires before[|before| - 1].changeset == Firsts(before)[|Firsts(before)| - 1]
    ensures !Contiguous(before + [r])
  {
    FirstsOnce(before);
    assert r.changeset in Firsts(before);
    var q :| q in before && q.changeset == r.changeset;
    var i :| 0 <= i < |before| && before[i] == q;
    var revs := before + [r];
    assert i < |before| - 1 && revs[i].changeset == revs[|before|].changeset != revs[|before| - 1].changeset;
  }
}
