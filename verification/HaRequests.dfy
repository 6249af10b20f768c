/** What each request to the fake node changes, what it leaves alone, and what it reports. */
module HaRequests {
  import opened HaFixture
  import opened Objects
  import opened Options
  import opened Sequences

  lemma {:induction false} WithoutInOrder(nodes: seq<string>, node: string) returns (idx: seq<nat>)
    ensures Places(idx, |nodes|) && |Without(nodes, node)| == |idx|
    ensures forall i :: 0 <= i < |nodes| ==> (i in idx <==> nodes[i] != node)
    ensures forall k :: 0 <= k < |idx| ==> Without(nodes, node)[k] == nodes[idx[k]]
    decreases |nodes|
  {
    idx := [];
    if nodes != [] {
      var (before, n) := (nodes[..|nodes| - 1], |nodes| - 1);
      idx := WithoutInOrder(before, node);
      PlacesMore(idx, n);
      WithoutLast(before, nodes[n], node);
      assert nodes == before + [nodes[n]];
      if nodes[n] != node {
        idx := idx + [n];
      }
    }
  }

  lemma {:induction false} WithoutLast(nodes: seq<string>, last: string, node: string)
    ensures Without(nodes + [last], node) == Without(nodes, node) + if last != node then [last] else []
    decreases |nodes|
  {
    if nodes == [] {
      assert ([] + [last])[1..] == [];
    } else {
      WithoutLast(nodes[1..], last, node);
      assert (nodes + [last])[1..] == nodes[1..] + [last];
    }
  }

  /** A new group as asked, owned by this node in its first epoch; this node comes first among its
      candidates, then the other ones named, in order. */
  lemma CreatesGroup(s: State, r: Request) returns (idx: seq<nat>)
    requires r.CreateGroup?
    ensures var t := Step(s, r);
            t == s.(groups := t.groups) && |t.groups| == |s.groups| + 1 && t.groups[..|s.groups|] == s.groups &&
            var g := t.groups[|s.groups|];
            g.name == r.name && g.topology == r.topology && g.pools == r.pools && g.intervalSecs == r.intervalSecs &&
            g.autoFailover == r.autoFailover && g.owner == s.self.id && g.epoch == 1 &&
            |g.candidates| == |idx| + 1 && g.candidates[0] == s.self.id &&
            forall k :: 0 <= k < |idx| ==> idx[k] < |r.candidates| && g.candidates[k + 1] == r.candidates[idx[k]]
    ensures Places(idx, |r.candidates|)
    ensures forall i :: 0 <= i < |r.candidates| ==> (i in idx <==> r.candidates[i] != s.self.id)
  {
    idx := WithoutInOrder(r.candidates, s.self.id);
  }

  lemma {:induction false} FirstPeer(peers: seq<Peer>, id: string)
    ensures var p := FindPeer(peers, id);
            if p.Some? then exists i :: 0 <= i < |peers| && peers[i] == p.value && p.value.id == id &&
                                        forall j :: 0 <= j < i ==> peers[j].id != id
            else forall j :: 0 <= j < |peers| ==> peers[j].id != id
    decreases |peers|
  {
    if peers != [] && peers[0].id != id {
      FirstPeer(peers[1..], id);
      var p := FindPeer(peers[1..], id);
      assert forall j :: 1 <= j < |peers| ==> peers[j] == peers[1..][j - 1];
      if p.Some? {
        var i :| 0 <= i < |peers| - 1 && peers[1..][i] == p.value && forall j :: 0 <= j < i ==> peers[1..][j].id != id;
        assert peers[i + 1] == p.value;
      }
    }
  }

  /** A cluster of this node and the first peer of that id, each at its address, without a third vote; with
      no such peer nothing changes. */
  lemma {:induction false} FormsCluster(s: State, peerId: string, local: string, remote: string)
    ensures var t := Step(s, FormCluster(peerId, local, remote));
            t == s.(cluster := t.cluster) && (FindPeer(s.peers, peerId).None? ==> t == s) &&
            (FindPeer(s.peers, peerId).Some? ==>
               t.cluster.Some? && t.cluster.value.name == "dplane-abc" && t.cluster.value.qdevice == None &&
               |t.cluster.value.nodes| == 2 && Votes(t) == 2 && !AutoFailover(t) &&
               var (a, b) := (t.cluster.value.nodes[0], t.cluster.value.nodes[1]);
               a.id == 1 && a.key == s.self.id && a.name == s.self.name && a.addr == local &&
               b.id == 2 && b.key == peerId && b.name == FindPeer(s.peers, peerId).value.name && b.addr == remote)
  {
    FirstPeer(s.peers, peerId);
  }

  lemma {:induction false} FindJoined(peers: seq<Peer>, p: Peer)
    ensures FindPeer(peers + [p], p.id).Some?
    decreases |peers|
  {
    if peers == [] {
      assert ([] + [p])[0] == p;
    } else if peers[0].id != p.id {
      FindJoined(peers[1..], p);
      assert (peers + [p])[1..] == peers[1..] + [p];
    }
  }

  /** The other node has joined under the address given; after that a cluster can be formed with it. */
  lemma Joins(s: State, url: string, local: string, remote: string)
    ensures var t := Step(s, Join(url));
            t == s.(peers := t.peers) && |t.peers| == |s.peers| + 1 && t.peers[..|s.peers|] == s.peers &&
            var p := t.peers[|s.peers|];
            p.id == "kb" && p.name == "nas2" && p.url == url && Step(t, FormCluster("kb", local, remote)).cluster.Some?
  {
    FindJoined(s.peers, Peer("kb", "nas2", url));
    FormsCluster(Step(s, Join(url)), "kb", local, remote);
  }

  /** The watchdog decides whether three votes are enough. */
  lemma SetsWatchdog(s: State, enable: bool)
    ensures var t := Step(s, ConfigureWatchdog(enable));
            t == s.(watchdog := enable) && (AutoFailover(t) <==> enable && Votes(s) >= 3)
  {}

  /** A third voter counts if its address is not empty. */
  lemma ThirdVote(s: State, c: Cluster, device: string)
    requires s.cluster == Some(c) && c.qdevice.None?
    ensures Votes(s) == |c.nodes|
    ensures Votes(s.(cluster := Some(c.(qdevice := Some(device))))) == Votes(s) + if device == "" then 0 else 1
  {}

  /** Afterwards this node is out of maintenance; no other flag and nothing else has changed. */
  lemma LeavesMaintenance(s: State)
    ensures var t := Step(s, LeaveMaintenance);
            t == s.(maintenance := t.maintenance) && !InMaintenance(t.maintenance, s.self.id) &&
            forall node :: node != s.self.id ==> InMaintenance(t.maintenance, node) == InMaintenance(s.maintenance, node)
  {}

  /** A node without an entry is out of maintenance, unless its id is an inherited property. */
  lemma NoEntry(s: State, node: string)
    requires node !in s.maintenance && node != s.self.id
    ensures Available(node, s) <==> !Inherited(node)
  {}

  /** Only the groups and this node's own flag can change; the flag is set exactly if nothing failed. */
  lemma EntersMaintenance(s: State)
    ensures var t := Step(s, EnterMaintenance);
            t == s.(groups := t.groups, maintenance := t.maintenance) && |t.groups| == |s.groups| &&
            (forall node :: node != s.self.id ==> InMaintenance(t.maintenance, node) == InMaintenance(s.maintenance, node)) &&
            InMaintenance(t.maintenance, s.self.id) ==
              (InMaintenance(s.maintenance, s.self.id) || forall m :: m in MaintenanceMoves(s) ==> !m.Failed?)
  {}

  // ---------------------------------------------------------------------------
  // The report
  // ---------------------------------------------------------------------------

  /** m says what has become of g, which is now h. */
  ghost predicate Reports(m: Move, g: Group, h: Group, s: State) {
    m.group == g.name &&
    match m
    case Stays(_) => g.topology == Standalone && h == g
    case Failed(_) => Stuck(g, s) && h == g
    case Moved(_, target) => MustMove(g, s) && Takes(target, g, s) && h == g.(owner := target, epoch := g.epoch + 1)
  }

  lemma ReportOf(g: Group, s: State)
    requires g.owner == s.self.id
    ensures Reports(MoveOf(g, s.self.id, s.maintenance), g, HandOver(g, s.self.id, s.maintenance), s)
  {
    if MustMove(g, s) {
      MoveTakes(g, s);
    }
  }

  /** The moves report on the groups this node owned, one by one and in their order. */
  lemma {:induction false} MovesReport(groups: seq<Group>, s: State) returns (idx: seq<nat>)
    ensures Places(idx, |groups|) && |Moves(groups, s.self.id, s.maintenance)| == |idx|
    ensures forall i :: 0 <= i < |groups| ==> (i in idx <==> groups[i].owner == s.self.id)
    ensures forall k :: 0 <= k < |idx| ==>
              Reports(Moves(groups, s.self.id, s.maintenance)[k], groups[idx[k]],
                      HandOver(groups[idx[k]], s.self.id, s.maintenance), s)
    decreases |groups|
  {
    idx := [];
    if groups != [] {
      var n := |groups| - 1;
      idx := MovesReport(groups[..n], s);
      PlacesMore(idx, n);
      if groups[n].owner == s.self.id {
        ReportOf(groups[n], s);
        idx := idx + [n];
      }
    }
  }

  /** What a maintenance request reports is what it does, and it does nothing else. */
  lemma MaintenanceReports(s: State) returns (idx: seq<nat>)
    ensures Places(idx, |s.groups|) && |MaintenanceMoves(s)| == |idx|
    ensures var t := Step(s, EnterMaintenance);
            |t.groups| == |s.groups| &&
            (forall k :: 0 <= k < |idx| ==> Reports(MaintenanceMoves(s)[k], s.groups[idx[k]], t.groups[idx[k]], s)) &&
            forall i :: 0 <= i < |s.groups| && i !in idx ==> s.groups[i].owner != s.self.id && t.groups[i] == s.groups[i]
  {
    idx := MovesReport(s.groups, s);
  }
}
