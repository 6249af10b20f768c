/** The request handlers of the fake node, which change its groups in place. */
module HaFake {
  import opened HaFixture
  import opened Options

  class StorageGroup {
    const name: string
    const topology: Topology
    const pools: seq<string>
    const candidates: seq<string>
    const intervalSecs: int
    const autoFailover: bool
    var owner: string
    var epoch: nat

    constructor (g: Group)
      ensures View() == g
    {
      name, topology, pools, candidates := g.name, g.topology, g.pools, g.candidates;
      intervalSecs, autoFailover, owner, epoch := g.intervalSecs, g.autoFailover, g.owner, g.epoch;
    }

    ghost function View(): Group
      reads this
    {
      Group(name, topology, pools, candidates, owner, epoch, intervalSecs, autoFailover)
    }
  }

  ghost function Views(groups: seq<StorageGroup>): seq<Group>
    reads groups
  {
    seq(|groups|, i requires 0 <= i < |groups| reads groups => groups[i].View())
  }

  class HaNode {
    const self: Node
    var peers: seq<Peer>
    var cluster: Option<Cluster>
    var watchdog: bool
    var groups: seq<StorageGroup>
    var maintenance: map<string, bool>

    /** No two groups are the same object. */
    ghost predicate Valid()
      reads this
    {
      forall i, j :: 0 <= i < j < |groups| ==> groups[i] != groups[j]
    }

    ghost function View(): State
      reads this, groups
    {
      State(self, peers, cluster, watchdog, Views(groups), maintenance)
    }

    constructor FreshNode()
      ensures Valid() && View() == State(Node("ka", "nas1"), [], None, false, [], map[]) && Votes(View()) == 0
    {
      self, peers, cluster, watchdog, groups, maintenance := Node("ka", "nas1"), [], None, false, [], map[];
    }

    /** The only start with a third vote. */
    static method ReadyPair() returns (s: HaNode)
      ensures fresh(s) && s.Valid() && s.View() == READY_PAIR && AutoFailover(s.View()) && Votes(s.View()) == 3
      ensures s.self == Node("ka", "nas1") && s.peers == [Peer("kb", "nas2", "https://nas2.lan")] && s.groups == []
    {
      s := new HaNode.FreshNode();
      s.peers := [Peer("kb", "nas2", "https://nas2.lan")];
      s.cluster := Some(Cluster("dplane-abc",
        [ClusterNode(1, "nas1", "10.0.0.1", "ka"), ClusterNode(2, "nas2", "10.0.0.2", "kb")], Some("10.0.0.9")));
      s.watchdog := true;
    }

    method Join(url: string)
      requires Valid()
      modifies this`peers
      ensures Valid() && View() == Step(old(View()), Request.Join(url))
    {
      peers := peers + [Peer("kb", "nas2", url)];
    }

    /** An unknown peer is a TypeError before anything is assigned. */
    method FormCluster(peerId: string, localAddr: string, peerAddr: string) returns (ok: bool)
      requires Valid()
      modifies this`cluster
      ensures Valid() && View() == Step(old(View()), Request.FormCluster(peerId, localAddr, peerAddr))
      ensures ok <==> exists p :: p in peers && p.id == peerId
    {
      var found := FindPeer(peers, peerId);
      FindPeerFinds(peers, peerId);
      ok := found.Some?;
      if ok {
        var peer := found.value;
        cluster := Some(Cluster("dplane-abc",
          [ClusterNode(1, self.name, localAddr, self.id), ClusterNode(2, peer.name, peerAddr, peer.id)], None));
      }
    }

    method ConfigureWatchdog(enable: bool)
      requires Valid()
      modifies this`watchdog
      ensures Valid() && View() == Step(old(View()), Request.ConfigureWatchdog(enable))
    {
      watchdog := enable;
    }

    method CreateGroup(name: string, topology: Topology, pools: seq<string>, candidates: seq<string>,
                       intervalSecs: int, autoFailover: bool)
      requires Valid()
      modifies this`groups
      ensures Valid() && |groups| == |old(groups)| + 1 && groups[..|old(groups)|] == old(groups)
      ensures View() == Step(old(View()), Request.CreateGroup(name, topology, pools, candidates, intervalSecs, autoFailover))
    {
      var g := new StorageGroup(Group(name, topology, pools, [self.id] + Without(candidates, self.id), self.id, 1,
                                      intervalSecs, autoFailover));
      ghost var before := Views(groups);
      groups := groups + [g];
      assert Views(groups) == before + [g.View()];
    }

    /** The callback of the map over the groups this node owns. */
    method MoveGroup(g: StorageGroup) returns (move: Move)
      requires g.owner == self.id
      modifies g
      ensures move == MoveOf(old(g.View()), self.id, maintenance)
      ensures g.View() == HandOver(old(g.View()), self.id, maintenance)
    {
      if g.topology == Standalone {
        return Stays(g.name);
      }
      var target := Target(g.candidates, self.id, maintenance);
      if target.None? || target.value == "" {
        return Failed(g.name);
      }
      g.owner := target.value;
      g.epoch := g.epoch + 1;
      move := Moved(g.name, target.value);
    }

    /** One group's share of the filter and the map. */
    method VisitGroup(g: StorageGroup) returns (moves: seq<Move>)
      modifies g
      ensures moves == Moves([old(g.View())], self.id, maintenance)
      ensures g.View() == HandOver(old(g.View()), self.id, maintenance)
    {
      moves := [];
      if g.owner == self.id {
        var move := MoveGroup(g);
        moves := [move];
      }
    }

    /** The same for the group at place i, seen among all groups. */
    method VisitAt(i: nat) returns (moves: seq<Move>)
      requires Valid() && i < |groups|
      modifies groups[i]
      ensures moves == Moves([old(Views(groups)[i])], self.id, maintenance)
      ensures Views(groups) == old(Views(groups))[i := HandOver(old(Views(groups)[i]), self.id, maintenance)]
    {
      assert groups[i].View() == Views(groups)[i];
      moves := VisitGroup(groups[i]);
      assert groups[i].View() == Views(groups)[i];
      assert forall k :: 0 <= k < |groups| && k != i ==> groups[k].View() == old(groups[k].View());
    }

    method MoveGroups() returns (moves: seq<Move>)
      requires Valid()
      modifies groups
      ensures moves == MaintenanceMoves(old(View())) && Views(groups) == HandAllOver(old(View()))
    {
      ghost var was := Views(groups);
      moves := [];
      for i := 0 to |groups|
        invariant moves == Moves(was[..i], self.id, maintenance)
        invariant Views(groups) == HandOverFirst(was, i, self.id, maintenance)
      {
        MovesSnoc(was[..i], was[i], self.id, maintenance);
        assert was[..i + 1] == was[..i] + [was[i]];
        var more := VisitAt(i);
        moves := moves + more;
      }
      assert was[..|groups|] == was;
    }

    method EnterMaintenance() returns (moves: seq<Move>, ok: bool)
      requires Valid()
      modifies this`maintenance, groups
      ensures Valid() && View() == Step(old(View()), Request.EnterMaintenance)
      ensures moves == MaintenanceMoves(old(View())) && (ok <==> !AnyFailed(moves))
    {
      moves := MoveGroups();
      ok := !AnyFailed(moves);
      if ok {
        maintenance := maintenance[self.id := true];
      }
    }

    method LeaveMaintenance()
      requires Valid()
      modifies this`maintenance
      ensures Valid() && View() == Step(old(View()), Request.LeaveMaintenance)
    {
      maintenance := maintenance[self.id := false];
    }
  }

  /** The groups when the first n have been visited. */
  ghost function HandOverFirst(groups: seq<Group>, n: nat, self: string, maintenance: map<string, bool>): (r: seq<Group>)
    requires n <= |groups|
  {
    seq(|groups|, k requires 0 <= k < |groups| => if k < n then HandOver(groups[k], self, maintenance) else groups[k])
  }

  lemma {:induction false} MovesSnoc(groups: seq<Group>, g: Group, self: string, maintenance: map<string, bool>)
    ensures Moves(groups + [g], self, maintenance) == Moves(groups, self, maintenance) + Moves([g], self, maintenance)
  {}

  lemma {:induction false} FindPeerFinds(peers: seq<Peer>, id: string)
    ensures FindPeer(peers, id).Some? <==> exists p :: p in peers && p.id == id
    ensures FindPeer(peers, id).Some? ==> FindPeer(peers, id).value.id == id
    decreases |peers|
  {
    if peers != [] {
      FindPeerFinds(peers[1..], id);
      assert peers == [peers[0]] + peers[1..];
    }
  }
}
