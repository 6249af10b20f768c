/** The fake high-availability node as a state machine: who owns a storage group, and in which epoch. */
module HaFixture {
  import opened Objects
  import opened Options

  datatype Node = Node(id: string, name: string)
  datatype Peer = Peer(id: string, name: string, url: string)
  datatype ClusterNode = ClusterNode(id: nat, name: string, addr: string, key: string)
  datatype Cluster = Cluster(name: string, nodes: seq<ClusterNode>, qdevice: Option<string>)

  datatype Topology = Standalone | Shared | Replicated

  datatype Group = Group(
    name: string, topology: Topology, pools: seq<string>, candidates: seq<string>, owner: string, epoch: nat,
    intervalSecs: int, autoFailover: bool)

  datatype State = State(
    self: Node, peers: seq<Peer>, cluster: Option<Cluster>, watchdog: bool, groups: seq<Group>,
    maintenance: map<string, bool>)

  datatype Request =
    | Join(url: string)
    | FormCluster(peerId: string, localAddr: string, peerAddr: string)
    | ConfigureWatchdog(enable: bool)
    | CreateGroup(name: string, topology: Topology, pools: seq<string>, candidates: seq<string>,
                  intervalSecs: int, autoFailover: bool)
    | EnterMaintenance
    | LeaveMaintenance
    | Read

  const FRESH := State(Node("ka", "nas1"), [], None, false, [], map[])

  const READY_PAIR := FRESH.(
    peers := [Peer("kb", "nas2", "https://nas2.lan")], watchdog := true,
    cluster := Some(Cluster("dplane-abc",
      [ClusterNode(1, "nas1", "10.0.0.1", "ka"), ClusterNode(2, "nas2", "10.0.0.2", "kb")], Some("10.0.0.9"))))

  // ---------------------------------------------------------------------------
  // Maintenance
  // ---------------------------------------------------------------------------

  /** The record's entry is true, or the node has none and the name of an inherited property. */
  predicate InMaintenance(maintenance: map<string, bool>, node: string) {
    if node in maintenance then maintenance[node] else Inherited(node)
  }

  /** The first candidate that is another node and out of maintenance. */
  function Target(candidates: seq<string>, self: string, maintenance: map<string, bool>): Option<string> {
    if candidates == [] then None
    else if candidates[0] != self && !InMaintenance(maintenance, candidates[0]) then Some(candidates[0])
    else Target(candidates[1..], self, maintenance)
  }

  datatype Move = Stays(group: string) | Failed(group: string) | Moved(group: string, target: string)

  /** What becomes of a group this node owns when it enters maintenance. An empty id counts as none. */
  function MoveOf(g: Group, self: string, maintenance: map<string, bool>): Move {
    if g.topology == Standalone then Stays(g.name)
    else
      match Target(g.candidates, self, maintenance)
      case None => Failed(g.name)
      case Some(target) => if target == "" then Failed(g.name) else Moved(g.name, target)
  }

  function HandOver(g: Group, self: string, maintenance: map<string, bool>): Group {
    if g.owner == self && MoveOf(g, self, maintenance).Moved? then
      g.(owner := MoveOf(g, self, maintenance).target, epoch := g.epoch + 1)
    else g
  }

  function Moves(groups: seq<Group>, self: string, maintenance: map<string, bool>): seq<Move> {
    if groups == [] then []
    else
      var (before, g) := (groups[..|groups| - 1], groups[|groups| - 1]);
      Moves(before, self, maintenance) + if g.owner == self then [MoveOf(g, self, maintenance)] else []
  }

  predicate AnyFailed(moves: seq<Move>) { exists m :: m in moves && m.Failed? }

  function HandAllOver(s: State): seq<Group> {
    seq(|s.groups|, i requires 0 <= i < |s.groups| => HandOver(s.groups[i], s.self.id, s.maintenance))
  }

  function MaintenanceMoves(s: State): seq<Move> { Moves(s.groups, s.self.id, s.maintenance) }

  // ---------------------------------------------------------------------------
  // Steps
  // ---------------------------------------------------------------------------

  function FindPeer(peers: seq<Peer>, id: string): Option<Peer> {
    if peers == [] then None else if peers[0].id == id then Some(peers[0]) else FindPeer(peers[1..], id)
  }

  function Without(nodes: seq<string>, node: string): seq<string> {
    if nodes == [] then []
    else (if nodes[0] != node then [nodes[0]] else []) + Without(nodes[1..], node)
  }

  function Step(s: State, r: Request): State {
    match r
    case Join(url) => s.(peers := s.peers + [Peer("kb", "nas2", url)])
    case FormCluster(peerId, localAddr, peerAddr) =>
      (match FindPeer(s.peers, peerId)
       case None => s
       case Some(peer) =>
         s.(cluster := Some(Cluster("dplane-abc",
           [ClusterNode(1, s.self.name, localAddr, s.self.id), ClusterNode(2, peer.name, peerAddr, peer.id)], None))))
    case ConfigureWatchdog(enable) => s.(watchdog := enable)
    case CreateGroup(name, topology, pools, candidates, intervalSecs, autoFailover) =>
      s.(groups := s.groups + [Group(name, topology, pools, [s.self.id] + Without(candidates, s.self.id), s.self.id, 1,
                                     intervalSecs, autoFailover)])
    case EnterMaintenance =>
      s.(groups := HandAllOver(s),
         maintenance := if AnyFailed(MaintenanceMoves(s)) then s.maintenance else s.maintenance[s.self.id := true])
    case LeaveMaintenance => s.(maintenance := s.maintenance[s.self.id := false])
    case Read => s
  }

  /** The state after the first n requests. */
  function After(s: State, rs: seq<Request>, n: nat): State
    requires n <= |rs|
  {
    if n == 0 then s else Step(After(s, rs, n - 1), rs[n - 1])
  }

  // ---------------------------------------------------------------------------
  // What a maintenance request does
  // ---------------------------------------------------------------------------

  predicate Available(node: string, s: State) { node != s.self.id && !InMaintenance(s.maintenance, node) }

  /** Candidate k is the first other node out of maintenance. */
  ghost predicate FirstAvailable(g: Group, s: State, k: nat) {
    k < |g.candidates| && Available(g.candidates[k], s) && forall j :: 0 <= j < k ==> !Available(g.candidates[j], s)
  }

  /** The group can go to node: the first available candidate, whose id is not empty. */
  ghost predicate Takes(node: string, g: Group, s: State) {
    node != "" && exists k: nat :: FirstAvailable(g, s, k) && g.candidates[k] == node
  }

  /** The group has to be handed over: this node owns it, and not as its only node. */
  predicate MustMove(g: Group, s: State) { g.owner == s.self.id && g.topology != Standalone }

  /** The group has to be handed over and cannot. */
  ghost predicate Stuck(g: Group, s: State) { MustMove(g, s) && forall c :: !Takes(c, g, s) }

  lemma {:induction false} TargetIsFirst(g: Group, s: State, candidates: seq<string>, k: nat)
    requires k <= |g.candidates| && candidates == g.candidates[k..]
    requires forall j :: 0 <= j < k ==> !Available(g.candidates[j], s)
    ensures var t := Target(candidates, s.self.id, s.maintenance);
            if t.Some? then exists m: nat :: FirstAvailable(g, s, m) && g.candidates[m] == t.value
            else forall m: nat :: !FirstAvailable(g, s, m)
    decreases |candidates|
  {
    if candidates != [] {
      if Available(candidates[0], s) {
        assert FirstAvailable(g, s, k);
      } else {
        TargetIsFirst(g, s, candidates[1..], k + 1);
      }
    }
  }

  lemma OnlyFirst(g: Group, s: State, k: nat, m: nat)
    requires FirstAvailable(g, s, k) && FirstAvailable(g, s, m)
    ensures k == m
  {}

  /** A group that must move goes to the node that can take it, or stays where it is and fails. */
  lemma MoveTakes(g: Group, s: State)
    requires MustMove(g, s)
    ensures var m := MoveOf(g, s.self.id, s.maintenance);
            if m.Moved? then Takes(m.target, g, s) && Available(m.target, s) && m.target in g.candidates
            else m.Failed? && Stuck(g, s)
  {
    assert g.candidates[0..] == g.candidates;
    TargetIsFirst(g, s, g.candidates, 0);
    var t := Target(g.candidates, s.self.id, s.maintenance);
    if t.Some? {
      var k: nat :| FirstAvailable(g, s, k) && g.candidates[k] == t.value;
      forall m: nat | FirstAvailable(g, s, m)
        ensures m == k
      {
        OnlyFirst(g, s, k, m);
      }
    }
  }

  lemma FailedConcat(a: seq<Move>, b: seq<Move>)
    ensures AnyFailed(a + b) <==> AnyFailed(a) || AnyFailed(b)
  {
    assert forall m :: m in a + b <==> m in a || m in b;
  }

  lemma FailedOne(g: Group, s: State)
    requires g.owner == s.self.id
    ensures AnyFailed([MoveOf(g, s.self.id, s.maintenance)]) <==> Stuck(g, s)
  {
    var m := MoveOf(g, s.self.id, s.maintenance);
    assert m in [m];
    if MustMove(g, s) {
      MoveTakes(g, s);
    }
  }

  ghost predicate AnyStuck(groups: seq<Group>, s: State) { exists i :: 0 <= i < |groups| && Stuck(groups[i], s) }

  lemma StuckLast(before: seq<Group>, g: Group, s: State)
    ensures AnyStuck(before + [g], s) <==> AnyStuck(before, s) || Stuck(g, s)
  {
    var groups := before + [g];
    if i :| 0 <= i < |before| && Stuck(before[i], s) {
      assert groups[i] == before[i];
    }
    if Stuck(g, s) {
      assert groups[|before|] == g;
    }
  }

  lemma {:induction false} FailedMoves(groups: seq<Group>, s: State)
    ensures AnyFailed(Moves(groups, s.self.id, s.maintenance)) <==> AnyStuck(groups, s)
    decreases |groups|
  {
    if groups != [] {
      var (before, g) := (groups[..|groups| - 1], groups[|groups| - 1]);
      FailedMoves(before, s);
      assert groups == before + [g];
      StuckLast(before, g, s);
      var ms := Moves(before, s.self.id, s.maintenance);
      if g.owner == s.self.id {
        FailedConcat(ms, [MoveOf(g, s.self.id, s.maintenance)]);
        FailedOne(g, s);
      } else {
        assert ms + [] == ms;
      }
    }
  }

  /** The request succeeds if and only if in every group that must move the first available candidate
      exists and has an id; then this node is left with standalone groups only, and each moved group
      with that candidate. */
  lemma MaintenanceSucceeds(s: State)
    ensures !AnyFailed(MaintenanceMoves(s)) <==> forall i :: 0 <= i < |s.groups| ==> !Stuck(s.groups[i], s)
    ensures !AnyFailed(MaintenanceMoves(s)) ==>
              var t := Step(s, EnterMaintenance);
              InMaintenance(t.maintenance, t.self.id) &&
              forall i :: 0 <= i < |s.groups| ==>
                !MustMove(t.groups[i], t) && (MustMove(s.groups[i], s) ==> Takes(t.groups[i].owner, s.groups[i], s))
  {
    FailedMoves(s.groups, s);
    var t := Step(s, EnterMaintenance);
    if !AnyFailed(MaintenanceMoves(s)) {
      forall i | 0 <= i < |s.groups|
        ensures !MustMove(t.groups[i], t) && (MustMove(s.groups[i], s) ==> Takes(t.groups[i].owner, s.groups[i], s))
      {
        HandedOver(s.groups[i], s);
      }
    }
  }

  /** A group changes exactly if it must move and can. */
  lemma HandedOver(g: Group, s: State)
    ensures var h := HandOver(g, s.self.id, s.maintenance);
            if MustMove(g, s) && !Stuck(g, s) then Takes(h.owner, g, s) && h.owner != s.self.id && h != g else h == g
  {
    if MustMove(g, s) {
      MoveTakes(g, s);
    }
  }

  /** A refused request is not undone: it leaves the groups as they were if and only if
      every group that must move is stuck. */
  lemma RefusedMaintenance(s: State)
    requires AnyFailed(MaintenanceMoves(s))
    ensures var t := Step(s, EnterMaintenance);
            t.maintenance == s.maintenance &&
            (t.groups == s.groups <==> forall i :: 0 <= i < |s.groups| && MustMove(s.groups[i], s) ==> Stuck(s.groups[i], s))
  {
    var t := Step(s, EnterMaintenance);
    forall i | 0 <= i < |s.groups|
      ensures t.groups[i] == s.groups[i] <==> (MustMove(s.groups[i], s) ==> Stuck(s.groups[i], s))
    {
      HandedOver(s.groups[i], s);
    }
  }

  lemma CreateAppends(s: State, candidates: seq<string>)
    requires s.self.id !in candidates
    ensures var t := Step(s, CreateGroup("g", Shared, [], candidates, 60, true));
            t == s.(groups := s.groups + [Group("g", Shared, [], [s.self.id] + candidates, s.self.id, 1, 60, true)])
  {
    WithoutNone(candidates, s.self.id);
  }

  lemma {:induction false} WithoutNone(nodes: seq<string>, node: string)
    requires node !in nodes
    ensures Without(nodes, node) == nodes
    decreases |nodes|
  {
    if nodes != [] {
      WithoutNone(nodes[1..], node);
      assert nodes == [nodes[0]] + nodes[1..];
    }
  }

  /** From any state, with any other node out of maintenance: one group that can go there and one that
      has no other node make a refused request that moves a group. */
  lemma RefusedButMoved(s: State, other: string) returns (t: State)
    requires other != "" && Available(other, s)
    ensures var rs := [CreateGroup("g", Shared, [], [other], 60, true), CreateGroup("g", Shared, [], [], 60, true)];
            t == After(s, rs, 2)
    ensures AnyFailed(MaintenanceMoves(t)) && |t.groups| == |s.groups| + 2
    ensures t.groups[|s.groups|].owner == s.self.id && Step(t, EnterMaintenance).groups[|s.groups|].owner == other
  {
    var rs := [CreateGroup("g", Shared, [], [other], 60, true), CreateGroup("g", Shared, [], [], 60, true)];
    var (n, u) := (|s.groups|, Step(s, rs[0]));
    t := Step(u, rs[1]);
    assert After(s, rs, 1) == Step(After(s, rs, 0), rs[0]) == u;
    CreateAppends(s, [other]);
    CreateAppends(u, []);
    MovedThenRefused(t, n, other);
  }

  lemma MovedThenRefused(s: State, n: nat, other: string)
    requires n + 1 < |s.groups| && MustMove(s.groups[n], s) && s.groups[n].candidates == [s.self.id, other]
    requires MustMove(s.groups[n + 1], s) && s.groups[n + 1].candidates == [s.self.id] && other != "" && Available(other, s)
    ensures AnyFailed(MaintenanceMoves(s)) && Step(s, EnterMaintenance).groups[n].owner == other
  {
    var (g, h) := (s.groups[n], s.groups[n + 1]);
    assert FirstAvailable(g, s, 1);
    assert Takes(other, g, s);
    MovesTo(g, s, other);
    assert forall k: nat :: !FirstAvailable(h, s, k);
    assert Stuck(h, s);
    FailedMoves(s.groups, s);
  }

  lemma MovesTo(g: Group, s: State, node: string)
    requires MustMove(g, s) && Takes(node, g, s)
    ensures HandOver(g, s.self.id, s.maintenance).owner == node
  {
    MoveTakes(g, s);
    var k: nat :| FirstAvailable(g, s, k) && g.candidates[k] == node;
    var target := HandOver(g, s.self.id, s.maintenance).owner;
    var m: nat :| FirstAvailable(g, s, m) && g.candidates[m] == target;
    OnlyFirst(g, s, k, m);
  }

  /** An empty id in front of a node that could take the group: the request fails. */
  lemma EmptyIdBlocks(s: State, other: string) returns (t: State)
    requires Available("", s) && s.self.id != other
    ensures t == After(s, [CreateGroup("g", Shared, [], ["", other], 60, true)], 1)
    ensures AnyFailed(MaintenanceMoves(t)) && |t.groups| == |s.groups| + 1
    ensures Step(t, EnterMaintenance).groups[|s.groups|].owner == s.self.id
  {
    var rs := [CreateGroup("g", Shared, [], ["", other], 60, true)];
    t := Step(s, rs[0]);
    assert After(s, rs, 1) == Step(After(s, rs, 0), rs[0]) == t;
    CreateAppends(s, ["", other]);
    EmptyIdFails(t, |s.groups|);
  }

  lemma EmptyIdFails(s: State, n: nat)
    requires n < |s.groups| && MustMove(s.groups[n], s) && Available("", s)
    requires |s.groups[n].candidates| > 1 && s.groups[n].candidates[..2] == [s.self.id, ""]
    ensures AnyFailed(MaintenanceMoves(s)) && Step(s, EnterMaintenance).groups[n] == s.groups[n]
  {
    var g := s.groups[n];
    assert g.candidates[0] == s.self.id && g.candidates[1] == "";
    assert FirstAvailable(g, s, 1);
    forall k: nat | FirstAvailable(g, s, k)
      ensures k == 1
    {
      OnlyFirst(g, s, 1, k);
    }
    assert Stuck(g, s);
    FailedMoves(s.groups, s);
    HandedOver(g, s);
  }

  // ---------------------------------------------------------------------------
  // Over whole runs
  // ---------------------------------------------------------------------------

  ghost predicate WellFormed(s: State) {
    forall i :: 0 <= i < |s.groups| ==> s.groups[i].owner in s.groups[i].candidates && s.groups[i].epoch >= 1
  }

  /** g is h with a new owner and the next epoch, or g is h. */
  ghost predicate Follows(g: Group, h: Group, self: string) {
    g == h ||
    (h.owner == self && g == h.(owner := g.owner, epoch := h.epoch + 1) && g.owner != self && g.owner in h.candidates)
  }

  lemma StepFollows(s: State, r: Request)
    ensures var t := Step(s, r);
            t.self == s.self && |t.groups| >= |s.groups| &&
            (forall i :: 0 <= i < |s.groups| ==> Follows(t.groups[i], s.groups[i], s.self.id)) &&
            forall i :: |s.groups| <= i < |t.groups| ==> t.groups[i].owner in t.groups[i].candidates && t.groups[i].epoch == 1
  {
    if r.EnterMaintenance? {
      forall i | 0 <= i < |s.groups|
        ensures Follows(HandOver(s.groups[i], s.self.id, s.maintenance), s.groups[i], s.self.id)
      {
        if MustMove(s.groups[i], s) {
          MoveTakes(s.groups[i], s);
        }
      }
    }
  }

  /** The owner of a group is always one of its candidates. */
  lemma {:induction false} RunKeeps(s: State, rs: seq<Request>, n: nat)
    requires n <= |rs| && WellFormed(s)
    ensures WellFormed(After(s, rs, n)) && After(s, rs, n).self == s.self
    decreases n
  {
    if n > 0 {
      RunKeeps(s, rs, n - 1);
      StepFollows(After(s, rs, n - 1), rs[n - 1]);
    }
  }

  function OwnerOf(s: State, i: nat): Option<string> { if i < |s.groups| then Some(s.groups[i].owner) else None }

  /** How often group i got a new owner in the steps from a to b. */
  ghost function Changes(s: State, rs: seq<Request>, i: nat, a: nat, b: nat): nat
    requires a <= b <= |rs|
    decreases b
  {
    if a == b then 0
    else Changes(s, rs, i, a, b - 1) + if OwnerOf(After(s, rs, b), i) != OwnerOf(After(s, rs, b - 1), i) then 1 else 0
  }

  /** From any point of a run to any later one: the epoch has risen by the changes of owner,
      of which there is at most one, away from this node, and never one back. */
  lemma {:induction false} EpochCountsChanges(s: State, rs: seq<Request>, i: nat, a: nat, b: nat)
    requires a <= b <= |rs| && i < |After(s, rs, a).groups|
    ensures var (t, u) := (After(s, rs, a), After(s, rs, b));
            i < |u.groups| && u.self == t.self && Follows(u.groups[i], t.groups[i], t.self.id) &&
            u.groups[i].epoch == t.groups[i].epoch + Changes(s, rs, i, a, b)
    decreases b
  {
    if a < b {
      EpochCountsChanges(s, rs, i, a, b - 1);
      StepFollows(After(s, rs, b - 1), rs[b - 1]);
    }
  }

  /** A group and its epoch determine the owner. */
  lemma {:induction false} OneOwnerPerEpoch(s: State, rs: seq<Request>, i: nat, a: nat, b: nat)
    requires a <= |rs| && b <= |rs| && i < |After(s, rs, a).groups| && i < |After(s, rs, b).groups|
    requires After(s, rs, a).groups[i].epoch == After(s, rs, b).groups[i].epoch
    ensures After(s, rs, a).groups[i] == After(s, rs, b).groups[i]
  {
    if a <= b {
      EpochCountsChanges(s, rs, i, a, b);
    } else {
      EpochCountsChanges(s, rs, i, b, a);
    }
  }

  /** In maintenance this node serves standalone groups only. */
  ghost predicate Parked(s: State) {
    InMaintenance(s.maintenance, s.self.id) ==> forall i :: 0 <= i < |s.groups| ==> !MustMove(s.groups[i], s)
  }

  /** A step keeps that, unless it creates a group with other nodes during maintenance. */
  lemma ParkedExactly(s: State, r: Request)
    requires Parked(s)
    ensures Parked(Step(s, r)) <==>
            !(r.CreateGroup? && r.topology != Standalone && InMaintenance(s.maintenance, s.self.id))
  {
    var t := Step(s, r);
    if r.EnterMaintenance? {
      if AnyFailed(MaintenanceMoves(s)) {
        FailedMoves(s.groups, s);
      } else {
        MaintenanceSucceeds(s);
      }
    } else if r.CreateGroup? {
      assert MustMove(t.groups[|s.groups|], t) <==> r.topology != Standalone;
    }
  }

  // ---------------------------------------------------------------------------
  // Votes
  // ---------------------------------------------------------------------------

  function Votes(s: State): nat {
    match s.cluster
    case None => 0
    case Some(c) => |c.nodes| + if c.qdevice.Some? && c.qdevice.value != "" then 1 else 0
  }

  predicate AutoFailover(s: State) { Votes(s) >= 3 && s.watchdog }

  /** Forming a cluster anew drops the third vote and nothing brings it back: automatic failover
      is on only while the cluster is the one the run began with. */
  lemma {:induction false} ThirdVoteIsNotWon(s: State, rs: seq<Request>, n: nat)
    requires n <= |rs|
    ensures After(s, rs, n).cluster == s.cluster || Votes(After(s, rs, n)) == 2
    ensures AutoFailover(After(s, rs, n)) ==> Votes(s) >= 3
    decreases n
  {
    if n > 0 {
      ThirdVoteIsNotWon(s, rs, n - 1);
    }
  }
}
