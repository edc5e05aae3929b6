/** Every run of a cluster: heartbeats, ticks, failover passes, snapshot syncs that may be
    delayed, cut by their frame or lost, and restarts from the stored file. */
module ControlRuns {
  import opened Bytes
  import opened Cluster
  import opened ClusterCodec
  import opened ControlPlane
  import opened SyncWire

  /** A broker and the GET_CLUSTER response on its way to it, if it has asked for one. */
  datatype Site = Site(node: Node, inbox: Option<seq<byte>>)

  type Sites = map<BrokerId, Site>

  datatype Action =
    | Heartbeat(at: BrokerId, from: BrokerId, now: u64, timeout: u64)
    | Tick(at: BrokerId, now: u64, timeout: u64)
    | Pass(at: BrokerId, now: u64, timeout: u64)
    | Snapshot(at: BrokerId)
    | Deliver(at: BrokerId, now: u64)
    | Lose(at: BrokerId)
    | Restart(at: BrokerId)

  /** What all brokers of a run share: the seed, the controller setting, and so the controller. */
  datatype Setup = Setup(seed: ClusterConfig, setting: Setting, controller: BrokerId)

  /** What an action does to the broker it happens at; `answer` is the controller's state. */
  ghost predicate SiteStep(u: Setup, s: Site, s': Site, a: Action, answer: ClusterState) {
    match a
    case Heartbeat(at, from, now, timeout) =>
      HeartbeatStep(u.setting, at, s.node, s'.node, from, now, timeout) && s'.inbox == s.inbox
    case Tick(at, now, timeout) =>
      TickStep(u.setting, at, s.node, s'.node, now, timeout) && s'.inbox == s.inbox
    case Pass(at, now, timeout) =>
      FailoverStep(u.setting, at, s.node, s'.node, now, timeout) && s'.inbox == s.inbox
    case Snapshot(at) =>
      // Only followers sync, one request at a time.
      at != u.controller && s.inbox.None? && s' == s.(inbox := Some(InfoBytes(answer)))
    case Deliver(at, now) =>
      && s.inbox.Some? && s'.inbox.None?
      && var r := Synced(s.inbox.value, now);
         if r.Ok? then Installed(s'.node, r.value) else s'.node == s.node
    case Lose(at) =>
      s' == s.(inbox := None)
    case Restart(at) =>
      var r := ParseFile(s.node.file);
      r.Ok? && s' == Site(Node(r.value, ToConfig(r.value), s.node.file), None)
  }

  ghost predicate Step(u: Setup, ss: Sites, a: Action, ss': Sites) {
    && u.controller in ss && a.at in ss
    && ss'.Keys == ss.Keys
    && SiteStep(u, ss[a.at], ss'[a.at], a, ss[u.controller].node.mem)
    && forall b :: b in ss && b != a.at ==> ss'[b] == ss[b]
  }

  /** Every broker boots from the same seed, at a time of its own. */
  ghost predicate Init(u: Setup, ss: Sites) {
    && ControllerId(u.setting, u.seed.brokers) == Some(u.controller) && u.controller in ss
    && forall b :: b in ss ==>
         ss[b].inbox.None? && exists now: u64 :: Installed(ss[b].node, FromSeed(u.seed, now))
  }

  ghost predicate IsRun(u: Setup, run: seq<Sites>, actions: seq<Action>) {
    && |run| == |actions| + 1
    && Init(u, run[0])
    && forall i :: 0 <= i < |actions| ==> Step(u, run[i], actions[i], run[i + 1])
  }

  // ---- What every state keeps

  function Ids(brokers: seq<BrokerNode>): set<BrokerId> {
    set b | b in brokers :: b.id
  }

  /** The fixed part of an assignment. */
  predicate SamePlace(a: LiveAssignment, p: PartitionAssignment) {
    a.topicId == p.topicId && a.partitionId == p.partitionId && a.replicas == p.replicas
  }

  predicate Fits(seed: ClusterConfig, st: ClusterState) {
    && st.brokers == seed.brokers && st.minInsyncReplicas == seed.minInsyncReplicas
    && |st.assignments| == |seed.assignments|
    && (forall i :: 0 <= i < |st.assignments| ==> SamePlace(st.assignments[i], seed.assignments[i]))
    && st.lastSeen.Keys <= Ids(seed.brokers)
  }

  lemma {:induction false} IdsBound(brokers: seq<BrokerNode>)
    ensures |Ids(brokers)| <= |brokers|
    decreases |brokers|
  {
    if brokers != [] {
      var n := |brokers| - 1;
      IdsBound(brokers[..n]);
      assert brokers == brokers[..n] + [brokers[n]];
      assert Ids(brokers) == Ids(brokers[..n]) + {brokers[n].id};
    }
  }

  lemma KeysBound(m: map<BrokerId, u64>, s: set<BrokerId>)
    requires m.Keys <= s
    ensures |m| <= |s|
  {
    assert s == m.Keys + (s - m.Keys);
  }

  lemma FitsEncodable(seed: ClusterConfig, st: ClusterState)
    requires EncodableConfig(seed) && Fits(seed, st)
    ensures Encodable(st) && |st.lastSeen| <= U16_MAX
  {
    IdsBound(seed.brokers);
    KeysBound(st.lastSeen, Ids(seed.brokers));
    forall a | a in st.assignments ensures EncodableLive(a) {
      var i :| 0 <= i < |st.assignments| && st.assignments[i] == a;
      assert seed.assignments[i] in seed.assignments;
    }
  }

  /** The cached view is the projection of the live state, and the stored file decodes to the
      same assignments and epochs, although it may hold older liveness. */
  ghost predicate NodeOk(seed: ClusterConfig, n: Node) {
    && Fits(seed, n.mem)
    && n.view == ToConfig(n.mem)
    && var r := ParseFile(n.file);
       r.Ok? && Fits(seed, r.value) && r.value.assignments == n.mem.assignments
  }

  /** A response in flight is the byte form of some state of this cluster. */
  ghost predicate InboxOk(seed: ClusterConfig, inbox: Option<seq<byte>>) {
    inbox.Some? ==> exists st :: Fits(seed, st) && inbox.value == InfoBytes(st)
  }

  ghost predicate SiteOk(seed: ClusterConfig, s: Site) {
    NodeOk(seed, s.node) && InboxOk(seed, s.inbox)
  }

  lemma InstalledOk(seed: ClusterConfig, n: Node, st: ClusterState)
    requires EncodableConfig(seed) && Fits(seed, st) && Installed(n, st)
    ensures NodeOk(seed, n)
  {
    hide ParseFile, StateBytes, Encodable, EncodableConfig, ToConfig, Fits;
    FitsEncodable(seed, st);
    var order :| Enumerates(order, st.lastSeen) && n.file == StateBytes(st, order);
    FileRoundTrip(st, order);
  }

  lemma FailoverFits(seed: ClusterConfig, st: ClusterState, now: u64, timeout: u64)
    requires Fits(seed, st)
    ensures Fits(seed, Failover(st, now, timeout))
  {
    var after := Failover(st, now, timeout);
    forall i | 0 <= i < |after.assignments| ensures SamePlace(after.assignments[i], seed.assignments[i]) {
      assert SamePlace(st.assignments[i], seed.assignments[i]);
      FailoverMinimal(st.assignments[i], Clock(st.lastSeen, now, timeout));
    }
  }

  lemma RecordedFits(seed: ClusterConfig, st: ClusterState, id: BrokerId, at: u64)
    requires Fits(seed, st)
    ensures Fits(seed, Recorded(st, id, at))
    ensures Recorded(st, id, at).assignments == st.assignments
    ensures ToConfig(Recorded(st, id, at)) == ToConfig(st)
  {
  }

  lemma SeedFits(seed: ClusterConfig, now: u64)
    ensures Fits(seed, FromSeed(seed, now))
  {
  }

  lemma FailoverStepOk(seed: ClusterConfig, setting: Setting, self: BrokerId, n: Node, n': Node, now: u64, timeout: u64)
    requires EncodableConfig(seed) && NodeOk(seed, n) && FailoverStep(setting, self, n, n', now, timeout)
    ensures NodeOk(seed, n')
  {
    hide ParseFile, FailedOver, EncodableConfig, Diff;
    FailoverFits(seed, n.mem, now, timeout);
    var st := Failover(n.mem, now, timeout);
    if IsController(setting, n.mem, self) {
      if Diff(n.mem.assignments, st.assignments) == [] {
        DiffEmpty(n.mem.assignments, st.assignments);
      } else {
        InstalledOk(seed, n', st);
      }
    }
  }

  lemma NodeStepOk(u: Setup, s: Site, s': Site, a: Action, answer: ClusterState)
    requires EncodableConfig(u.seed) && SiteOk(u.seed, s) && SiteStep(u, s, s', a, answer)
    requires a.Heartbeat? || a.Tick? || a.Pass?
    ensures SiteOk(u.seed, s')
  {
    hide ParseFile, Failover, FailoverStep, EncodableConfig, Recorded, Fits, ToConfig;
    match a
    case Heartbeat(at, from, now, timeout) =>
      RecordedFits(u.seed, s.node.mem, from, now);
      FailoverFits(u.seed, Recorded(s.node.mem, from, now), now, timeout);
      if IsController(u.setting, s.node.mem, at) {
        InstalledOk(u.seed, s'.node, Failover(Recorded(s.node.mem, from, now), now, timeout));
      }
    case Tick(at, now, timeout) =>
      RecordedFits(u.seed, s.node.mem, at, now);
      if IsController(u.setting, s.node.mem, at) {
        FailoverStepOk(u.seed, u.setting, at, s.node.(mem := Recorded(s.node.mem, at, now)), s'.node, now, timeout);
      }
    case Pass(at, now, timeout) =>
      FailoverStepOk(u.seed, u.setting, at, s.node, s'.node, now, timeout);
  }

  /** A delivered response is the snapshot itself when the cluster's responses fit a frame, and
      otherwise an error that changes nothing. */
  lemma DeliveryIsSnapshot(seed: ClusterConfig, st: ClusterState, now: u64)
    requires EncodableConfig(seed) && Fits(seed, st)
    ensures Synced(InfoBytes(st), now) == if InfoSize(seed) <= 254 then Ok(st.(lastSeen := map[])) else Err
  {
    hide Synced, InfoBytes, Encodable, InfoSize;
    FitsEncodable(seed, st);
    SyncedExactly(st, now);
    SizeOfFitting(seed, st);
  }

  lemma SizeOfFitting(seed: ClusterConfig, st: ClusterState)
    requires EncodableConfig(seed) && Fits(seed, st)
    ensures |InfoBytes(st)| == InfoSize(seed)
  {
    hide InfoBytes, InfoSize, EncodableBroker;
    forall i | 0 <= i < |st.assignments| ensures st.assignments[i].replicas == seed.assignments[i].replicas {
      assert SamePlace(st.assignments[i], seed.assignments[i]);
    }
    InfoSizeFixed(seed, st);
  }

  lemma SiteStepOk(u: Setup, s: Site, s': Site, a: Action, answer: ClusterState)
    requires EncodableConfig(u.seed) && SiteOk(u.seed, s) && Fits(u.seed, answer)
    requires SiteStep(u, s, s', a, answer)
    ensures SiteOk(u.seed, s')
  {
    if a.Heartbeat? || a.Tick? || a.Pass? {
      NodeStepOk(u, s, s', a, answer);
    } else if a.Deliver? {
      hide ParseFile, Synced, InfoBytes, EncodableConfig, InfoSize;
      var st :| Fits(u.seed, st) && s.inbox.value == InfoBytes(st);
      DeliveryIsSnapshot(u.seed, st, a.now);
      if InfoSize(u.seed) <= 254 {
        InstalledOk(u.seed, s'.node, st.(lastSeen := map[]));
      }
    } else {
      hide ParseFile, InfoBytes, EncodableConfig, ToConfig, Fits;
    }
  }

  ghost predicate AllOk(seed: ClusterConfig, ss: Sites) {
    forall b :: b in ss ==> SiteOk(seed, ss[b])
  }

  lemma InitOk(u: Setup, ss: Sites)
    requires EncodableConfig(u.seed) && Init(u, ss)
    ensures AllOk(u.seed, ss)
  {
    hide NodeOk, Installed, EncodableConfig;
    forall b | b in ss ensures SiteOk(u.seed, ss[b]) {
      var now: u64 :| Installed(ss[b].node, FromSeed(u.seed, now));
      SeedFits(u.seed, now);
      InstalledOk(u.seed, ss[b].node, FromSeed(u.seed, now));
    }
  }

  /** In every reachable state: cached views are projections, and stored files decode to the
      assignments and epochs in memory. */
  lemma {:induction false} StatesOk(u: Setup, run: seq<Sites>, actions: seq<Action>, i: nat)
    requires EncodableConfig(u.seed) && IsRun(u, run, actions) && i < |run|
    ensures AllOk(u.seed, run[i])
  {
    hide SiteStep, NodeOk, InboxOk, EncodableConfig, Init;
    if i == 0 {
      InitOk(u, run[0]);
    } else {
      StatesOk(u, run, actions, i - 1);
      var ss, a := run[i - 1], actions[i - 1];
      assert Step(u, ss, a, run[i]);
      assert Fits(u.seed, ss[u.controller].node.mem) by { ControllerFits(u, ss); }
      SiteStepOk(u, ss[a.at], run[i][a.at], a, ss[u.controller].node.mem);
    }
  }

  lemma ControllerFits(u: Setup, ss: Sites)
    requires AllOk(u.seed, ss) && u.controller in ss
    ensures Fits(u.seed, ss[u.controller].node.mem)
  {
    assert SiteOk(u.seed, ss[u.controller]);
  }

  // ---- Leadership over time

  /** `ys` may come after `xs`: same partitions and replicas, epochs no smaller, an epoch below the
      saturation point names one leader, and a leader among the replicas stays among them. */
  ghost predicate Later(xs: seq<LiveAssignment>, ys: seq<LiveAssignment>) {
    && |xs| == |ys|
    && forall i :: 0 <= i < |xs| ==>
         && xs[i].topicId == ys[i].topicId && xs[i].partitionId == ys[i].partitionId
         && xs[i].replicas == ys[i].replicas
         && xs[i].leaderEpoch <= ys[i].leaderEpoch
         && (xs[i].leader in xs[i].replicas ==> ys[i].leader in ys[i].replicas)
         && (xs[i].leaderEpoch == ys[i].leaderEpoch < U64_MAX ==> xs[i].leader == ys[i].leader)
  }

  lemma LaterTransitive(xs: seq<LiveAssignment>, ys: seq<LiveAssignment>, zs: seq<LiveAssignment>)
    requires Later(xs, ys) && Later(ys, zs)
    ensures Later(xs, zs)
  {
  }

  lemma FailoverIsLater(xs: seq<LiveAssignment>, c: Clock)
    ensures Later(xs, FailedOver(xs, c))
  {
    forall i | 0 <= i < |xs|
      ensures var y := Promoted(xs[i], c);
              y == xs[i] || (y.leaderEpoch == NextEpoch(xs[i].leaderEpoch) && y.leader in xs[i].replicas
                             && y == xs[i].(leader := y.leader, leaderEpoch := y.leaderEpoch))
    {
      FailoverMinimal(xs[i], c);
    }
  }

  /** The controller's own leadership table at step `i`. */
  ghost function Truth(u: Setup, run: seq<Sites>, i: nat): seq<LiveAssignment>
    requires i < |run| && u.controller in run[i]
  {
    run[i][u.controller].node.mem.assignments
  }

  ghost predicate ControllerAlone(u: Setup, ss: Sites) {
    u.controller in ss && ss[u.controller].inbox.None?
  }

  lemma {:induction false} ControllerNeverSyncs(u: Setup, run: seq<Sites>, actions: seq<Action>, i: nat)
    requires IsRun(u, run, actions) && i < |run|
    ensures ControllerAlone(u, run[i])
    ensures run[i].Keys == run[0].Keys && ControllerId(u.setting, u.seed.brokers) == Some(u.controller)
  {
    hide HeartbeatStep, TickStep, FailoverStep, Installed, Synced, ParseFile, InfoBytes, ToConfig;
    if i > 0 {
      ControllerNeverSyncs(u, run, actions, i - 1);
      assert Step(u, run[i - 1], actions[i - 1], run[i]);
    }
  }

  lemma PassIsLater(setting: Setting, self: BrokerId, n: Node, n': Node, now: u64, timeout: u64)
    requires FailoverStep(setting, self, n, n', now, timeout)
    ensures Later(n.mem.assignments, n'.mem.assignments)
  {
    hide Stored, ToConfig, Diff, FailedOver;
    FailoverIsLater(n.mem.assignments, Clock(n.mem.lastSeen, now, timeout));
  }

  /** One step of any broker that does not take over a snapshot. */
  lemma OwnStepIsLater(u: Setup, s: Site, s': Site, a: Action, answer: ClusterState)
    requires NodeOk(u.seed, s.node) && SiteStep(u, s, s', a, answer) && !a.Deliver?
    ensures Later(s.node.mem.assignments, s'.node.mem.assignments)
  {
    hide Stored, ToConfig, FailoverStep, ParseFile, InfoBytes, FailedOver, Fits, Diff;
    match a
    case Heartbeat(at, from, now, timeout) =>
      var st := Recorded(s.node.mem, from, now);
      FailoverIsLater(st.assignments, Clock(st.lastSeen, now, timeout));
    case Tick(at, now, timeout) =>
      if IsController(u.setting, s.node.mem, at) {
        PassIsLater(u.setting, at, s.node.(mem := Recorded(s.node.mem, at, now)), s'.node, now, timeout);
      }
    case Pass(at, now, timeout) =>
      PassIsLater(u.setting, at, s.node, s'.node, now, timeout);
    case _ =>
  }

  /** A broker that is not the controller changes its table only by taking over a snapshot. */
  lemma FollowerKeeps(u: Setup, s: Site, s': Site, a: Action, answer: ClusterState)
    requires NodeOk(u.seed, s.node) && SiteStep(u, s, s', a, answer) && !a.Deliver?
    requires ControllerId(u.setting, u.seed.brokers) == Some(u.controller) && a.at != u.controller
    ensures s'.node.mem.assignments == s.node.mem.assignments
  {
    hide Stored, ToConfig, FailedOver, ParseFile, InfoBytes, Diff;
    assert !IsController(u.setting, s.node.mem, a.at);
  }

  lemma {:induction false} TruthIsLater(u: Setup, run: seq<Sites>, actions: seq<Action>, i: nat, j: nat)
    requires EncodableConfig(u.seed) && IsRun(u, run, actions) && i <= j < |run|
    ensures u.controller in run[i] && u.controller in run[j]
    ensures Later(Truth(u, run, i), Truth(u, run, j))
    decreases j
  {
    hide EncodableConfig, IsRun, Later;
    RunLength(u, run, actions);
    ControllerNeverSyncs(u, run, actions, i);
    ControllerNeverSyncs(u, run, actions, j);
    if i < j {
      TruthIsLater(u, run, actions, i, j - 1);
      ControllerNeverSyncs(u, run, actions, j - 1);
      TruthStep(u, run, actions, j - 1);
      LaterTransitive(Truth(u, run, i), Truth(u, run, j - 1), Truth(u, run, j));
    } else {
      LaterReflexive(Truth(u, run, i));
    }
  }

  lemma LaterReflexive(xs: seq<LiveAssignment>)
    ensures Later(xs, xs)
  {
  }

  lemma TruthStep(u: Setup, run: seq<Sites>, actions: seq<Action>, i: nat)
    requires EncodableConfig(u.seed) && IsRun(u, run, actions) && i < |actions|
    requires ControllerAlone(u, run[i]) && u.controller in run[i + 1]
    ensures Later(Truth(u, run, i), Truth(u, run, i + 1))
  {
    hide NodeOk, InboxOk, EncodableConfig, Init, Later, HeartbeatStep, TickStep, FailoverStep;
    StatesOk(u, run, actions, i);
    var ss, a := run[i], actions[i];
    assert Step(u, ss, a, run[i + 1]);
    assert SiteOk(u.seed, ss[u.controller]);
    if a.at == u.controller {
      OwnStepIsLater(u, ss[u.controller], run[i + 1][u.controller], a, ss[u.controller].node.mem);
    } else {
      LaterReflexive(Truth(u, run, i));
    }
  }

  /** The table and the pending response of broker `b` at step `i` are the controller's tables
      of two earlier moments `m <= f`. */
  ghost predicate From(u: Setup, run: seq<Sites>, i: nat, b: BrokerId, m: nat, f: nat)
    requires i < |run| && b in run[i] && forall k :: 0 <= k <= i ==> u.controller in run[k]
  {
    && m <= f <= i
    && run[i][b].node.mem.assignments == Truth(u, run, m)
    && (run[i][b].inbox.Some? ==> run[i][b].inbox.value == InfoBytes(run[f][u.controller].node.mem))
  }

  lemma {:induction false} EveryTableIsPastTruth(u: Setup, run: seq<Sites>, actions: seq<Action>,
                                                 i: nat, b: BrokerId) returns (m: nat, f: nat)
    requires EncodableConfig(u.seed) && IsRun(u, run, actions) && i < |run| && b in run[i]
    ensures forall k :: 0 <= k <= i ==> u.controller in run[k]
    ensures From(u, run, i, b, m, f)
    decreases i
  {
    hide NodeOk, InboxOk, EncodableConfig, Init, SiteStep, InfoBytes, Synced, ParseFile;
    forall k | 0 <= k <= i ensures u.controller in run[k] {
      ControllerNeverSyncs(u, run, actions, k);
    }
    ControllerNeverSyncs(u, run, actions, i);
    if b == u.controller {
      return i, i;
    }
    if i == 0 {
      BootsAlike(u, run[0], b);
      return 0, 0;
    }
    ControllerNeverSyncs(u, run, actions, i - 1);
    m, f := EveryTableIsPastTruth(u, run, actions, i - 1, b);
    assert Step(u, run[i - 1], actions[i - 1], run[i]);
    if actions[i - 1].at == b {
      StatesOk(u, run, actions, i - 1);
      StatesOk(u, run, actions, f);
      m, f := FollowerStep(u, run, i - 1, actions[i - 1], m, f);
    }
  }

  lemma BootsAlike(u: Setup, ss: Sites, b: BrokerId)
    requires Init(u, ss) && b in ss
    ensures ss[b].node.mem.assignments == ss[u.controller].node.mem.assignments
    ensures ss[b].inbox.None?
  {
    var now: u64 :| Installed(ss[b].node, FromSeed(u.seed, now));
    var boot: u64 :| Installed(ss[u.controller].node, FromSeed(u.seed, boot));
  }

  lemma FollowerStep(u: Setup, run: seq<Sites>, i: nat, a: Action, m: nat, f: nat)
    returns (m': nat, f': nat)
    requires EncodableConfig(u.seed) && ControllerId(u.setting, u.seed.brokers) == Some(u.controller)
    requires i + 1 < |run| && (forall k :: 0 <= k <= i + 1 ==> u.controller in run[k])
    requires a.at in run[i] && a.at in run[i + 1] && a.at != u.controller
    requires From(u, run, i, a.at, m, f)
    requires AllOk(u.seed, run[i]) && AllOk(u.seed, run[f])
    requires SiteStep(u, run[i][a.at], run[i + 1][a.at], a, run[i][u.controller].node.mem)
    ensures From(u, run, i + 1, a.at, m', f')
  {
    hide NodeOk, InboxOk, EncodableConfig, Synced, InfoBytes, Fits, HeartbeatStep, TickStep, FailoverStep, ParseFile,
         ToConfig, Stored;
    var s, s' := run[i][a.at], run[i + 1][a.at];
    assert SiteOk(u.seed, s);
    if a.Deliver? {
      var st := run[f][u.controller].node.mem;
      ControllerFits(u, run[f]);
      DeliveryIsSnapshot(u.seed, st, a.now);
      if InfoSize(u.seed) <= 254 {
        return f, f;
      }
      return m, f;
    }
    FollowerKeeps(u, s, s', a, run[i][u.controller].node.mem);
    if a.Snapshot? {
      return m, i;
    }
    return m, f;
  }

  // ---- The two promises

  lemma {:induction false} FindAlike(xs: seq<LiveAssignment>, ys: seq<LiveAssignment>, topicId: u16, partitionId: u16)
    requires Later(xs, ys)
    ensures Find(xs, topicId, partitionId) == Find(ys, topicId, partitionId)
    decreases |xs|
  {
    if xs != [] {
      FindAlike(xs[1..], ys[1..], topicId, partitionId);
    }
  }

  lemma LookupLater(st: ClusterState, st': ClusterState, topicId: u16, partitionId: u16)
    requires Later(st.assignments, st'.assignments)
    ensures var e, e' := EpochFor(st, topicId, partitionId), EpochFor(st', topicId, partitionId);
            && e <= e'
            && (e == e' < U64_MAX ==> LeaderFor(st, topicId, partitionId) == LeaderFor(st', topicId, partitionId))
  {
    FindAlike(st.assignments, st'.assignments, topicId, partitionId);
  }

  /** In any run, any two brokers at any two moments that hold the same epoch for a partition
      name the same leader (below the saturation point of the epoch counter). */
  lemma SameEpochSameLeader(u: Setup, run: seq<Sites>, actions: seq<Action>,
                            i: nat, b: BrokerId, j: nat, d: BrokerId, topicId: u16, partitionId: u16)
    requires EncodableConfig(u.seed) && IsRun(u, run, actions)
    requires i < |run| && b in run[i] && j < |run| && d in run[j]
    requires EpochFor(run[i][b].node.mem, topicId, partitionId)
            == EpochFor(run[j][d].node.mem, topicId, partitionId) < U64_MAX
    ensures LeaderFor(run[i][b].node.mem, topicId, partitionId) == LeaderFor(run[j][d].node.mem, topicId, partitionId)
  {
    hide EncodableConfig, IsRun, EpochFor, LeaderFor, Later, InfoBytes;
    var m, _ := EveryTableIsPastTruth(u, run, actions, i, b);
    var n, _ := EveryTableIsPastTruth(u, run, actions, j, d);
    if m <= n {
      TruthIsLater(u, run, actions, m, n);
      LookupLater(run[i][b].node.mem, run[j][d].node.mem, topicId, partitionId);
    } else {
      TruthIsLater(u, run, actions, n, m);
      LookupLater(run[j][d].node.mem, run[i][b].node.mem, topicId, partitionId);
    }
  }

  lemma TableStepIsLater(u: Setup, run: seq<Sites>, actions: seq<Action>, i: nat, b: BrokerId)
    requires EncodableConfig(u.seed) && IsRun(u, run, actions) && i < |actions|
    requires b in run[i] && b in run[i + 1]
    ensures Later(run[i][b].node.mem.assignments, run[i + 1][b].node.mem.assignments)
  {
    hide NodeOk, InboxOk, EncodableConfig, Later, HeartbeatStep, TickStep, FailoverStep, ParseFile, Synced,
         InfoBytes, ToConfig, Stored, Fits;
    StatesOk(u, run, actions, i);
    ControllerNeverSyncs(u, run, actions, i);
    var ss, a := run[i], actions[i];
    assert Step(u, ss, a, run[i + 1]) && SiteOk(u.seed, ss[b]);
    LaterReflexive(ss[b].node.mem.assignments);
    if a.at == b && !a.Deliver? {
      OwnStepIsLater(u, ss[b], run[i + 1][b], a, ss[u.controller].node.mem);
    } else if a.at == b {
      DeliveryIsLater(u, run, actions, i, b);
    }
  }

  lemma DeliveryIsLater(u: Setup, run: seq<Sites>, actions: seq<Action>, i: nat, b: BrokerId)
    requires EncodableConfig(u.seed) && IsRun(u, run, actions) && i < |actions|
    requires b in run[i] && b in run[i + 1] && actions[i].Deliver? && actions[i].at == b
    ensures Later(run[i][b].node.mem.assignments, run[i + 1][b].node.mem.assignments)
  {
    hide NodeOk, InboxOk, EncodableConfig, Later, HeartbeatStep, TickStep, FailoverStep, ParseFile, Synced,
         InfoBytes, ToConfig, Stored, Fits;
    var s, s', a := run[i][b], run[i + 1][b], actions[i];
    assert Step(u, run[i], a, run[i + 1]);
    LaterReflexive(s.node.mem.assignments);
    var m, f := EveryTableIsPastTruth(u, run, actions, i, b);
    TruthIsLater(u, run, actions, m, f);
    StatesOk(u, run, actions, f);
    ControllerFits(u, run[f]);
    DeliveryIsSnapshot(u.seed, run[f][u.controller].node.mem, a.now);
  }

  lemma {:induction false} TableIsLater(u: Setup, run: seq<Sites>, actions: seq<Action>, i: nat, j: nat, b: BrokerId)
    requires EncodableConfig(u.seed) && IsRun(u, run, actions) && i <= j < |run| && b in run[i]
    ensures b in run[j] && Later(run[i][b].node.mem.assignments, run[j][b].node.mem.assignments)
    decreases j
  {
    hide EncodableConfig, IsRun, Later;
    ControllerNeverSyncs(u, run, actions, i);
    ControllerNeverSyncs(u, run, actions, j);
    LaterReflexive(run[i][b].node.mem.assignments);
    if i < j {
      TableIsLater(u, run, actions, i, j - 1, b);
      RunLength(u, run, actions);
      TableStepIsLater(u, run, actions, j - 1, b);
      LaterTransitive(run[i][b].node.mem.assignments, run[j - 1][b].node.mem.assignments,
          run[j][b].node.mem.assignments);
    }
  }

  lemma RunLength(u: Setup, run: seq<Sites>, actions: seq<Action>)
    requires IsRun(u, run, actions)
    ensures |run| == |actions| + 1
  {
  }

  /** No broker's epoch for a partition ever goes down, across failovers, syncs and restarts. */
  lemma EpochNeverDecreases(u: Setup, run: seq<Sites>, actions: seq<Action>,
                            i: nat, j: nat, b: BrokerId, topicId: u16, partitionId: u16)
    requires EncodableConfig(u.seed) && IsRun(u, run, actions) && i <= j < |run| && b in run[i]
    ensures b in run[j]
    ensures EpochFor(run[i][b].node.mem, topicId, partitionId) <= EpochFor(run[j][b].node.mem, topicId, partitionId)
  {
    hide EncodableConfig, IsRun, Later, EpochFor, LeaderFor;
    TableIsLater(u, run, actions, i, j, b);
    LookupLater(run[i][b].node.mem, run[j][b].node.mem, topicId, partitionId);
  }

  /** If the seed puts a partition's leader among its replicas, every broker's table does so at
      every moment. */
  lemma LeadersStayReplicas(u: Setup, run: seq<Sites>, actions: seq<Action>,
                            i: nat, b: BrokerId, k: nat)
    requires EncodableConfig(u.seed) && IsRun(u, run, actions) && i < |run| && b in run[i]
    requires k < |u.seed.assignments| && u.seed.assignments[k].leader in u.seed.assignments[k].replicas
    ensures k < |run[i][b].node.mem.assignments|
    ensures var a := run[i][b].node.mem.assignments[k];
            a.replicas == u.seed.assignments[k].replicas && a.leader in a.replicas
  {
    hide EncodableConfig, InfoBytes, SiteStep, Stored, ToConfig;
    var m, _ := EveryTableIsPastTruth(u, run, actions, i, b);
    TruthIsLater(u, run, actions, 0, m);
    var boot: u64 :| Installed(run[0][u.controller].node, FromSeed(u.seed, boot));
    assert Truth(u, run, 0) == FromSeed(u.seed, boot).assignments;
  }

  /** A restart from the stored file always succeeds. */
  lemma RestartSucceeds(u: Setup, run: seq<Sites>, actions: seq<Action>, i: nat, b: BrokerId)
    requires EncodableConfig(u.seed) && IsRun(u, run, actions) && i < |run| && b in run[i]
    ensures ParseFile(run[i][b].node.file).Ok?
    ensures ParseFile(run[i][b].node.file).value.assignments == run[i][b].node.mem.assignments
    ensures run[i][b].node.view == ToConfig(run[i][b].node.mem)
  {
    hide IsRun, EncodableConfig, ParseFile, ToConfig;
    StatesOk(u, run, actions, i);
    assert SiteOk(u.seed, run[i][b]);
  }

  // ---- Which clusters can sync

  function SeedTable(seed: ClusterConfig): seq<LiveAssignment> {
    FromSeed(seed, 0).assignments
  }

  lemma BootTable(u: Setup, ss: Sites, b: BrokerId)
    requires Init(u, ss) && b in ss
    ensures ss[b].node.mem.assignments == SeedTable(u.seed)
  {
    var now: u64 :| Installed(ss[b].node, FromSeed(u.seed, now));
  }

  lemma LongDeliveryChangesNothing(u: Setup, s: Site, s': Site, a: Action,
                                   answer: ClusterState)
    requires EncodableConfig(u.seed) && InfoSize(u.seed) > 254 && SiteOk(u.seed, s)
    requires a.Deliver? && SiteStep(u, s, s', a, answer)
    ensures s'.node == s.node
  {
    hide NodeOk, Fits, Synced, InfoBytes, InfoSize, EncodableConfig, Installed;
    var st :| Fits(u.seed, st) && s.inbox.value == InfoBytes(st);
    DeliveryIsSnapshot(u.seed, st, a.now);
  }

  /** If the responses of a cluster are longer than 254 bytes, no follower's table ever leaves the
      seed: failovers stay unknown to everyone but the controller. */
  lemma {:induction false} LongResponsesFreezeFollowers(u: Setup,
                                                        run: seq<Sites>, actions: seq<Action>, i: nat, b: BrokerId)
    requires EncodableConfig(u.seed) && IsRun(u, run, actions) && i < |run| && b in run[i]
    requires InfoSize(u.seed) > 254 && b != u.controller
    ensures run[i][b].node.mem.assignments == SeedTable(u.seed)
    decreases i
  {
    hide NodeOk, InboxOk, EncodableConfig, Init, SiteStep, InfoSize, SeedTable;
    if i == 0 {
      BootTable(u, run[0], b);
    } else {
      ControllerNeverSyncs(u, run, actions, i);
      ControllerNeverSyncs(u, run, actions, i - 1);
      LongResponsesFreezeFollowers(u, run, actions, i - 1, b);
      StatesOk(u, run, actions, i - 1);
      var ss, a := run[i - 1], actions[i - 1];
      assert Step(u, ss, a, run[i]) && SiteOk(u.seed, ss[b]);
      if a.at == b && a.Deliver? {
        LongDeliveryChangesNothing(u, ss[b], run[i][b], a, ss[u.controller].node.mem);
      } else if a.at == b {
        FollowerKeeps(u, ss[b], run[i][b], a, ss[u.controller].node.mem);
      }
    }
  }

  lemma ExtendRun(u: Setup, run: seq<Sites>, actions: seq<Action>,
                  a: Action, ss: Sites)
    requires IsRun(u, run, actions) && Step(u, run[|run| - 1], a, ss)
    ensures IsRun(u, run + [ss], actions + [a])
  {
    hide Step, Init;
    var longer, steps := run + [ss], actions + [a];
    forall i | 0 <= i < |steps| ensures Step(u, longer[i], steps[i], longer[i + 1]) {
      if i < |actions| {
        assert Step(u, run[i], actions[i], run[i + 1]);
      }
    }
  }

  /** Drop what is pending, ask, and receive. */
  function Asking(ss: Sites, b: BrokerId, inbox: Option<seq<byte>>): Sites
    requires b in ss
  {
    ss[b := ss[b].(inbox := inbox)]
  }

  function Taken(st: ClusterState): Site {
    var bare := st.(lastSeen := map[]);
    Site(Node(bare, ToConfig(bare), StateBytes(bare, [])), None)
  }

  lemma TakenInstalled(st: ClusterState)
    ensures Installed(Taken(st).node, st.(lastSeen := map[]))
  {
    hide ToConfig, StateBytes;
    var bare := st.(lastSeen := map[]);
    assert Enumerates([], bare.lastSeen) && Taken(st).node.file == StateBytes(bare, []);
  }

  function Last(run: seq<Sites>): Sites
    requires run != []
  {
    run[|run| - 1]
  }

  lemma ThreeMore(u: Setup, run: seq<Sites>, actions: seq<Action>,
                  more: seq<Sites>, extra: seq<Action>)
    requires IsRun(u, run, actions) && |more| == |extra| == 3
    requires Step(u, Last(run), extra[0], more[0])
    requires Step(u, more[0], extra[1], more[1]) && Step(u, more[1], extra[2], more[2])
    ensures IsRun(u, run + more, actions + extra) && Last(run + more) == more[2]
  {
    hide Step, IsRun;
    RunLength(u, run, actions);
    ExtendRun(u, run, actions, extra[0], more[0]);
    ExtendRun(u, run + [more[0]], actions + [extra[0]], extra[1], more[1]);
    ExtendRun(u, run + [more[0]] + [more[1]], actions + [extra[0]] + [extra[1]], extra[2], more[2]);
    assert run + [more[0]] + [more[1]] + [more[2]] == run + more;
    assert actions + [extra[0]] + [extra[1]] + [extra[2]] == actions + extra;
  }

  /** Three steps that bring the controller's table to follower `b`. */
  lemma SyncSteps(u: Setup, ss: Sites, b: BrokerId)
    returns (more: seq<Sites>, extra: seq<Action>)
    requires EncodableConfig(u.seed) && u.controller in ss && Fits(u.seed, ss[u.controller].node.mem)
    requires b in ss && b != u.controller && InfoSize(u.seed) <= 254
    ensures |more| == |extra| == 3
    ensures Step(u, ss, extra[0], more[0])
    ensures Step(u, more[0], extra[1], more[1]) && Step(u, more[1], extra[2], more[2])
    ensures b in more[2] && more[2][b].node.mem.assignments == ss[u.controller].node.mem.assignments
  {
    hide EncodableConfig, InfoSize, InfoBytes, Synced, Installed, ToConfig, Fits;
    var st := ss[u.controller].node.mem;
    DeliveryIsSnapshot(u.seed, st, 0);
    TakenInstalled(st);
    var s1, s2, s3 := Asking(ss, b, None), Asking(ss, b, Some(InfoBytes(st))), ss[b := Taken(st)];
    more, extra := [s1, s2, s3], [Lose(b), Snapshot(b), Deliver(b, 0)];
  }

  /** The run goes on to a state in which follower `b` has the table that the controller has now. */
  ghost predicate Catches(u: Setup, run: seq<Sites>, actions: seq<Action>,
                          b: BrokerId, longer: seq<Sites>, steps: seq<Action>)
  {
    && run <= longer && actions <= steps && IsRun(u, longer, steps)
    && run != [] && u.controller in Last(run) && b in Last(longer)
    && Last(longer)[b].node.mem.assignments == Last(run)[u.controller].node.mem.assignments
  }

  /** In a cluster whose responses fit, any follower can take over the controller's table at any
      moment. */
  lemma ShortResponsesSync(u: Setup, run: seq<Sites>, actions: seq<Action>,
                           b: BrokerId) returns (longer: seq<Sites>, steps: seq<Action>)
    requires EncodableConfig(u.seed) && IsRun(u, run, actions)
    requires b in Last(run) && b != u.controller && InfoSize(u.seed) <= 254
    ensures Catches(u, run, actions, b, longer, steps)
  {
    hide EncodableConfig, InfoSize, NodeOk, InboxOk, IsRun, Fits, Step;
    RunLength(u, run, actions);
    ControllerNeverSyncs(u, run, actions, |run| - 1);
    StatesOk(u, run, actions, |run| - 1);
    ControllerFits(u, Last(run));
    var more, extra := SyncSteps(u, Last(run), b);
    ThreeMore(u, run, actions, more, extra);
    longer, steps := run + more, actions + extra;
  }

  /** At any moment of any run, a follower can still learn the controller's table exactly when the
      cluster's responses have at most 254 bytes, or there is nothing to learn. */
  lemma FollowersCatchUpExactly(u: Setup, run: seq<Sites>, actions: seq<Action>,
                                b: BrokerId)
    requires EncodableConfig(u.seed) && IsRun(u, run, actions)
    requires b in Last(run) && b != u.controller
    ensures u.controller in Last(run)
    ensures (exists longer, steps :: Catches(u, run, actions, b, longer, steps))
       <==> InfoSize(u.seed) <= 254 || Last(run)[u.controller].node.mem.assignments == SeedTable(u.seed)
  {
    hide EncodableConfig, IsRun, InfoSize, SeedTable;
    RunLength(u, run, actions);
    ControllerNeverSyncs(u, run, actions, |run| - 1);
    if InfoSize(u.seed) <= 254 {
      var longer, steps := ShortResponsesSync(u, run, actions, b);
    } else {
      LongResponsesFreezeFollowers(u, run, actions, |run| - 1, b);
      if Last(run)[u.controller].node.mem.assignments == SeedTable(u.seed) {
        assert Catches(u, run, actions, b, run, actions);
      }
      forall longer, steps | Catches(u, run, actions, b, longer, steps)
        ensures Last(run)[u.controller].node.mem.assignments == SeedTable(u.seed)
      {
        LongResponsesFreezeFollowers(u, longer, steps, |longer| - 1, b);
      }
    }
  }

  /** A promotion changes the leader without changing the epoch exactly at the saturation point,
      and there it does. */
  lemma SaturatedEpochNamesTwoLeaders()
    ensures forall a, c :: Promoted(a, c).leader != a.leader ==>
              (Promoted(a, c).leaderEpoch == a.leaderEpoch <==> a.leaderEpoch == U64_MAX)
    ensures exists a, c :: Promoted(a, c).leaderEpoch == a.leaderEpoch && Promoted(a, c).leader != a.leader
  {
    var a := LiveAssignment(1, 0, 1, [1, 2], U64_MAX);
    var c := Clock(map[2 := 0], 0, 0);
    assert !c.Up(1) && c.Up(2);
    FailoverMinimal(a, c);
    assert 2 in a.replicas;
    assert Promoted(a, c).leaderEpoch == a.leaderEpoch && Promoted(a, c).leader != a.leader;
  }
}
