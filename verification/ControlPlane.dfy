/** The controller and the brokers that copy its metadata. A broker keeps the live state, a
    cached static view of it, and a stored file; followers replace all three by snapshots. */
module ControlPlane {
  import opened Bytes
  import opened Cluster
  import opened ClusterCodec
  import opened ClusterWire

  datatype Node = Node(mem: ClusterState, view: ClusterConfig, file: seq<byte>)

  /** `file` holds `st`, its liveness table written in some order. */
  ghost predicate Stored(file: seq<byte>, st: ClusterState) {
    exists order :: Enumerates(order, st.lastSeen) && file == StateBytes(st, order)
  }

  function Failover(st: ClusterState, now: u64, timeout: u64): ClusterState {
    st.(assignments := FailedOver(st.assignments, Clock(st.lastSeen, now, timeout)))
  }

  ghost predicate Installed(n: Node, st: ClusterState) {
    n.mem == st && n.view == ToConfig(st) && Stored(n.file, st)
  }

  /** The controller records the heartbeat, fails over, stores and refreshes its view. */
  ghost predicate HeartbeatStep(setting: Setting, self: BrokerId, n: Node, n': Node, from: BrokerId, now: u64,
                                timeout: u64)
  {
    if !IsController(setting, n.mem, self) then n' == n
    else Installed(n', Failover(Recorded(n.mem, from, now), now, timeout))
  }

  /** A failover pass stores and refreshes the view only when some leader changed. */
  ghost predicate FailoverStep(setting: Setting, self: BrokerId, n: Node, n': Node, now: u64, timeout: u64) {
    if !IsController(setting, n.mem, self) then n' == n
    else
      var st := Failover(n.mem, now, timeout);
      if Diff(n.mem.assignments, st.assignments) == [] then n' == n.(mem := st) else Installed(n', st)
  }

  ghost predicate TickStep(setting: Setting, self: BrokerId, n: Node, n': Node, now: u64, timeout: u64) {
    if !IsController(setting, n.mem, self) then n' == n
    else FailoverStep(setting, self, n.(mem := Recorded(n.mem, self, now)), n', now, timeout)
  }

  /** One broker process. `state` is null when the broker runs without a cluster. */
  class Broker {
    const id: BrokerId
    const setting: Setting
    var state: LiveCluster?
    var cluster: Option<ClusterConfig>
    var file: seq<byte>

    function Value(): Node
      requires state != null && cluster.Some?
      reads this, state
    {
      Node(state.Value(), cluster.value, file)
    }

    ghost predicate Clustered()
      reads this
    {
      state != null && cluster.Some?
    }

    constructor (id: BrokerId, setting: Setting, st: ClusterState)
      ensures Clustered() && Installed(Value(), st) && this.id == id && this.setting == setting && fresh(state)
    {
      this.id, this.setting := id, setting;
      var live := new LiveCluster(st);
      state := live;
      cluster := Some(ToConfig(st));
      var bytes, order := EncodeState(st);
      file := bytes;
    }

    constructor Load(id: BrokerId, setting: Setting, st: ClusterState, stored: seq<byte>)
      ensures Clustered() && Value() == Node(st, ToConfig(st), stored) && this.id == id && this.setting == setting
              && fresh(state)
    {
      this.id, this.setting := id, setting;
      var live := new LiveCluster(st);
      state := live;
      cluster := Some(ToConfig(st));
      file := stored;
    }

    method Store()
      requires state != null
      modifies this`file
      ensures Stored(file, state.Value())
    {
      var bytes, order := EncodeState(state.Value());
      file := bytes;
    }

    method SyncClusterView()
      requires state != null
      modifies this`cluster
      ensures cluster == Some(ToConfig(state.Value()))
    {
      cluster := Some(ToConfig(state.Value()));
    }

    method ApplyClusterState(st: ClusterState)
      modifies this
      ensures Clustered() && fresh(state) && Installed(Value(), st)
    {
      var live := new LiveCluster(st);
      state := live;
      Store();
      SyncClusterView();
    }

    method HandleBrokerHeartbeat(from: BrokerId, now: u64, timeout: u64) returns (code: byte)
      requires state != null ==> cluster.Some?
      modifies this, state
      ensures state == old(state) && (state != null ==> cluster.Some?)
      ensures state == null ==> code == 1 && cluster == old(cluster) && file == old(file)
      ensures state != null ==>
        && (code == 0 <==> IsController(setting, old(state.Value()), id)) && code <= 1
        && HeartbeatStep(setting, id, old(Value()), Value(), from, now, timeout)
    {
      if state == null || !IsController(setting, state.Value(), id) {
        return 1;
      }
      state.RecordHeartbeat(from, now);
      var changed := state.FailoverDeadLeaders(now, timeout);
      Store();
      SyncClusterView();
      return 0;
    }

    method RunFailoverAt(now: u64, timeout: u64) returns (changed: nat)
      requires state != null ==> cluster.Some?
      modifies this, state
      ensures state == old(state) && (state != null ==> cluster.Some?)
      ensures state == null ==> changed == 0 && cluster == old(cluster) && file == old(file)
      ensures state != null ==>
        && FailoverStep(setting, id, old(Value()), Value(), now, timeout)
        && changed == |Diff(old(state.assignments), state.assignments)|
    {
      if state == null {
        return 0;
      }
      if !IsController(setting, state.Value(), id) {
        DiffSame(state.assignments);
        return 0;
      }
      var list := state.FailoverDeadLeaders(now, timeout);
      if list != [] {
        Store();
        SyncClusterView();
      }
      return |list|;
    }

    method ControllerTick(now: u64, timeout: u64)
      requires state != null ==> cluster.Some?
      modifies this, state
      ensures state == old(state) && (state != null ==> cluster.Some?)
      ensures state == null ==> cluster == old(cluster) && file == old(file)
      ensures state != null ==> TickStep(setting, id, old(Value()), Value(), now, timeout)
    {
      if state == null || !IsController(setting, state.Value(), id) {
        return;
      }
      state.RecordHeartbeat(id, now);
      var changed := RunFailoverAt(now, timeout);
    }
  }

  /** A broker whose heartbeat the controller has just recorded keeps the partitions it leads. */
  lemma HeartbeatProtectsLeader(setting: Setting, self: BrokerId, n: Node, n': Node, from: BrokerId, now: u64,
                                timeout: u64, i: nat)
    requires HeartbeatStep(setting, self, n, n', from, now, timeout)
    requires exists b :: b in n.mem.brokers && b.id == from
    requires i < |n.mem.assignments| && n.mem.assignments[i].leader == from
    ensures i < |n'.mem.assignments| && n'.mem.assignments[i] == n.mem.assignments[i]
  {
    hide Stored, ToConfig;
    if IsController(setting, n.mem, self) {
      var st := Recorded(n.mem, from, now);
      FailoverMinimal(st.assignments[i], Clock(st.lastSeen, now, timeout));
    }
  }

  /** In times: a failover pass of the controller replaces exactly the leaders that have been silent for
      longer than the timeout while another replica has not. */
  lemma SilentLeaderIsReplaced(setting: Setting, self: BrokerId, n: Node, n': Node, now: u64, timeout: u64, i: nat)
    requires FailoverStep(setting, self, n, n', now, timeout) && IsController(setting, n.mem, self)
    requires i < |n.mem.assignments|
    ensures i < |n'.mem.assignments|
    ensures var a := n.mem.assignments[i];
            n'.mem.assignments[i].leader != a.leader <==>
              && !Heard(n.mem.lastSeen, a.leader, now, timeout)
              && exists r :: r in a.replicas && r != a.leader && Heard(n.mem.lastSeen, r, now, timeout)
  {
    hide Stored, ToConfig, Diff, FailedOver;
    PassReplacesSilentLeaders(n.mem.assignments, n.mem.lastSeen, now, timeout, i);
  }

  /** So does a heartbeat handled by the controller, with the sender just heard from. */
  lemma HeartbeatReplacesSilentLeaders(setting: Setting, self: BrokerId, n: Node, n': Node, from: BrokerId,
                                       now: u64, timeout: u64, i: nat)
    requires HeartbeatStep(setting, self, n, n', from, now, timeout) && IsController(setting, n.mem, self)
    requires i < |n.mem.assignments|
    ensures i < |n'.mem.assignments|
    ensures var a, seen := n.mem.assignments[i], Recorded(n.mem, from, now).lastSeen;
            n'.mem.assignments[i].leader != a.leader <==>
              && !Heard(seen, a.leader, now, timeout)
              && exists r :: r in a.replicas && r != a.leader && Heard(seen, r, now, timeout)
  {
    hide Stored, ToConfig, FailedOver;
    var st := Recorded(n.mem, from, now);
    PassReplacesSilentLeaders(st.assignments, st.lastSeen, now, timeout, i);
  }

  /** The controller's own tick keeps the partitions it leads. */
  lemma TickProtectsController(setting: Setting, self: BrokerId, n: Node, n': Node, now: u64, timeout: u64, i: nat)
    requires TickStep(setting, self, n, n', now, timeout)
    requires exists b :: b in n.mem.brokers && b.id == self
    requires i < |n.mem.assignments| && n.mem.assignments[i].leader == self
    ensures i < |n'.mem.assignments| && n'.mem.assignments[i] == n.mem.assignments[i]
  {
    hide Stored, ToConfig, Diff, FailedOver;
    if IsController(setting, n.mem, self) {
      var st := Recorded(n.mem, self, now);
      PassReplacesSilentLeaders(st.assignments, st.lastSeen, now, timeout, i);
    }
  }

  /** Start-up: the stored file if there is one, the seed otherwise. */
  method OpenOrBootstrap(id: BrokerId, setting: Setting, stored: Option<seq<byte>>, seed: ClusterConfig, now: u64)
    returns (r: Outcome<Broker>)
    ensures stored.None? ==> r.Ok? && r.value.Clustered() && Installed(r.value.Value(), FromSeed(seed, now))
    ensures stored.Some? ==>
      var spec := ParseFile(stored.value);
      match r {
        case Ok(b) => b.Clustered() && spec.Ok? && b.Value() == Node(spec.value, ToConfig(spec.value), stored.value)
        case Err => spec == Err
        case Panic => spec == Panic
      }
  {
    if stored.None? {
      var b := new Broker(id, setting, FromSeed(seed, now));
      return Ok(b);
    }
    if !(MAGIC <= stored.value) {
      return Err;
    }
    var st := DecodeBody(stored.value[|MAGIC|..]);
    if !st.Ok? {
      return st.PropagateFailure();
    }
    var b := new Broker.Load(id, setting, st.value, stored.value);
    return Ok(b);
  }
}
