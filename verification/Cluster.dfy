/** Cluster metadata: brokers, partition leadership with epochs, and liveness. */
module Cluster {
  import opened Bytes

  type BrokerId = u16

  datatype BrokerNode = BrokerNode(id: BrokerId, host: seq<byte>, port: u16)

  datatype PartitionAssignment = PartitionAssignment(
    topicId: u16, partitionId: u16, leader: BrokerId, replicas: seq<BrokerId>)

  /** The static form: what the seed file holds and what clients see. */
  datatype ClusterConfig = ClusterConfig(
    minInsyncReplicas: u16, brokers: seq<BrokerNode>, assignments: seq<PartitionAssignment>)

  datatype LiveAssignment = LiveAssignment(
    topicId: u16, partitionId: u16, leader: BrokerId, replicas: seq<BrokerId>, leaderEpoch: u64)

  datatype ClusterState = ClusterState(
    minInsyncReplicas: u16, brokers: seq<BrokerNode>, assignments: seq<LiveAssignment>,
    lastSeen: map<BrokerId, u64>)

  function FromSeed(seed: ClusterConfig, now: u64): ClusterState {
    ClusterState(
      seed.minInsyncReplicas, seed.brokers,
      seq(|seed.assignments|, i requires 0 <= i < |seed.assignments| =>
        var a := seed.assignments[i]; LiveAssignment(a.topicId, a.partitionId, a.leader, a.replicas, 1)),
      map b | b in seed.brokers :: b.id := now)
  }

  function ToConfig(st: ClusterState): ClusterConfig {
    ClusterConfig(
      st.minInsyncReplicas, st.brokers,
      seq(|st.assignments|, i requires 0 <= i < |st.assignments| =>
        var a := st.assignments[i]; PartitionAssignment(a.topicId, a.partitionId, a.leader, a.replicas)))
  }

  function LowestId(brokers: seq<BrokerNode>): (c: Option<BrokerId>)
    ensures c.None? <==> brokers == []
    ensures c.Some? ==>
      && (exists b :: b in brokers && b.id == c.value)
      && (forall b :: b in brokers ==> c.value <= b.id)
  {
    if brokers == [] then None
    else
      var rest := LowestId(brokers[1..]);
      assert brokers == [brokers[0]] + brokers[1..];
      if rest.None? || brokers[0].id <= rest.value then
        assert brokers[0] in brokers;
        Some(brokers[0].id)
      else rest
  }

  /** The controller id in the environment: not set, set to a broker id, or set to something else. */
  datatype Setting = Unset | Named(id: BrokerId) | Garbled

  /** The lowest broker id runs the controller, unless the environment names another. */
  function ControllerId(setting: Setting, brokers: seq<BrokerNode>): Option<BrokerId> {
    match setting
    case Unset => LowestId(brokers)
    case Named(id) => Some(id)
    case Garbled => None
  }

  predicate IsController(setting: Setting, st: ClusterState, id: BrokerId) {
    ControllerId(setting, st.brokers) == Some(id)
  }

  /** With one setting for the whole cluster at most one broker is the controller: the one it names,
      none if it is garbled, and without a setting the one with the lowest id. */
  lemma OneController(setting: Setting, st: ClusterState, id: BrokerId)
    ensures IsController(setting, st, id) <==>
              match setting
              case Named(named) => id == named
              case Garbled => false
              case Unset => (exists n :: n in st.brokers && n.id == id) && forall n :: n in st.brokers ==> id <= n.id
  {
  }

  function Recorded(st: ClusterState, id: BrokerId, at: u64): ClusterState {
    if exists b :: b in st.brokers && b.id == id then st.(lastSeen := st.lastSeen[id := at]) else st
  }

  predicate Alive(lastSeen: map<BrokerId, u64>, id: BrokerId, now: u64, timeout: u64) {
    id in lastSeen && Max(now - lastSeen[id], 0) <= timeout
  }

  /** Only a known broker is recorded, and nothing else changes. */
  lemma RecordedExactly(st: ClusterState, id: BrokerId, at: u64)
    ensures var t := Recorded(st, id, at);
            var known := exists b :: b in st.brokers && b.id == id;
            && t == st.(lastSeen := t.lastSeen)
            && (known ==> id in t.lastSeen && t.lastSeen[id] == at)
            && (forall k :: k != id || !known ==>
                  (k in t.lastSeen <==> k in st.lastSeen) && (k in st.lastSeen ==> t.lastSeen[k] == st.lastSeen[k]))
  {
  }

  /** Every broker boots as just heard from, and every partition at epoch 1 with its static leader. */
  lemma SeedState(seed: ClusterConfig, now: u64)
    ensures var st := FromSeed(seed, now);
            && (forall id :: id in st.lastSeen <==> exists b :: b in seed.brokers && b.id == id)
            && (forall id :: id in st.lastSeen ==> st.lastSeen[id] == now)
            && |st.assignments| == |seed.assignments|
            && forall i :: 0 <= i < |st.assignments| ==>
                 st.assignments[i].leaderEpoch == 1 && st.assignments[i].leader == seed.assignments[i].leader
  {
  }

  /** First entry of the assignment list for a partition. */
  function Find(assignments: seq<LiveAssignment>, topicId: u16, partitionId: u16): (i: nat)
    ensures i <= |assignments|
    ensures i < |assignments| ==> assignments[i].topicId == topicId && assignments[i].partitionId == partitionId
    ensures forall j :: 0 <= j < i ==> assignments[j].topicId != topicId || assignments[j].partitionId != partitionId
  {
    if assignments == [] then 0
    else if assignments[0].topicId == topicId && assignments[0].partitionId == partitionId then 0
    else 1 + Find(assignments[1..], topicId, partitionId)
  }

  function LeaderFor(st: ClusterState, topicId: u16, partitionId: u16): Option<BrokerId> {
    var i := Find(st.assignments, topicId, partitionId);
    if i < |st.assignments| then Some(st.assignments[i].leader) else None
  }

  function EpochFor(st: ClusterState, topicId: u16, partitionId: u16): u64 {
    var i := Find(st.assignments, topicId, partitionId);
    if i < |st.assignments| then st.assignments[i].leaderEpoch else 0
  }

  /** A partition without an entry has no leader and epoch 0; any other has those of its first entry. */
  lemma LookupsExactly(st: ClusterState, topicId: u16, partitionId: u16, i: nat)
    requires i <= |st.assignments|
    requires forall j :: 0 <= j < i ==>
               st.assignments[j].topicId != topicId || st.assignments[j].partitionId != partitionId
    ensures i == |st.assignments| ==>
              LeaderFor(st, topicId, partitionId) == None && EpochFor(st, topicId, partitionId) == 0
    ensures i < |st.assignments| && st.assignments[i].topicId == topicId
            && st.assignments[i].partitionId == partitionId ==>
              && LeaderFor(st, topicId, partitionId) == Some(st.assignments[i].leader)
              && EpochFor(st, topicId, partitionId) == st.assignments[i].leaderEpoch
  {
  }

  /** A point in time at which liveness is judged. */
  datatype Clock = Clock(lastSeen: map<BrokerId, u64>, now: u64, timeout: u64)
  {
    predicate Up(id: BrokerId) {
      Alive(lastSeen, id, now, timeout)
    }
  }

  /** The first live replica other than the leader, in list order. */
  function Candidate(replicas: seq<BrokerId>, leader: BrokerId, c: Clock): (r: Option<BrokerId>)
    ensures r.Some? ==> r.value in replicas && r.value != leader && c.Up(r.value)
    ensures r.None? ==> forall id :: id in replicas && id != leader ==> !c.Up(id)
    ensures r.Some? ==> exists k :: 0 <= k < |replicas| && replicas[k] == r.value
                                    && forall j :: 0 <= j < k ==> replicas[j] == leader || !c.Up(replicas[j])
  {
    if replicas == [] then None
    else if replicas[0] != leader && c.Up(replicas[0]) then Some(replicas[0])
    else
      var r := Candidate(replicas[1..], leader, c);
      assert replicas == [replicas[0]] + replicas[1..];
      assert r.Some? ==> exists k :: 0 <= k < |replicas| && replicas[k] == r.value
                                     && forall j :: 0 <= j < k ==> replicas[j] == leader || !c.Up(replicas[j]) by {
        if r.Some? {
          var k :| 0 <= k < |replicas| - 1 && replicas[1..][k] == r.value
                   && forall j :: 0 <= j < k ==> replicas[1..][j] == leader || !c.Up(replicas[1..][j]);
          assert replicas[k + 1] == r.value;
          forall j | 0 <= j < k + 1 ensures replicas[j] == leader || !c.Up(replicas[j]) {
            if j > 0 { assert replicas[j] == replicas[1..][j - 1]; }
          }
        }
      }
      r
  }

  function NextEpoch(e: u64): u64 {
    if e == U64_MAX then U64_MAX else e + 1
  }

  function Promoted(a: LiveAssignment, c: Clock): LiveAssignment {
    var r := Candidate(a.replicas, a.leader, c);
    if c.Up(a.leader) || r.None? then a
    else a.(leader := r.value, leaderEpoch := NextEpoch(a.leaderEpoch))
  }

  function FailedOver(assignments: seq<LiveAssignment>, c: Clock): (r: seq<LiveAssignment>)
    ensures |r| == |assignments|
    ensures forall i :: 0 <= i < |r| ==> r[i] == Promoted(assignments[i], c)
  {
    seq(|assignments|, i requires 0 <= i < |assignments| => Promoted(assignments[i], c))
  }

  /** The entries of `ys` that differ from the entry of `xs` at the same place, in order. */
  function Diff(xs: seq<LiveAssignment>, ys: seq<LiveAssignment>): seq<LiveAssignment>
    requires |xs| == |ys|
  {
    if xs == [] then []
    else
      var n := |xs| - 1;
      Diff(xs[..n], ys[..n]) + if xs[n] == ys[n] then [] else [ys[n]]
  }

  /** Complete: a partition is left with a dead leader only when no other replica is live. */
  lemma FailoverComplete(a: LiveAssignment, c: Clock)
    ensures c.Up(Promoted(a, c).leader) || forall r :: r in a.replicas && r != a.leader ==> !c.Up(r)
  {
  }

  /** Minimal: exactly the partitions with a dead leader and another live replica change, to
      the first such replica in the list and the next epoch; nothing else does. */
  lemma FailoverMinimal(a: LiveAssignment, c: Clock)
    ensures var b := Promoted(a, c);
            && (b != a <==> !c.Up(a.leader) && exists r :: r in a.replicas && r != a.leader && c.Up(r))
            && (b != a ==> b.leader != a.leader && b.leaderEpoch == NextEpoch(a.leaderEpoch))
            && b == a.(leader := b.leader, leaderEpoch := b.leaderEpoch)
            && (a.leader in a.replicas ==> b.leader in b.replicas)
            && (b != a ==> exists k :: 0 <= k < |a.replicas| && a.replicas[k] == b.leader
                                       && forall j :: 0 <= j < k ==> a.replicas[j] == a.leader || !c.Up(a.replicas[j]))
  {
    var r := Candidate(a.replicas, a.leader, c);
    if r.Some? {
      assert r.value in a.replicas;
    }
  }

  /** Broker `id` was heard from at most `timeout` before `now`. */
  predicate Heard(lastSeen: map<BrokerId, u64>, id: BrokerId, now: u64, timeout: u64) {
    id in lastSeen && now <= lastSeen[id] + timeout
  }

  /** A broker just recorded at `at` is up as long as the timeout has not passed since. */
  lemma UpAfterHeartbeat(st: ClusterState, id: BrokerId, at: u64, now: u64, timeout: u64)
    requires exists b :: b in st.brokers && b.id == id
    ensures Clock(Recorded(st, id, at).lastSeen, now, timeout).Up(id) <==> now <= at + timeout
  {
  }

  /** In times: a pass replaces a leader exactly when it has been silent for longer than the timeout
      and another replica has not, by the first such replica in the list, at the next epoch below the
      counter's limit; every other assignment stays as it is. */
  lemma PassReplacesSilentLeaders(assignments: seq<LiveAssignment>, lastSeen: map<BrokerId, u64>, now: u64,
                                  timeout: u64, i: nat)
    requires i < |assignments|
    ensures var a, b := assignments[i], FailedOver(assignments, Clock(lastSeen, now, timeout))[i];
            var replaced := !Heard(lastSeen, a.leader, now, timeout)
                            && exists r :: r in a.replicas && r != a.leader && Heard(lastSeen, r, now, timeout);
            && (b.leader != a.leader <==> replaced) && (!replaced ==> b == a)
            && (replaced ==>
                  && b == a.(leader := b.leader,
                             leaderEpoch := if a.leaderEpoch == U64_MAX then U64_MAX else a.leaderEpoch + 1)
                  && exists k :: 0 <= k < |a.replicas| && a.replicas[k] == b.leader
                                 && Heard(lastSeen, b.leader, now, timeout)
                                 && forall j :: 0 <= j < k ==>
                                      a.replicas[j] == a.leader || !Heard(lastSeen, a.replicas[j], now, timeout))
  {
    var c := Clock(lastSeen, now, timeout);
    UpIsHeard(c);
    FailoverMinimal(assignments[i], c);
    var r := Candidate(assignments[i].replicas, assignments[i].leader, c);
  }

  lemma UpIsHeard(c: Clock)
    ensures forall id :: c.Up(id) <==> Heard(c.lastSeen, id, c.now, c.timeout)
  {
  }

  /** A second pass at the same time changes nothing and reports nothing. */
  lemma FailoverIdempotent(assignments: seq<LiveAssignment>, c: Clock)
    ensures FailedOver(FailedOver(assignments, c), c) == FailedOver(assignments, c)
    ensures Diff(FailedOver(assignments, c), FailedOver(FailedOver(assignments, c), c)) == []
  {
    DiffSame(FailedOver(assignments, c));
  }

  lemma {:induction false} DiffSame(xs: seq<LiveAssignment>)
    ensures Diff(xs, xs) == []
    decreases |xs|
  {
    if xs != [] {
      DiffSame(xs[..|xs| - 1]);
    }
  }

  lemma {:induction false} DiffEmpty(xs: seq<LiveAssignment>, ys: seq<LiveAssignment>)
    requires |xs| == |ys| && Diff(xs, ys) == []
    ensures xs == ys
    decreases |xs|
  {
    if xs != [] {
      var n := |xs| - 1;
      DiffEmpty(xs[..n], ys[..n]);
      assert xs == xs[..n] + [xs[n]] && ys == ys[..n] + [ys[n]];
    }
  }

  function Places(xs: seq<LiveAssignment>, ys: seq<LiveAssignment>): set<nat>
    requires |xs| == |ys|
  {
    set i | 0 <= i < |xs| && xs[i] != ys[i]
  }

  /** The new entry at some place at which the lists differ. */
  ghost predicate NewEntry(xs: seq<LiveAssignment>, ys: seq<LiveAssignment>, b: LiveAssignment)
    requires |xs| == |ys|
  {
    exists i :: 0 <= i < |xs| && xs[i] != ys[i] && ys[i] == b
  }

  /** The difference holds one entry for every place at which the lists differ: the new one. */
  lemma DiffExactly(xs: seq<LiveAssignment>, ys: seq<LiveAssignment>)
    requires |xs| == |ys|
    ensures |Diff(xs, ys)| == |Places(xs, ys)|
    ensures forall b :: b in Diff(xs, ys) <==> NewEntry(xs, ys, b)
  {
    hide NewEntry, Places;
    DiffCount(xs, ys);
    forall b ensures b in Diff(xs, ys) <==> NewEntry(xs, ys, b) {
      DiffHas(xs, ys, b);
    }
  }

  lemma {:induction false} DiffCount(xs: seq<LiveAssignment>, ys: seq<LiveAssignment>)
    requires |xs| == |ys|
    ensures |Diff(xs, ys)| == |Places(xs, ys)|
    decreases |xs|
  {
    if xs != [] {
      var n := |xs| - 1;
      hide Places;
      DiffCount(xs[..n], ys[..n]);
      PlacesBelow(xs, ys);
    }
  }

  lemma PlacesBelow(xs: seq<LiveAssignment>, ys: seq<LiveAssignment>)
    requires |xs| == |ys| > 0
    ensures var n := |xs| - 1;
            && n !in Places(xs[..n], ys[..n])
            && Places(xs, ys) == Places(xs[..n], ys[..n]) + if xs[n] == ys[n] then {} else {n}
  {
    var n := |xs| - 1;
    forall i | 0 <= i < n ensures i in Places(xs, ys) <==> i in Places(xs[..n], ys[..n]) {
      assert xs[..n][i] == xs[i] && ys[..n][i] == ys[i];
    }
  }

  lemma {:induction false} DiffHas(xs: seq<LiveAssignment>, ys: seq<LiveAssignment>, b: LiveAssignment)
    requires |xs| == |ys|
    ensures b in Diff(xs, ys) <==> NewEntry(xs, ys, b)
    decreases |xs|
  {
    if xs != [] {
      var n := |xs| - 1;
      DiffHas(xs[..n], ys[..n], b);
      EntryBelow(xs, ys, b);
    }
  }

  lemma EntryBelow(xs: seq<LiveAssignment>, ys: seq<LiveAssignment>, b: LiveAssignment)
    requires |xs| == |ys| > 0
    ensures var n := |xs| - 1;
            NewEntry(xs, ys, b) <==> NewEntry(xs[..n], ys[..n], b) || (xs[n] != ys[n] && ys[n] == b)
  {
    var n := |xs| - 1;
    if NewEntry(xs[..n], ys[..n], b) {
      var i :| 0 <= i < n && xs[..n][i] != ys[..n][i] && ys[..n][i] == b;
      assert xs[i] != ys[i] && ys[i] == b;
    }
    if i :| 0 <= i < n && xs[i] != ys[i] && ys[i] == b {
      assert xs[..n][i] != ys[..n][i] && ys[..n][i] == b;
    }
  }

  /** Appending entries that agree adds nothing to the difference. */
  lemma {:induction false} DiffSkip(xs: seq<LiveAssignment>, ys: seq<LiveAssignment>, i: nat, j: nat)
    requires |xs| == |ys| && i <= j <= |xs|
    requires forall k :: i <= k < j ==> xs[k] == ys[k]
    ensures Diff(xs[..j], ys[..j]) == Diff(xs[..i], ys[..i])
    decreases j
  {
    if i < j {
      DiffSkip(xs, ys, i, j - 1);
      assert xs[..j][..j - 1] == xs[..j - 1] && ys[..j][..j - 1] == ys[..j - 1];
    }
  }

  lemma DiffStep(xs: seq<LiveAssignment>, ys: seq<LiveAssignment>, i: nat)
    requires |xs| == |ys| && i < |xs|
    ensures Diff(xs[..i + 1], ys[..i + 1]) == Diff(xs[..i], ys[..i]) + if xs[i] == ys[i] then [] else [ys[i]]
  {
    assert xs[..i + 1][..i] == xs[..i] && ys[..i + 1][..i] == ys[..i];
  }

  /** `dead` lists, in increasing order, exactly the assignments whose leader is down. */
  ghost predicate IsDeadList(assignments: seq<LiveAssignment>, dead: seq<nat>, c: Clock) {
    && (forall k :: 0 <= k < |dead| ==> dead[k] < |assignments| && !c.Up(assignments[dead[k]].leader))
    && (forall j, k :: 0 <= j < k < |dead| ==> dead[j] < dead[k])
    && (forall i :: 0 <= i < |assignments| && !c.Up(assignments[i].leader) ==> i in dead)
  }

  /** Where the `k`-th dead entry is; the end of the list after the last one. */
  ghost function Mark(dead: seq<nat>, k: nat, n: nat): nat {
    if k < |dead| then dead[k] else n
  }

  /** Between two neighbours in the dead list nothing changes. */
  lemma LiveStretch(assignments: seq<LiveAssignment>, dead: seq<nat>, k: nat, c: Clock)
    requires IsDeadList(assignments, dead, c) && k <= |dead|
    ensures var from := if k == 0 then 0 else dead[k - 1] + 1;
            && from <= Mark(dead, k, |assignments|) <= |assignments|
            && forall i :: from <= i < Mark(dead, k, |assignments|) ==>
                 assignments[i] == FailedOver(assignments, c)[i]
  {
    var from := if k == 0 then 0 else dead[k - 1] + 1;
    forall i | from <= i < Mark(dead, k, |assignments|) ensures i !in dead {
      NotBetween(dead, k, i, |assignments|);
    }
  }

  lemma NotBetween(dead: seq<nat>, k: nat, i: nat, n: nat)
    requires (forall j, m :: 0 <= j < m < |dead| ==> dead[j] < dead[m]) && k <= |dead|
    requires (if k == 0 then 0 else dead[k - 1] + 1) <= i < Mark(dead, k, n)
    ensures i !in dead
  {
    assert forall m :: 0 <= m < |dead| ==> dead[m] != i;
  }

  /** The pass has reached entry `m`: `cur` is new up to there and old from there on. */
  ghost predicate DoneTo(cur: seq<LiveAssignment>, changed: seq<LiveAssignment>,
                         before: seq<LiveAssignment>, after: seq<LiveAssignment>, m: nat)
  {
    && m <= |before| == |after|
    && cur == after[..m] + before[m..]
    && changed == Diff(before[..m], after[..m])
  }

  lemma DoneNothing(before: seq<LiveAssignment>, after: seq<LiveAssignment>)
    requires |before| == |after|
    ensures DoneTo(before, [], before, after, 0)
  {
  }

  lemma DoneStep(cur: seq<LiveAssignment>, changed: seq<LiveAssignment>,
                 before: seq<LiveAssignment>, after: seq<LiveAssignment>, m: nat)
    requires DoneTo(cur, changed, before, after, m) && m < |before|
    ensures |cur| == |before| && cur[m] == before[m]
    ensures DoneTo(cur[m := after[m]], changed + if before[m] == after[m] then [] else [after[m]],
                   before, after, m + 1)
  {
    DiffStep(before, after, m);
  }

  lemma DeadAt(before: seq<LiveAssignment>, dead: seq<nat>, k: nat, c: Clock)
    requires IsDeadList(before, dead, c) && k < |dead|
    ensures dead[k] < |before| && !c.Up(before[dead[k]].leader)
  {
  }

  /** From one dead entry to the next the pass has nothing to do. */
  lemma DoneGap(cur: seq<LiveAssignment>, changed: seq<LiveAssignment>, before: seq<LiveAssignment>,
                after: seq<LiveAssignment>, m: nat, dead: seq<nat>, k: nat, c: Clock)
    requires IsDeadList(before, dead, c) && k <= |dead| && after == FailedOver(before, c)
    requires m == if k == 0 then 0 else dead[k - 1] + 1
    requires DoneTo(cur, changed, before, after, m)
    ensures DoneTo(cur, changed, before, after, Mark(dead, k, |before|))
  {
    hide IsDeadList, Diff;
    LiveStretch(before, dead, k, c);
    DiffSkip(before, after, m, Mark(dead, k, |before|));
  }

  /** Promoting the `k`-th dead entry takes the pass to the next one. */
  lemma DoneDead(cur: seq<LiveAssignment>, changed: seq<LiveAssignment>, before: seq<LiveAssignment>,
                 after: seq<LiveAssignment>, dead: seq<nat>, k: nat, c: Clock)
    requires IsDeadList(before, dead, c) && k < |dead| && after == FailedOver(before, c)
    requires DoneTo(cur, changed, before, after, Mark(dead, k, |before|))
    ensures dead[k] < |cur| && !c.Up(cur[dead[k]].leader)
    ensures var b := Promoted(cur[dead[k]], c);
            DoneTo(cur[dead[k] := b], changed + if b == cur[dead[k]] then [] else [b],
                   before, after, Mark(dead, k + 1, |before|))
  {
    hide Promoted, Diff, IsDeadList, DoneTo;
    DeadAt(before, dead, k, c);
    DoneStep(cur, changed, before, after, dead[k]);
    var b := Promoted(cur[dead[k]], c);
    var next := changed + if before[dead[k]] == after[dead[k]] then [] else [after[dead[k]]];
    DoneGap(cur[dead[k] := after[dead[k]]], next, before, after, dead[k] + 1, dead, k + 1, c);
    assert cur[dead[k] := after[dead[k]]] == cur[dead[k] := b];
    assert next == changed + if b == cur[dead[k]] then [] else [b];
  }

  lemma DoneAll(cur: seq<LiveAssignment>, changed: seq<LiveAssignment>,
                before: seq<LiveAssignment>, after: seq<LiveAssignment>)
    requires DoneTo(cur, changed, before, after, |before|)
    ensures |before| == |after| && cur == after && changed == Diff(before, after)
  {
    assert before[..|before|] == before && after[..|before|] == after;
  }

  /** The broker's live copy of the cluster state. */
  class LiveCluster {
    var minInsyncReplicas: u16
    var brokers: seq<BrokerNode>
    var assignments: seq<LiveAssignment>
    var lastSeen: map<BrokerId, u64>

    function Value(): ClusterState
      reads this
    {
      ClusterState(minInsyncReplicas, brokers, assignments, lastSeen)
    }

    constructor (st: ClusterState)
      ensures Value() == st
    {
      minInsyncReplicas, brokers, assignments, lastSeen :=
        st.minInsyncReplicas, st.brokers, st.assignments, st.lastSeen;
    }

    method RecordHeartbeat(id: BrokerId, at: u64)
      modifies this`lastSeen
      ensures Value() == Recorded(old(Value()), id, at)
    {
      if exists b :: b in brokers && b.id == id {
        lastSeen := lastSeen[id := at];
      }
    }

    /** Promotes the next live replica of every partition whose leader is dead, and returns
        the assignments that changed. */
    method FailoverDeadLeaders(now: u64, timeout: u64) returns (changed: seq<LiveAssignment>)
      modifies this`assignments
      ensures assignments == FailedOver(old(assignments), Clock(lastSeen, now, timeout))
      ensures changed == Diff(old(assignments), assignments)
    {
      hide FailedOver, Diff, DoneTo, IsDeadList;
      ghost var before := assignments;
      ghost var c := Clock(lastSeen, now, timeout);
      ghost var after := FailedOver(before, c);
      var dead := DeadLeaders(now, timeout);
      changed := [];
      DoneNothing(before, after);
      DoneGap(before, [], before, after, 0, dead, 0, c);
      for k := 0 to |dead|
        invariant DoneTo(assignments, changed, before, after, Mark(dead, k, |before|))
      {
        ghost var was := assignments;
        DoneDead(was, changed, before, after, dead, k, c);
        var b := PromoteNext(dead[k], now, timeout);
        changed := changed + b;
      }
      DoneAll(assignments, changed, before, after);
    }

    /** Promotes the next live replica of one partition, if there is one. */
    method PromoteNext(idx: nat, now: u64, timeout: u64) returns (changed: seq<LiveAssignment>)
      requires idx < |assignments| && !Clock(lastSeen, now, timeout).Up(assignments[idx].leader)
      modifies this`assignments
      ensures var a := old(assignments[idx]);
              var b := Promoted(a, Clock(lastSeen, now, timeout));
              && assignments == old(assignments)[idx := b]
              && changed == if b == a then [] else [b]
    {
      var a := assignments[idx];
      var newLeader := Candidate(a.replicas, a.leader, Clock(lastSeen, now, timeout));
      if newLeader.None? {
        return [];
      }
      var b := a.(leader := newLeader.value, leaderEpoch := NextEpoch(a.leaderEpoch));
      assignments := assignments[idx := b];
      return [b];
    }

    /** Indices of the assignments whose leader is dead, in order. */
    method DeadLeaders(now: u64, timeout: u64) returns (dead: seq<nat>)
      ensures IsDeadList(assignments, dead, Clock(lastSeen, now, timeout))
    {
      dead := [];
      for i := 0 to |assignments|
        invariant forall k :: 0 <= k < |dead| ==> dead[k] < i
        invariant IsDeadList(assignments[..i], dead, Clock(lastSeen, now, timeout))
      {
        if !Alive(lastSeen, assignments[i].leader, now, timeout) {
          dead := dead + [i];
        }
      }
      assert assignments[..|assignments|] == assignments;
    }
  }

  // ---- The seed and the static view

  /** A broker's first view is the seed it booted from. */
  lemma SeedProjectsBack(seed: ClusterConfig, now: u64)
    ensures ToConfig(FromSeed(seed, now)) == seed
  {
    assert ToConfig(FromSeed(seed, now)).assignments == seed.assignments;
  }

  function ConfigLeader(cfg: ClusterConfig, topicId: u16, partitionId: u16): Option<BrokerId> {
    ConfigLeaderIn(cfg.assignments, topicId, partitionId)
  }

  function ConfigLeaderIn(assignments: seq<PartitionAssignment>, topicId: u16, partitionId: u16): Option<BrokerId> {
    if assignments == [] then None
    else if assignments[0].topicId == topicId
      && assignments[0].partitionId == partitionId then Some(assignments[0].leader)
    else ConfigLeaderIn(assignments[1..], topicId, partitionId)
  }

  /** The leader clients are sent to is the leader of the live state the view was taken from. */
  lemma ViewNamesLiveLeader(st: ClusterState, topicId: u16, partitionId: u16)
    ensures ConfigLeader(ToConfig(st), topicId, partitionId) == LeaderFor(st, topicId, partitionId)
  {
    ViewLookup(st.assignments, ToConfig(st).assignments, topicId, partitionId);
  }

  lemma {:induction false} ViewLookup(xs: seq<LiveAssignment>, ys: seq<PartitionAssignment>, topicId: u16,
                                      partitionId: u16)
    requires |xs| == |ys|
    requires forall i :: 0 <= i < |xs| ==>
      ys[i] == PartitionAssignment(xs[i].topicId, xs[i].partitionId, xs[i].leader, xs[i].replicas)
    ensures var i := Find(xs, topicId, partitionId);
            ConfigLeaderIn(ys, topicId, partitionId) == if i < |xs| then Some(xs[i].leader) else None
    decreases |xs|
  {
    if xs != [] {
      ViewLookup(xs[1..], ys[1..], topicId, partitionId);
    }
  }
}
