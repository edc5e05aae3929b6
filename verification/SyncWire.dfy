/** The GET_CLUSTER response in its version 1 frame: which cluster states reach a broker that
    syncs from the controller. */
module SyncWire {
  import opened Bytes
  import opened Codecs
  import opened Cluster
  import opened ClusterCodec
  import opened Messages
  import opened Frames

  /** What the syncing broker makes of a response. */
  function Synced(info: seq<byte>, now: u64): Outcome<ClusterState> {
    var (m, _) :- ReadMessage(WireV1([113] + info));
    if m.RGetCluster? then ParseInfo(m.bytes, now) else Err
  }

  lemma PrefixSynced(info: seq<byte>, now: u64)
    ensures var length := (1 + |info|) % 0x100;
            Synced(info, now) == if length == 0 then Err else ParseInfo(info[..length - 1], now)
  {
    hide ReadMessage, ParseInfo;
    ClusterResponseArrivesAsPrefix(info, []);
    assert WireV1([113] + info) + [] == WireV1([113] + info);
  }

  /** A response arrives as the snapshot it was made from exactly when it has at most 254 bytes;
      otherwise it is an error. */
  lemma SyncedExactly(st: ClusterState, now: u64)
    requires Encodable(st)
    ensures Synced(InfoBytes(st), now) == if |InfoBytes(st)| <= 254 then Ok(st.(lastSeen := map[])) else Err
  {
    hide Synced, ParseInfo, InfoBytes, Encodable;
    var info := InfoBytes(st);
    PrefixSynced(info, now);
    var length := (1 + |info|) % 0x100;
    if |info| <= 254 {
      assert info[..length - 1] == info;
      InfoRoundTrip(st, now);
    } else if length > 0 {
      InfoRefusesPrefix(st, length - 1, now);
    }
  }

  // ---- The size of a response

  function HostsSize(brokers: seq<BrokerNode>): nat {
    if brokers == [] then 0 else 5 + |brokers[0].host| + HostsSize(brokers[1..])
  }

  function SlotsSize(assignments: seq<PartitionAssignment>): nat {
    if assignments == [] then 0 else 16 + 2 * |assignments[0].replicas| + SlotsSize(assignments[1..])
  }

  /** Counted from the static configuration: leaders and epochs have a fixed width. */
  function InfoSize(cfg: ClusterConfig): nat {
    7 + HostsSize(cfg.brokers) + SlotsSize(cfg.assignments)
  }

  lemma {:induction false} HostsBytes(brokers: seq<BrokerNode>)
    requires forall b :: b in brokers ==> EncodableBroker(b)
    ensures |All(brokers, BrokerBytes)| == HostsSize(brokers)
    decreases |brokers|
  {
    hide Be;
    if brokers != [] {
      assert EncodableBroker(brokers[0]);
      HostsBytes(brokers[1..]);
    }
  }

  lemma {:induction false} ReplicasBytes(rs: seq<BrokerId>)
    ensures |All(rs, ReplicaBytes)| == 2 * |rs|
    decreases |rs|
  {
    if rs != [] {
      ReplicasBytes(rs[1..]);
    }
  }

  lemma {:induction false} SlotsBytes(live: seq<LiveAssignment>, assignments: seq<PartitionAssignment>)
    requires |live| == |assignments| && forall i :: 0 <= i < |live| ==> live[i].replicas == assignments[i].replicas
    ensures |All(live, LiveBytes)| == SlotsSize(assignments)
    decreases |live|
  {
    hide Be;
    if live != [] {
      ReplicasBytes(live[0].replicas);
      SlotsBytes(live[1..], assignments[1..]);
    }
  }

  /** Every state with these brokers and replica lists has a response of this size. */
  lemma InfoSizeFixed(cfg: ClusterConfig, st: ClusterState)
    requires st.brokers == cfg.brokers && (forall b :: b in st.brokers ==> EncodableBroker(b))
    requires |st.assignments| == |cfg.assignments|
    requires forall i :: 0 <= i < |st.assignments| ==> st.assignments[i].replicas == cfg.assignments[i].replicas
    ensures |InfoBytes(st)| == InfoSize(cfg)
  {
    hide Be, All;
    HostsBytes(st.brokers);
    SlotsBytes(st.assignments, cfg.assignments);
  }
}
