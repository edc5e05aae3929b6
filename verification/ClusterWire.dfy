/** The encode and decode loops of the cluster state: a growing buffer, and a cursor that
    advances over the input. Each is proved against the parsers and byte forms it implements. */
module ClusterWire {
  import opened Bytes
  import opened Codecs
  import opened Texts
  import opened Cluster
  import opened ClusterCodec

  /** A read at a cursor did what the parser does on the bytes from there on. */
  ghost predicate Reads<T(!new)>(spec: Outcome<(T, seq<byte>)>, r: Outcome<T>, bytes: seq<byte>, next: nat) {
    && next <= |bytes|
    && spec == if r.Ok? then Ok((r.value, bytes[next..])) else r.PropagateFailure()
  }

  method ReadU8(bytes: seq<byte>, offset: nat) returns (r: Outcome<byte>, next: nat)
    requires offset <= |bytes|
    ensures Reads(TakeU8(bytes[offset..]), r, bytes, next)
  {
    if offset >= |bytes| {
      return Err, offset;
    }
    return Ok(bytes[offset]), offset + 1;
  }

  method ReadU16(bytes: seq<byte>, offset: nat) returns (r: Outcome<u16>, next: nat)
    requires offset <= |bytes|
    ensures Reads(TakeU16(bytes[offset..]), r, bytes, next)
  {
    if offset + 2 > |bytes| {
      return Err, offset;
    }
    assert bytes[offset..][0..2] == bytes[offset..offset + 2];
    return Ok(U16At(bytes, offset)), offset + 2;
  }

  method ReadU64(bytes: seq<byte>, offset: nat) returns (r: Outcome<u64>, next: nat)
    requires offset <= |bytes|
    ensures Reads(TakeU64(bytes[offset..]), r, bytes, next)
  {
    if offset + 8 > |bytes| {
      return Err, offset;
    }
    assert bytes[offset..][0..8] == bytes[offset..offset + 8];
    return Ok(U64At(bytes, offset)), offset + 8;
  }

  method ReadBroker(bytes: seq<byte>, offset: nat) returns (r: Outcome<BrokerNode>, next: nat)
    requires offset <= |bytes|
    ensures Reads(TakeBroker(bytes[offset..]), r, bytes, next)
  {
    hide TakeU8, TakeU16;
    var id, o1 := ReadU16(bytes, offset);
    if !id.Ok? { return id.PropagateFailure(), o1; }
    var len, o2 := ReadU8(bytes, o1);
    if !len.Ok? { return len.PropagateFailure(), o2; }
    if o2 + len.value + 2 > |bytes| {
      return Err, o2;
    }
    var o3: nat := o2 + len.value;
    var host := bytes[o2..o3];
    assert bytes[o2..][..len.value] == host && bytes[o2..][len.value..] == bytes[o3..];
    if !Utf8(host) {
      return Err, o3;
    }
    var port, o4 := ReadU16(bytes, o3);
    if !port.Ok? { return port.PropagateFailure(), o4; }
    return Ok(BrokerNode(id.value, host, port.value)), o4;
  }

  method ReadBrokers(bytes: seq<byte>, offset: nat, count: nat) returns (r: Outcome<seq<BrokerNode>>, next: nat)
    requires offset <= |bytes|
    ensures Reads(Many(count, TakeBroker, bytes[offset..]), r, bytes, next)
  {
    hide Many, TakeBroker;
    var brokers: seq<BrokerNode> := [];
    next := offset;
    ThenNothing([], TakeBroker, bytes[offset..], count);
    for i := 0 to count
      invariant next <= |bytes|
      invariant Many(count, TakeBroker, bytes[offset..])
             == Then(brokers, Many(count - i, TakeBroker, bytes[next..]))
    {
      ThenStep(brokers, count - i, TakeBroker, bytes[next..]);
      var b, o := ReadBroker(bytes, next);
      if !b.Ok? { return b.PropagateFailure(), o; }
      brokers := brokers + [b.value];
      next := o;
    }
    ThenNothing(brokers, TakeBroker, bytes[next..], 0);
    return Ok(brokers), next;
  }

  method ReadReplicas(bytes: seq<byte>, offset: nat, count: nat) returns (r: Outcome<seq<u16>>, next: nat)
    requires offset <= |bytes|
    ensures Reads(Many(count, TakeU16, bytes[offset..]), r, bytes, next)
  {
    hide Many, TakeU16;
    var replicas: seq<u16> := [];
    next := offset;
    ThenNothing([], TakeU16, bytes[offset..], count);
    for i := 0 to count
      invariant next <= |bytes|
      invariant Many(count, TakeU16, bytes[offset..])
             == Then(replicas, Many(count - i, TakeU16, bytes[next..]))
    {
      ThenStep(replicas, count - i, TakeU16, bytes[next..]);
      var id, o := ReadU16(bytes, next);
      if !id.Ok? { return id.PropagateFailure(), o; }
      replicas := replicas + [id.value];
      next := o;
    }
    ThenNothing(replicas, TakeU16, bytes[next..], 0);
    return Ok(replicas), next;
  }

  method ReadLive(bytes: seq<byte>, offset: nat) returns (r: Outcome<LiveAssignment>, next: nat)
    requires offset <= |bytes|
    ensures Reads(TakeLive(bytes[offset..]), r, bytes, next)
  {
    hide Many, TakeU16, TakeU64;
    var topicId, o1 := ReadU16(bytes, offset);
    if !topicId.Ok? { return topicId.PropagateFailure(), o1; }
    var partitionId, o2 := ReadU16(bytes, o1);
    if !partitionId.Ok? { return partitionId.PropagateFailure(), o2; }
    var leader, o3 := ReadU16(bytes, o2);
    if !leader.Ok? { return leader.PropagateFailure(), o3; }
    var count, o4 := ReadU16(bytes, o3);
    if !count.Ok? { return count.PropagateFailure(), o4; }
    var replicas, o5 := ReadReplicas(bytes, o4, count.value);
    if !replicas.Ok? { return replicas.PropagateFailure(), o5; }
    var epoch, o6 := ReadU64(bytes, o5);
    if !epoch.Ok? { return epoch.PropagateFailure(), o6; }
    return Ok(LiveAssignment(topicId.value, partitionId.value, leader.value, replicas.value, epoch.value)), o6;
  }

  method ReadAssignments(bytes: seq<byte>, offset: nat, count: nat) returns (r: Outcome<seq<LiveAssignment>>, next: nat)
    requires offset <= |bytes|
    ensures Reads(Many(count, TakeLive, bytes[offset..]), r, bytes, next)
  {
    hide Many, TakeLive;
    var assignments: seq<LiveAssignment> := [];
    next := offset;
    ThenNothing([], TakeLive, bytes[offset..], count);
    for i := 0 to count
      invariant next <= |bytes|
      invariant Many(count, TakeLive, bytes[offset..])
             == Then(assignments, Many(count - i, TakeLive, bytes[next..]))
    {
      ThenStep(assignments, count - i, TakeLive, bytes[next..]);
      var a, o := ReadLive(bytes, next);
      if !a.Ok? { return a.PropagateFailure(), o; }
      assignments := assignments + [a.value];
      next := o;
    }
    ThenNothing(assignments, TakeLive, bytes[next..], 0);
    return Ok(assignments), next;
  }

  /** The liveness entries, inserted one by one. */
  method ReadLiveness(bytes: seq<byte>, offset: nat, count: nat) returns (r: Outcome<map<BrokerId, u64>>)
    requires offset <= |bytes|
    ensures var spec := Many(count, TakeSeen, bytes[offset..]);
            r == if spec.Ok? then Ok(Table(spec.value.0)) else spec.PropagateFailure()
  {
    hide Many;
    var lastSeen: map<BrokerId, u64> := map[];
    var next: nat := offset;
    ghost var es: seq<(BrokerId, u64)> := [];
    ThenNothing([], TakeSeen, bytes[offset..], count);
    for i := 0 to count
      invariant next <= |bytes| && lastSeen == Table(es)
      invariant Many(count, TakeSeen, bytes[offset..])
             == Then(es, Many(count - i, TakeSeen, bytes[next..]))
    {
      hide TakeU16, TakeU64;
      ThenStep(es, count - i, TakeSeen, bytes[next..]);
      var id, o1 := ReadU16(bytes, next);
      if !id.Ok? { return id.PropagateFailure(); }
      var seen, o2 := ReadU64(bytes, o1);
      if !seen.Ok? { return seen.PropagateFailure(); }
      lastSeen := lastSeen[id.value := seen.value];
      assert (es + [(id.value, seen.value)])[..|es|] == es;
      es := es + [(id.value, seen.value)];
      next := o2;
    }
    ThenNothing(es, TakeSeen, bytes[next..], 0);
    return Ok(lastSeen);
  }

  method DecodeBody(bytes: seq<byte>) returns (r: Outcome<ClusterState>)
    ensures r == ParseState(bytes)
  {
    hide Many, TakeU16, Table;
    assert bytes[0..] == bytes;
    var minIsr, o1 := ReadU16(bytes, 0);
    if !minIsr.Ok? { return minIsr.PropagateFailure(); }
    var brokerCount, o2 := ReadU16(bytes, o1);
    if !brokerCount.Ok? { return brokerCount.PropagateFailure(); }
    var brokers, o3 := ReadBrokers(bytes, o2, brokerCount.value);
    if !brokers.Ok? { return brokers.PropagateFailure(); }
    var assignmentCount, o4 := ReadU16(bytes, o3);
    if !assignmentCount.Ok? { return assignmentCount.PropagateFailure(); }
    var assignments, o5 := ReadAssignments(bytes, o4, assignmentCount.value);
    if !assignments.Ok? { return assignments.PropagateFailure(); }
    if o5 + 2 > |bytes| {
      return Ok(ClusterState(minIsr.value, brokers.value, assignments.value, map[]));
    }
    var livenessCount, o6 := ReadU16(bytes, o5);
    if !livenessCount.Ok? { return livenessCount.PropagateFailure(); }
    var lastSeen := ReadLiveness(bytes, o6, livenessCount.value);
    if !lastSeen.Ok? { return lastSeen.PropagateFailure(); }
    return Ok(ClusterState(minIsr.value, brokers.value, assignments.value, lastSeen.value));
  }

  /** Appends the byte form of every item, in order. */
  method ExtendAll<T>(buffer: seq<byte>, xs: seq<T>, enc: T -> seq<byte>) returns (out: seq<byte>)
    ensures out == buffer + All(xs, enc)
  {
    out := buffer;
    assert xs[0..] == xs;
    for i := 0 to |xs|
      invariant out + All(xs[i..], enc) == buffer + All(xs, enc)
    {
      assert xs[i..][1..] == xs[i + 1..];
      out := out + enc(xs[i]);
    }
  }

  /** The stored form; the liveness table is written in whatever order it is iterated. */
  method EncodeState(st: ClusterState) returns (out: seq<byte>, ghost order: seq<BrokerId>)
    ensures Enumerates(order, st.lastSeen) && out == StateBytes(st, order)
  {
    hide All, Be;
    out := MAGIC + Be(2, st.minInsyncReplicas) + Be(2, |st.brokers|);
    out := ExtendAll(out, st.brokers, BrokerBytes);
    out := out + Be(2, |st.assignments|);
    out := ExtendAll(out, st.assignments, LiveBytes);
    assert out == MAGIC + CommonBytes(st);
    var entries;
    entries, order := Iterate(st.lastSeen);
    EnumerationLength(order, st.lastSeen);
    out := out + Be(2, |st.lastSeen|);
    out := ExtendAll(out, entries, SeenBytes);
  }

  method Iterate(lastSeen: map<BrokerId, u64>) returns (entries: seq<(BrokerId, u64)>, ghost order: seq<BrokerId>)
    ensures Enumerates(order, lastSeen) && entries == Entries(lastSeen, order)
  {
    entries, order := [], [];
    var left := lastSeen.Keys;
    while left != {}
      invariant left <= lastSeen.Keys
      invariant forall i :: 0 <= i < |order| ==> order[i] in lastSeen && order[i] !in left
      invariant forall id :: id in lastSeen && id !in left ==> id in order
      invariant forall i, j :: 0 <= i < j < |order| ==> order[i] != order[j]
      invariant entries == Entries(lastSeen, order)
      decreases left
    {
      var id :| id in left;
      left := left - {id};
      entries := entries + [(id, lastSeen[id])];
      order := order + [id];
    }
  }
}
