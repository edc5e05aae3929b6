/** Byte forms of the cluster metadata: the stored state file, the versioned GET_CLUSTER
    response, and the older static configuration. */
module ClusterCodec {
  import opened Bytes
  import opened Codecs
  import opened Texts
  import opened Cluster

  /** `DMQCS` and a format byte. */
  const MAGIC: seq<byte> := [0x44, 0x4D, 0x51, 0x43, 0x53, 0x01]

  function HostLen(b: BrokerNode): byte {
    Min(|b.host|, 255)
  }

  /** Host names are cut at 255 bytes. */
  function BrokerBytes(b: BrokerNode): seq<byte> {
    Be(2, b.id) + ([HostLen(b)] + (b.host[..HostLen(b)] + Be(2, b.port)))
  }

  function ReplicaBytes(r: BrokerId): seq<byte> {
    Be(2, r)
  }

  /** Counts are cast to u16: only their low 16 bits are written. */
  function LiveBytes(a: LiveAssignment): seq<byte> {
    Be(2, a.topicId) + (Be(2, a.partitionId) + (Be(2, a.leader)
    + (Be(2, |a.replicas|) + (All(a.replicas, ReplicaBytes) + Be(8, a.leaderEpoch)))))
  }

  function SeenBytes(e: (BrokerId, u64)): seq<byte> {
    Be(2, e.0) + Be(8, e.1)
  }

  /** The part the file and the GET_CLUSTER response share. */
  function CommonBytes(st: ClusterState): seq<byte> {
    Be(2, st.minInsyncReplicas)
    + (Be(2, |st.brokers|) + (All(st.brokers, BrokerBytes)
    + (Be(2, |st.assignments|) + All(st.assignments, LiveBytes))))
  }

  /** `order` is the order in which the liveness table is iterated. */
  predicate Enumerates(order: seq<BrokerId>, lastSeen: map<BrokerId, u64>) {
    && (forall i :: 0 <= i < |order| ==> order[i] in lastSeen)
    && (forall id :: id in lastSeen ==> id in order)
    && (forall i, j :: 0 <= i < j < |order| ==> order[i] != order[j])
  }

  function Entries(lastSeen: map<BrokerId, u64>, order: seq<BrokerId>): seq<(BrokerId, u64)>
    requires forall i :: 0 <= i < |order| ==> order[i] in lastSeen
  {
    seq(|order|, i requires 0 <= i < |order| => (order[i], lastSeen[order[i]]))
  }

  function StateBytes(st: ClusterState, order: seq<BrokerId>): seq<byte>
    requires Enumerates(order, st.lastSeen)
  {
    MAGIC + (CommonBytes(st) + (Be(2, |order|) + All(Entries(st.lastSeen, order), SeenBytes)))
  }

  function InfoBytes(st: ClusterState): seq<byte> {
    [2] + CommonBytes(st)
  }

  function TakeBroker(s: seq<byte>): Outcome<(BrokerNode, seq<byte>)> {
    var (id, s1) :- TakeU16(s);
    var (len, s2) :- TakeU8(s1);
    if |s2| < len + 2 || !Utf8(s2[..len]) then Err
    else
      var (port, s3) :- TakeU16(s2[len..]);
      Ok((BrokerNode(id, s2[..len], port), s3))
  }

  function TakeLive(s: seq<byte>): Outcome<(LiveAssignment, seq<byte>)> {
    var (topicId, s1) :- TakeU16(s);
    var (partitionId, s2) :- TakeU16(s1);
    var (leader, s3) :- TakeU16(s2);
    var (count, s4) :- TakeU16(s3);
    var (replicas, s5) :- Many(count, TakeU16, s4);
    var (epoch, s6) :- TakeU64(s5);
    Ok((LiveAssignment(topicId, partitionId, leader, replicas, epoch), s6))
  }

  function TakeSeen(s: seq<byte>): Outcome<((BrokerId, u64), seq<byte>)> {
    var (id, s1) :- TakeU16(s);
    var (seen, s2) :- TakeU64(s1);
    Ok(((id, seen), s2))
  }

  function TakeCommon(s: seq<byte>): Outcome<(ClusterState, seq<byte>)> {
    var (minIsr, s1) :- TakeU16(s);
    var (brokerCount, s2) :- TakeU16(s1);
    var (brokers, s3) :- Many(brokerCount, TakeBroker, s2);
    var (assignmentCount, s4) :- TakeU16(s3);
    var (assignments, s5) :- Many(assignmentCount, TakeLive, s4);
    Ok((ClusterState(minIsr, brokers, assignments, map[]), s5))
  }

  /** Later entries overwrite earlier ones. */
  function Table(es: seq<(BrokerId, u64)>): (m: map<BrokerId, u64>)
    ensures |m| <= |es|
  {
    if es == [] then map[] else
    var m := Table(es[..|es| - 1]);
    var last := es[|es| - 1];
    assert m[last.0 := last.1].Keys == m.Keys + {last.0};
    m[last.0 := last.1]
  }

  /** The table holds the last time given for each broker of the entries, and nothing else. */
  lemma {:induction false} TableExactly(es: seq<(BrokerId, u64)>, id: BrokerId)
    ensures id in Table(es) <==> exists i :: 0 <= i < |es| && es[i].0 == id
    ensures forall i :: 0 <= i < |es| && es[i].0 == id && (forall j :: i < j < |es| ==> es[j].0 != id) ==>
              id in Table(es) && Table(es)[id] == es[i].1
    decreases |es|
  {
    if es != [] {
      var n := |es| - 1;
      TableExactly(es[..n], id);
      assert forall i :: 0 <= i < n ==> es[..n][i] == es[i];
      if es[n].0 != id {
        assert (exists i :: 0 <= i < |es| && es[i].0 == id) <==> exists i :: 0 <= i < n && es[..n][i].0 == id by {
          if i :| 0 <= i < |es| && es[i].0 == id {
            assert es[..n][i].0 == id;
          }
        }
      }
    }
  }

  /** The liveness table is optional at the end. */
  function ParseState(s: seq<byte>): Outcome<ClusterState> {
    var (st, s1) :- TakeCommon(s);
    if |s1| < 2 then Ok(st)
    else
      var (count, s2) :- TakeU16(s1);
      var (es, _) :- Many(count, TakeSeen, s2);
      Ok(st.(lastSeen := Table(es)))
  }

  function ParseFile(s: seq<byte>): Outcome<ClusterState> {
    if MAGIC <= s then ParseState(s[|MAGIC|..]) else Err
  }

  /** The host is text of at most 255 bytes. */
  predicate EncodableBroker(b: BrokerNode) {
    |b.host| <= 255 && Utf8(b.host)
  }

  predicate EncodableLive(a: LiveAssignment) {
    |a.replicas| <= U16_MAX
  }

  /** Nothing is cut or wrapped when this state is written. */
  predicate Encodable(st: ClusterState) {
    && |st.brokers| <= U16_MAX && (forall b :: b in st.brokers ==> EncodableBroker(b))
    && |st.assignments| <= U16_MAX && (forall a :: a in st.assignments ==> EncodableLive(a))
  }

  // ---- Each item is self-delimiting

  lemma ReplicaDelimited(r: BrokerId)
    ensures SelfDelimiting(ReplicaBytes, TakeU16, r)
  {
    forall rest ensures TakeU16(ReplicaBytes(r) + rest) == Ok((r, rest)) {
      TakesInvertBe(r, rest);
    }
  }

  lemma BrokerReads(b: BrokerNode, rest: seq<byte>)
    requires EncodableBroker(b)
    ensures TakeBroker(BrokerBytes(b) + rest) == Ok((b, rest))
  {
    hide Be, FromBe, Radix, TakeU16, TakeU8;
    var s3 := Be(2, b.port) + rest;
    var s2 := b.host + s3;
    var s1 := [HostLen(b)] + s2;
    assert b.host[..HostLen(b)] == b.host;
    assert BrokerBytes(b) + rest == Be(2, b.id) + s1;
    TakesInvertBe(b.id, s1);
    TakesInvertBe(HostLen(b), s2);
    TakesInvertBe(b.port, rest);
    assert s2[..HostLen(b)] == b.host && s2[HostLen(b)..] == s3;
  }

  lemma BrokerRefusesPrefix(b: BrokerNode, n: nat)
    requires EncodableBroker(b) && n < |BrokerBytes(b)|
    ensures TakeBroker(BrokerBytes(b)[..n]) == Err
  {
    var full := BrokerBytes(b);
    assert b.host[..HostLen(b)] == b.host;
    if n >= 3 {
      var tail := (b.host + Be(2, b.port))[..n - 3];
      assert full[..n] == Be(2, b.id) + ([HostLen(b)] + tail);
      TakesInvertBe(b.id, [HostLen(b)] + tail);
      TakesInvertBe(HostLen(b), tail);
    } else if n == 2 {
      assert full[..n] == Be(2, b.id) + [];
      TakesInvertBe(b.id, []);
    }
  }

  lemma BrokerDelimited(b: BrokerNode)
    requires EncodableBroker(b)
    ensures SelfDelimiting(BrokerBytes, TakeBroker, b)
  {
    forall rest ensures TakeBroker(BrokerBytes(b) + rest) == Ok((b, rest)) {
      BrokerReads(b, rest);
    }
    forall n | 0 <= n < |BrokerBytes(b)| ensures TakeBroker(BrokerBytes(b)[..n]) == Err {
      BrokerRefusesPrefix(b, n);
    }
  }

  lemma AllReplicasDelimited(rs: seq<BrokerId>)
    ensures forall r :: r in rs ==> SelfDelimiting(ReplicaBytes, TakeU16, r)
  {
    forall r | r in rs ensures SelfDelimiting(ReplicaBytes, TakeU16, r) {
      ReplicaDelimited(r);
    }
  }

  lemma LiveReads(a: LiveAssignment, rest: seq<byte>)
    requires EncodableLive(a)
    ensures TakeLive(LiveBytes(a) + rest) == Ok((a, rest))
  {
    hide Many, All, TakeU16, TakeU64, Be;
    var s5 := Be(8, a.leaderEpoch) + rest;
    var s4 := All(a.replicas, ReplicaBytes) + s5;
    var s3 := Be(2, |a.replicas|) + s4;
    var s2 := Be(2, a.leader) + s3;
    var s1 := Be(2, a.partitionId) + s2;
    assert LiveBytes(a) + rest == Be(2, a.topicId) + s1;
    TakesInvertBe(a.topicId, s1);
    TakesInvertBe(a.partitionId, s2);
    TakesInvertBe(a.leader, s3);
    TakesInvertBe(|a.replicas|, s4);
    AllReplicasDelimited(a.replicas);
    ManyReadsAll(a.replicas, ReplicaBytes, TakeU16, s5);
    TakesInvertBe(a.leaderEpoch, rest);
  }

  lemma LiveRefusesPrefix(a: LiveAssignment, n: nat)
    requires EncodableLive(a) && n < |LiveBytes(a)|
    ensures TakeLive(LiveBytes(a)[..n]) == Err
  {
    hide Many, All, Be, FromBe, Radix;
    var t5 := Be(8, a.leaderEpoch);
    var t4 := All(a.replicas, ReplicaBytes) + t5;
    var t3 := Be(2, |a.replicas|) + t4;
    var t2 := Be(2, a.leader) + t3;
    var t1 := Be(2, a.partitionId) + t2;
    PrefixOfPair(Be(2, a.topicId), t1, n);
    if n >= 2 {
      TakesInvertBe(a.topicId, t1[..n - 2]);
      PrefixOfPair(Be(2, a.partitionId), t2, n - 2);
    }
    if n >= 4 {
      TakesInvertBe(a.partitionId, t2[..n - 4]);
      PrefixOfPair(Be(2, a.leader), t3, n - 4);
    }
    if n >= 6 {
      TakesInvertBe(a.leader, t3[..n - 6]);
      PrefixOfPair(Be(2, |a.replicas|), t4, n - 6);
    }
    if n >= 8 {
      TakesInvertBe(|a.replicas|, t4[..n - 8]);
      AllReplicasDelimited(a.replicas);
      var m := |All(a.replicas, ReplicaBytes)|;
      PrefixOfPair(All(a.replicas, ReplicaBytes), t5, n - 8);
      if n - 8 < m {
        ManyRefusesPrefix(a.replicas, ReplicaBytes, TakeU16, n - 8);
      } else {
        ManyReadsAll(a.replicas, ReplicaBytes, TakeU16, t5[..n - 8 - m]);
      }
    }
  }

  lemma LiveDelimited(a: LiveAssignment)
    requires EncodableLive(a)
    ensures SelfDelimiting(LiveBytes, TakeLive, a)
  {
    hide TakeLive, LiveBytes;
    forall rest ensures TakeLive(LiveBytes(a) + rest) == Ok((a, rest)) {
      LiveReads(a, rest);
    }
    forall n | 0 <= n < |LiveBytes(a)| ensures TakeLive(LiveBytes(a)[..n]) == Err {
      LiveRefusesPrefix(a, n);
    }
  }

  lemma ItemsDelimited(st: ClusterState)
    requires Encodable(st)
    ensures forall b :: b in st.brokers ==> SelfDelimiting(BrokerBytes, TakeBroker, b)
    ensures forall a :: a in st.assignments ==> SelfDelimiting(LiveBytes, TakeLive, a)
  {
    hide SelfDelimiting;
    forall b | b in st.brokers ensures SelfDelimiting(BrokerBytes, TakeBroker, b) {
      BrokerDelimited(b);
    }
    forall a | a in st.assignments ensures SelfDelimiting(LiveBytes, TakeLive, a) {
      LiveDelimited(a);
    }
  }

  // ---- The whole state

  lemma CommonReads(st: ClusterState, rest: seq<byte>)
    requires Encodable(st)
    ensures TakeCommon(CommonBytes(st) + rest) == Ok((st.(lastSeen := map[]), rest))
  {
    hide Many, All, TakeU16, Be;
    var s4 := All(st.assignments, LiveBytes) + rest;
    var s3 := Be(2, |st.assignments|) + s4;
    var s2 := All(st.brokers, BrokerBytes) + s3;
    var s1 := Be(2, |st.brokers|) + s2;
    assert CommonBytes(st) + rest == Be(2, st.minInsyncReplicas) + s1;
    ItemsDelimited(st);
    TakesInvertBe(st.minInsyncReplicas, s1);
    TakesInvertBe(|st.brokers|, s2);
    ManyReadsAll(st.brokers, BrokerBytes, TakeBroker, s3);
    TakesInvertBe(|st.assignments|, s4);
    ManyReadsAll(st.assignments, LiveBytes, TakeLive, rest);
  }

  lemma CommonRefusesPrefix(st: ClusterState, n: nat)
    requires Encodable(st) && n < |CommonBytes(st)|
    ensures TakeCommon(CommonBytes(st)[..n]) == Err
  {
    hide Many, All, Be, FromBe, Radix;
    var t4 := All(st.assignments, LiveBytes);
    var t3 := Be(2, |st.assignments|) + t4;
    var bs := All(st.brokers, BrokerBytes);
    var t2 := bs + t3;
    var t1 := Be(2, |st.brokers|) + t2;
    ItemsDelimited(st);
    PrefixOfPair(Be(2, st.minInsyncReplicas), t1, n);
    if n >= 2 {
      TakesInvertBe(st.minInsyncReplicas, t1[..n - 2]);
      PrefixOfPair(Be(2, |st.brokers|), t2, n - 2);
    }
    if n >= 4 {
      TakesInvertBe(|st.brokers|, t2[..n - 4]);
      PrefixOfPair(bs, t3, n - 4);
      if n - 4 < |bs| {
        ManyRefusesPrefix(st.brokers, BrokerBytes, TakeBroker, n - 4);
      } else {
        var m := n - 4 - |bs|;
        ManyReadsAll(st.brokers, BrokerBytes, TakeBroker, t3[..m]);
        PrefixOfPair(Be(2, |st.assignments|), t4, m);
        if m >= 2 {
          TakesInvertBe(|st.assignments|, t4[..m - 2]);
          ManyRefusesPrefix(st.assignments, LiveBytes, TakeLive, m - 2);
        }
      }
    }
  }

  lemma SeenReadsBack(es: seq<(BrokerId, u64)>)
    ensures forall e :: e in es ==> ReadsBack(SeenBytes, TakeSeen, e)
  {
    forall e, rest | e in es ensures TakeSeen(SeenBytes(e) + rest) == Ok((e, rest)) {
      assert SeenBytes(e) + rest == Be(2, e.0) + (Be(8, e.1) + rest);
      TakesInvertBe(e.0, Be(8, e.1) + rest);
      TakesInvertBe(e.1, rest);
    }
  }

  /** Whatever the iteration order, the entries rebuild the table. */
  lemma {:induction false} TableOfEntries(lastSeen: map<BrokerId, u64>, order: seq<BrokerId>)
    requires forall i :: 0 <= i < |order| ==> order[i] in lastSeen
    ensures var m := Table(Entries(lastSeen, order));
            forall id :: (id in m <==> id in order) && (id in m ==> m[id] == lastSeen[id])
    decreases |order|
  {
    if order != [] {
      var n := |order| - 1;
      TableOfEntries(lastSeen, order[..n]);
      EntriesInit(lastSeen, order);
      hide Entries;
      assert order == order[..n] + [order[n]];
    }
  }

  lemma EntriesInit(lastSeen: map<BrokerId, u64>, order: seq<BrokerId>)
    requires order != [] && forall i :: 0 <= i < |order| ==> order[i] in lastSeen
    ensures var n, es := |order| - 1, Entries(lastSeen, order);
            |es| == n + 1 && es[..n] == Entries(lastSeen, order[..n]) && es[n] == (order[n], lastSeen[order[n]])
  {
  }

  function Members(order: seq<BrokerId>): set<BrokerId> {
    set id | id in order
  }

  lemma MembersSnoc(order: seq<BrokerId>, id: BrokerId)
    requires id !in order
    ensures |Members(order + [id])| == |Members(order)| + 1
  {
    assert Members(order + [id]) == Members(order) + {id};
  }

  lemma {:induction false} DistinctCount(order: seq<BrokerId>, n: nat)
    requires n <= |order| && forall i, j :: 0 <= i < j < |order| ==> order[i] != order[j]
    ensures |Members(order[..n])| == n
  {
    if n == 0 {
      assert Members(order[..n]) == {};
    } else {
      hide Members;
      DistinctCount(order, n - 1);
      MembersSnoc(order[..n - 1], order[n - 1]);
      assert order[..n] == order[..n - 1] + [order[n - 1]];
    }
  }

  lemma EnumerationLength(order: seq<BrokerId>, lastSeen: map<BrokerId, u64>)
    requires Enumerates(order, lastSeen)
    ensures |order| == |lastSeen|
  {
    DistinctCount(order, |order|);
    assert order[..|order|] == order;
    assert lastSeen.Keys == Members(order);
  }

  lemma FileReads(st: ClusterState, order: seq<BrokerId>)
    requires Encodable(st) && Enumerates(order, st.lastSeen) && |order| <= U16_MAX
    ensures ParseFile(StateBytes(st, order)) == Ok(st)
  {
    hide TakeCommon, CommonBytes, TakeU16, Many, All, Be, Entries, Table;
    var es := Entries(st.lastSeen, order);
    var tail := All(es, SeenBytes);
    var s1 := Be(2, |order|) + tail;
    assert StateBytes(st, order)[|MAGIC|..] == CommonBytes(st) + s1;
    CommonReads(st, s1);
    TakesInvertBe(|order|, tail);
    SeenReadsBack(es);
    assert tail + [] == tail;
    assert |es| == |order| by { EntriesLength(st.lastSeen, order); }
    ManyReadsAll(es, SeenBytes, TakeSeen, []);
    TableOfEntries(st.lastSeen, order);
    assert Table(es) == st.lastSeen;
    assert st.(lastSeen := map[]).(lastSeen := st.lastSeen) == st;
  }

  lemma EntriesLength(lastSeen: map<BrokerId, u64>, order: seq<BrokerId>)
    requires forall i :: 0 <= i < |order| ==> order[i] in lastSeen
    ensures |Entries(lastSeen, order)| == |order|
  {
  }

  /** Anything that parses is within the limits of the format. */
  lemma ParsedIsEncodable(s: seq<byte>)
    ensures ParseState(s).Ok? ==> Encodable(ParseState(s).value) && |ParseState(s).value.lastSeen| <= U16_MAX
  {
    hide Utf8, Many;
    var common := TakeCommon(s);
    if common.Ok? {
      var s2 := TakeU16(s).value.1;
      var brokerCount := TakeU16(s2).value;
      ManySatisfies(brokerCount.0, TakeBroker, brokerCount.1, EncodableBroker);
      var s4 := Many(brokerCount.0, TakeBroker, brokerCount.1).value.1;
      var assignmentCount := TakeU16(s4).value;
      ManySatisfies(assignmentCount.0, TakeLive, assignmentCount.1, EncodableLive);
    }
  }

  /** The stored file survives encode then decode, for every iteration order of the liveness
      table, exactly when nothing is cut or wrapped. */
  lemma FileRoundTrip(st: ClusterState, order: seq<BrokerId>)
    requires Enumerates(order, st.lastSeen)
    ensures ParseFile(StateBytes(st, order)) == Ok(st) <==> Encodable(st) && |st.lastSeen| <= U16_MAX
  {
    EnumerationLength(order, st.lastSeen);
    if Encodable(st) && |st.lastSeen| <= U16_MAX {
      FileReads(st, order);
    } else {
      ParsedIsEncodable(StateBytes(st, order)[|MAGIC|..]);
    }
  }

  // ---- The GET_CLUSTER response and the static configuration

  function AssignmentBytes(a: PartitionAssignment): seq<byte> {
    Be(2, a.topicId) + (Be(2, a.partitionId) + (Be(2, a.leader)
    + (Be(2, |a.replicas|) + All(a.replicas, ReplicaBytes))))
  }

  function ConfigBytes(cfg: ClusterConfig): seq<byte> {
    Be(2, cfg.minInsyncReplicas)
    + (Be(2, |cfg.brokers|) + (All(cfg.brokers, BrokerBytes)
    + (Be(2, |cfg.assignments|) + All(cfg.assignments, AssignmentBytes))))
  }

  /** The static decoder slices out the host without checking that it is there. */
  function TakeNode(s: seq<byte>): Outcome<(BrokerNode, seq<byte>)> {
    var (id, s1) :- TakeU16(s);
    var (len, s2) :- TakeU8(s1);
    if |s2| < len then Panic
    else if !Utf8(s2[..len]) then Err
    else
      var (port, s3) :- TakeU16(s2[len..]);
      Ok((BrokerNode(id, s2[..len], port), s3))
  }

  function TakeAssignment(s: seq<byte>): Outcome<(PartitionAssignment, seq<byte>)> {
    var (topicId, s1) :- TakeU16(s);
    var (partitionId, s2) :- TakeU16(s1);
    var (leader, s3) :- TakeU16(s2);
    var (count, s4) :- TakeU16(s3);
    var (replicas, s5) :- Many(count, TakeU16, s4);
    Ok((PartitionAssignment(topicId, partitionId, leader, replicas), s5))
  }

  function ParseConfig(s: seq<byte>): Outcome<ClusterConfig> {
    var (minIsr, s1) :- TakeU16(s);
    var (brokerCount, s2) :- TakeU16(s1);
    var (brokers, s3) :- Many(brokerCount, TakeNode, s2);
    var (assignmentCount, s4) :- TakeU16(s3);
    var (assignments, _) :- Many(assignmentCount, TakeAssignment, s4);
    Ok(ClusterConfig(minIsr, brokers, assignments))
  }

  function ParseInfo(s: seq<byte>, now: u64): Outcome<ClusterState> {
    if s == [] then Err
    else if s[0] == 1 then
      var cfg :- ParseConfig(s[1..]);
      Ok(FromSeed(cfg, now))
    else if s[0] == 2 then ParseState(s[1..])
    else Err
  }

  /** A version 1 response is the static form and boots like a seed, every broker as just heard from; a
      version 2 response is the rest of its bytes; any other version, or nothing, is an error. */
  lemma InfoVersions(version: byte, s: seq<byte>, now: u64)
    ensures ParseInfo([], now) == Err
    ensures var r := ParseInfo([version] + s, now);
            if version == 1 then
              var c := ParseConfig(s);
              && (r.Ok? <==> c.Ok?) && (r.Panic? <==> c.Panic?)
              && (r.Ok? ==>
                    && ToConfig(r.value) == c.value
                    && (forall id :: id in r.value.lastSeen <==> exists b :: b in c.value.brokers && b.id == id)
                    && (forall id :: id in r.value.lastSeen ==> r.value.lastSeen[id] == now)
                    && forall a :: a in r.value.assignments ==> a.leaderEpoch == 1)
            else if version == 2 then r == ParseState(s)
            else r == Err
  {
    hide ParseConfig, ParseState;
    assert ([version] + s)[1..] == s;
    var c := ParseConfig(s);
    if version == 1 && c.Ok? {
      SeedState(c.value, now);
      SeedProjectsBack(c.value, now);
    }
  }

  /** A GET_CLUSTER response carries everything but liveness, exactly when nothing is cut. */
  lemma InfoRoundTrip(st: ClusterState, now: u64)
    ensures ParseInfo(InfoBytes(st), now) == Ok(st.(lastSeen := map[])) <==> Encodable(st)
  {
    hide TakeCommon, CommonBytes;
    assert InfoBytes(st)[1..] == CommonBytes(st) + [];
    if Encodable(st) {
      CommonReads(st, []);
    } else {
      ParsedIsEncodable(CommonBytes(st) + []);
    }
  }

  /** A response cut short is an error, never a different state. */
  lemma InfoRefusesPrefix(st: ClusterState, n: nat, now: u64)
    requires Encodable(st) && n < |InfoBytes(st)|
    ensures ParseInfo(InfoBytes(st)[..n], now) == Err
  {
    if n > 0 {
      assert InfoBytes(st)[..n][1..] == CommonBytes(st)[..n - 1];
      CommonRefusesPrefix(st, n - 1);
    }
  }

  lemma TakesNeverPanic(s: seq<byte>)
    ensures !TakeBroker(s).Panic? && !TakeLive(s).Panic? && !TakeSeen(s).Panic?
  {
    forall n: nat, t ensures !Many(n, TakeU16, t).Panic? {
      ManyNeverPanics(n, TakeU16, t);
    }
  }

  lemma StateNeverPanics(s: seq<byte>)
    ensures !ParseState(s).Panic?
  {
    hide TakeBroker, TakeLive, TakeSeen, Many;
    forall n: nat, t: seq<byte>
      ensures !Many(n, TakeBroker, t).Panic? && !Many(n, TakeLive, t).Panic? && !Many(n, TakeSeen, t).Panic?
    {
      forall u ensures !TakeBroker(u).Panic? && !TakeLive(u).Panic? && !TakeSeen(u).Panic? {
        TakesNeverPanic(u);
      }
      ManyNeverPanics(n, TakeBroker, t);
      ManyNeverPanics(n, TakeLive, t);
      ManyNeverPanics(n, TakeSeen, t);
    }
  }

  /** The version 1 decoder does: whenever a host is declared longer than what is left. */
  lemma NodePanicsExactly(s: seq<byte>)
    ensures TakeNode(s).Panic? <==> |s| >= 3 && |s| - 3 < s[2]
    ensures TakeNode(s).Ok? <==> |s| >= 5 && s[2] <= |s| - 5 && Utf8(s[3..3 + s[2]])
    ensures TakeNode(s).Ok? ==> TakeNode(s).value.1 == s[5 + s[2]..]
  {
    hide Utf8;
    if |s| >= 3 && s[2] <= |s| - 3 {
      assert s[2..][1..][..s[2]] == s[3..3 + s[2]];
    }
  }

  /** One of `n` broker entries declares a host longer than what is left, and those before it are
      complete, with hosts that are text. */
  predicate HostOverruns(n: nat, s: seq<byte>) {
    && n > 0 && |s| >= 3
    && (|s| - 3 < s[2] || (s[2] <= |s| - 5 && Utf8(s[3..3 + s[2]]) && HostOverruns(n - 1, s[5 + s[2]..])))
  }

  lemma {:induction false} NodesPanicExactly(n: nat, s: seq<byte>)
    ensures Many(n, TakeNode, s).Panic? <==> HostOverruns(n, s)
    decreases n
  {
    hide TakeNode;
    NodePanicsExactly(s);
    if n > 0 && TakeNode(s).Ok? {
      NodesPanicExactly(n - 1, TakeNode(s).value.1);
    }
  }

  lemma AssignmentsNeverPanic(n: nat, s: seq<byte>)
    ensures !Many(n, TakeAssignment, s).Panic?
  {
    forall u ensures !TakeAssignment(u).Panic? {
      forall k: nat, t ensures !Many(k, TakeU16, t).Panic? {
        ManyNeverPanics(k, TakeU16, t);
      }
    }
    ManyNeverPanics(n, TakeAssignment, s);
  }

  predicate ConfigOverruns(s: seq<byte>) {
    |s| >= 4 && HostOverruns(FromBe(s[2..4]), s[4..])
  }

  lemma ConfigPanicsExactly(s: seq<byte>)
    ensures ParseConfig(s).Panic? <==> ConfigOverruns(s)
  {
    hide TakeNode, TakeAssignment, Many, HostOverruns;
    if |s| >= 4 {
      assert s[2..][0..2] == s[2..4] && s[2..][2..] == s[4..];
      var n := FromBe(s[2..4]);
      NodesPanicExactly(n, s[4..]);
      forall k: nat, t ensures !Many(k, TakeAssignment, t).Panic? {
        AssignmentsNeverPanic(k, t);
      }
    }
  }

  /** Arbitrary bytes never make the file decoder or the version 2 decoder read out of bounds; they
      make the version 1 decoder do so exactly when a host overruns. */
  lemma DecodersPanicExactly(s: seq<byte>, now: u64)
    ensures !ParseFile(s).Panic?
    ensures ParseInfo(s, now).Panic? <==> s != [] && s[0] == 1 && ConfigOverruns(s[1..])
  {
    hide ParseConfig, ConfigOverruns, ParseState;
    if MAGIC <= s {
      StateNeverPanics(s[|MAGIC|..]);
    }
    if s != [] {
      StateNeverPanics(s[1..]);
      ConfigPanicsExactly(s[1..]);
    }
  }

  lemma VersionOnePanics(now: u64)
    ensures ParseInfo([1, 0, 1, 0, 1, 0, 7, 9], now) == Panic
  {
    var s := [0, 1, 0, 1, 0, 7, 9];
    var node := [0, 7, 9];
    assert FromBe([0, 1]) == 1 by { assert [0, 1][..1] == [0]; assert FromBe([0]) == 0; }
    assert s[0..2] == [0, 1] && s[2..] == [0, 1, 0, 7, 9];
    assert s[2..][0..2] == [0, 1] && s[2..][2..] == node;
    NodePanicsExactly(node);
    assert Many(1, TakeNode, node) == Panic;
    assert [1, 0, 1, 0, 1, 0, 7, 9][1..] == s;
  }

  predicate EncodableConfig(cfg: ClusterConfig) {
    && |cfg.brokers| <= U16_MAX && (forall b :: b in cfg.brokers ==> EncodableBroker(b))
    && |cfg.assignments| <= U16_MAX && (forall a :: a in cfg.assignments ==> EncodableAssignment(a))
  }

  lemma AssignmentReads(a: PartitionAssignment, rest: seq<byte>)
    requires |a.replicas| <= U16_MAX
    ensures TakeAssignment(AssignmentBytes(a) + rest) == Ok((a, rest))
  {
    hide Many, All, TakeU16, Be;
    var s4 := All(a.replicas, ReplicaBytes) + rest;
    var s3 := Be(2, |a.replicas|) + s4;
    var s2 := Be(2, a.leader) + s3;
    var s1 := Be(2, a.partitionId) + s2;
    assert AssignmentBytes(a) + rest == Be(2, a.topicId) + s1;
    TakesInvertBe(a.topicId, s1);
    TakesInvertBe(a.partitionId, s2);
    TakesInvertBe(a.leader, s3);
    TakesInvertBe(|a.replicas|, s4);
    AllReplicasDelimited(a.replicas);
    ManyReadsAll(a.replicas, ReplicaBytes, TakeU16, rest);
  }

  lemma ConfigItemsReadBack(cfg: ClusterConfig)
    requires EncodableConfig(cfg)
    ensures forall b :: b in cfg.brokers ==> ReadsBack(BrokerBytes, TakeNode, b)
    ensures forall a :: a in cfg.assignments ==> ReadsBack(AssignmentBytes, TakeAssignment, a)
  {
    hide AssignmentBytes, TakeAssignment, TakeU16, TakeU8, BrokerBytes;
    forall b, rest | b in cfg.brokers ensures TakeNode(BrokerBytes(b) + rest) == Ok((b, rest)) {
      BrokerReads(b, rest);
    }
    forall a, rest | a in cfg.assignments ensures TakeAssignment(AssignmentBytes(a) + rest) == Ok((a, rest)) {
      AssignmentReads(a, rest);
    }
  }

  lemma ConfigReads(cfg: ClusterConfig)
    requires EncodableConfig(cfg)
    ensures ParseConfig(ConfigBytes(cfg)) == Ok(cfg)
  {
    hide Many, All, TakeU16, Be, TakeNode, TakeAssignment;
    var s4 := All(cfg.assignments, AssignmentBytes);
    var s3 := Be(2, |cfg.assignments|) + s4;
    var s2 := All(cfg.brokers, BrokerBytes) + s3;
    var s1 := Be(2, |cfg.brokers|) + s2;
    ConfigItemsReadBack(cfg);
    TakesInvertBe(cfg.minInsyncReplicas, s1);
    TakesInvertBe(|cfg.brokers|, s2);
    ManyReadsAll(cfg.brokers, BrokerBytes, TakeNode, s3);
    TakesInvertBe(|cfg.assignments|, s4);
    ManyReadsAll(cfg.assignments, AssignmentBytes, TakeAssignment, []);
    assert s4 + [] == s4;
  }

  predicate EncodableAssignment(a: PartitionAssignment) {
    |a.replicas| <= U16_MAX
  }

  lemma ParsedConfigIsEncodable(s: seq<byte>)
    ensures ParseConfig(s).Ok? ==> EncodableConfig(ParseConfig(s).value)
  {
    if ParseConfig(s).Ok? {
      var s2 := TakeU16(s).value.1;
      var brokerCount := TakeU16(s2).value;
      ManySatisfies(brokerCount.0, TakeNode, brokerCount.1, EncodableBroker);
      var s4 := Many(brokerCount.0, TakeNode, brokerCount.1).value.1;
      var assignmentCount := TakeU16(s4).value;
      ManySatisfies(assignmentCount.0, TakeAssignment, assignmentCount.1, EncodableAssignment);
    }
  }

  /** The static configuration survives encode then decode exactly when nothing is cut or wrapped. */
  lemma ConfigRoundTrip(cfg: ClusterConfig)
    ensures ParseConfig(ConfigBytes(cfg)) == Ok(cfg) <==> EncodableConfig(cfg)
  {
    hide ParseConfig, ConfigBytes;
    if EncodableConfig(cfg) {
      ConfigReads(cfg);
    } else {
      ParsedConfigIsEncodable(ConfigBytes(cfg));
    }
  }
}
