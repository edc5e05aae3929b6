/** The byte layouts of messages, frames and cluster metadata as numbers at positions, so that a reader
    of another make finds every field. */
module Layouts {
  import opened Bytes
  import opened Codecs
  import opened Cluster
  import opened ClusterCodec
  import Texts
  import opened Messages
  import opened Frames

  /** Five pieces after a type byte, each found at its place. */
  lemma Pieces(t: byte, a: seq<byte>, b: seq<byte>, c: seq<byte>, d: seq<byte>, rest: seq<byte>)
    ensures var e := [t] + (a + b + c + d + rest);
            var i, j, k, l := 1 + |a|, 1 + |a| + |b|, 1 + |a| + |b| + |c|, 1 + |a| + |b| + |c| + |d|;
            && e[1..i] == a && e[i..j] == b && e[j..k] == c && e[k..l] == d && e[l..] == rest
  {
  }

  lemma ProduceLayout(t: u16, p: u16, payload: seq<byte>)
    ensures EncodeMessage(Produce(t, p, payload)).Ok?
    ensures var e := EncodeMessage(Produce(t, p, payload)).value;
            && |e| == 5 + |payload| && e[0] == 7 && U16At(e, 1) == t && U16At(e, 3) == p && e[5..] == payload
  {
    hide Be, FromBe, Radix;
    WidthsRoundTrip();
    Pieces(7, Be(2, t), Be(2, p), payload, [], []);
    assert PayloadOf(Produce(t, p, payload)) == Be(2, t) + Be(2, p) + payload + [] + [];
  }

  lemma FetchLayout(t: u16, p: u16, offset: u64, maxBytes: u32, maxWaitMs: u32)
    ensures EncodeMessage(Fetch(t, p, offset, maxBytes, maxWaitMs)).Ok?
    ensures var e := EncodeMessage(Fetch(t, p, offset, maxBytes, maxWaitMs)).value;
            && |e| == 21 && e[0] == 5 && U16At(e, 1) == t && U16At(e, 3) == p && U64At(e, 5) == offset
            && U32At(e, 13) == maxBytes && U32At(e, 17) == maxWaitMs
  {
    hide Be, FromBe, Radix;
    WidthsRoundTrip();
    Pieces(5, Be(2, t), Be(2, p), Be(8, offset), Be(4, maxBytes), Be(4, maxWaitMs));
    var e := EncodeMessage(Fetch(t, p, offset, maxBytes, maxWaitMs)).value;
    assert e[1..] == Be(2, t) + Be(2, p) + Be(8, offset) + Be(4, maxBytes) + Be(4, maxWaitMs);
    assert e[17..21] == e[17..];
  }

  lemma IdempotentProduceLayout(t: u16, p: u16, producerId: u64, sequence: u64, payload: seq<byte>)
    ensures EncodeMessage(IdempotentProduce(t, p, producerId, sequence, payload)).Ok?
    ensures var e := EncodeMessage(IdempotentProduce(t, p, producerId, sequence, payload)).value;
            && |e| == 21 + |payload| && e[0] == 14 && U16At(e, 1) == t && U16At(e, 3) == p
            && U64At(e, 5) == producerId && U64At(e, 13) == sequence && e[21..] == payload
  {
    hide Be, FromBe, Radix;
    WidthsRoundTrip();
    Pieces(14, Be(2, t), Be(2, p), Be(8, producerId), Be(8, sequence), payload);
    assert PayloadOf(IdempotentProduce(t, p, producerId, sequence, payload))
        == Be(2, t) + Be(2, p) + Be(8, producerId) + Be(8, sequence) + payload;
  }

  lemma ReplicateLayout(t: u16, p: u16, offset: u64, payload: seq<byte>)
    requires |payload| <= U16_MAX
    ensures EncodeMessage(Replicate(t, p, offset, payload)).Ok?
    ensures var e := EncodeMessage(Replicate(t, p, offset, payload)).value;
            && |e| == 15 + |payload| && e[0] == 12 && U16At(e, 1) == t && U16At(e, 3) == p && U64At(e, 5) == offset
            && U16At(e, 13) == |payload| && e[15..] == payload
  {
    hide Be, FromBe, Radix;
    WidthsRoundTrip();
    Pieces(12, Be(2, t), Be(2, p), Be(8, offset), Be(2, |payload|), payload);
    assert PayloadOf(Replicate(t, p, offset, payload))
        == Be(2, t) + Be(2, p) + Be(8, offset) + Be(2, |payload|) + payload;
  }

  lemma CommitOffsetLayout(g: u16, t: u16, p: u16, offset: u64)
    ensures EncodeMessage(CommitOffset(g, t, p, offset)).Ok?
    ensures var e := EncodeMessage(CommitOffset(g, t, p, offset)).value;
            && |e| == 15 && e[0] == 6 && U16At(e, 1) == g && U16At(e, 3) == t && U16At(e, 5) == p
            && U64At(e, 7) == offset
  {
    hide Be, FromBe, Radix;
    WidthsRoundTrip();
    Pieces(6, Be(2, g), Be(2, t), Be(2, p), Be(8, offset), []);
    assert PayloadOf(CommitOffset(g, t, p, offset)) == Be(2, g) + Be(2, t) + Be(2, p) + Be(8, offset) + [];
  }

  lemma JoinGroupLayout(g: u16, t: u16, memberId: u64)
    ensures EncodeMessage(JoinGroup(g, t, memberId)).Ok?
    ensures var e := EncodeMessage(JoinGroup(g, t, memberId)).value;
            && |e| == 13 && e[0] == 16 && U16At(e, 1) == g && U16At(e, 3) == t && U64At(e, 5) == memberId
  {
    hide Be, FromBe, Radix;
    WidthsRoundTrip();
    Pieces(16, Be(2, g), Be(2, t), Be(8, memberId), [], []);
    assert PayloadOf(JoinGroup(g, t, memberId)) == Be(2, g) + Be(2, t) + Be(8, memberId) + [] + [];
  }

  lemma GroupHeartbeatLayout(g: u16, memberId: u64, generation: u32)
    ensures EncodeMessage(GroupHeartbeat(g, memberId, generation)).Ok?
    ensures var e := EncodeMessage(GroupHeartbeat(g, memberId, generation)).value;
            && |e| == 15 && e[0] == 17 && U16At(e, 1) == g && U64At(e, 3) == memberId && U32At(e, 11) == generation
  {
    hide Be, FromBe, Radix;
    WidthsRoundTrip();
    Pieces(17, Be(2, g), Be(8, memberId), Be(4, generation), [], []);
    assert PayloadOf(GroupHeartbeat(g, memberId, generation))
        == Be(2, g) + Be(8, memberId) + Be(4, generation) + [] + [];
  }

  lemma CreateTopicLayout(t: u16, count: u16, maxRecords: u32)
    ensures EncodeMessage(CreateTopic(t, count, maxRecords)).Ok?
    ensures var e := EncodeMessage(CreateTopic(t, count, maxRecords)).value;
            && |e| == 9 && e[0] == 8 && U16At(e, 1) == t && U16At(e, 3) == count && U32At(e, 5) == maxRecords
  {
    hide Be, FromBe, Radix;
    WidthsRoundTrip();
    Pieces(8, Be(2, t), Be(2, count), Be(4, maxRecords), [], []);
    assert PayloadOf(CreateTopic(t, count, maxRecords)) == Be(2, t) + Be(2, count) + Be(4, maxRecords) + [] + [];
  }

  lemma ConsumerRegisterLayout(port: u16, t: u16, g: u16)
    ensures EncodeMessage(ConsumerRegister(port, t, g)).Ok?
    ensures var e := EncodeMessage(ConsumerRegister(port, t, g)).value;
            && |e| == 7 && e[0] == 3 && U16At(e, 1) == port && U16At(e, 3) == t && U16At(e, 5) == g
  {
    hide Be, FromBe, Radix;
    WidthsRoundTrip();
    Pieces(3, Be(2, port), Be(2, t), Be(2, g), [], []);
    assert PayloadOf(ConsumerRegister(port, t, g)) == Be(2, port) + Be(2, t) + Be(2, g) + [] + [];
  }

  lemma HandshakeLayout(version: u16, token: seq<byte>)
    requires |token| <= U16_MAX
    ensures EncodeMessage(Handshake(version, token)).Ok?
    ensures var e := EncodeMessage(Handshake(version, token)).value;
            && |e| == 5 + |token| && e[0] == 18 && U16At(e, 1) == version && U16At(e, 3) == |token| && e[5..] == token
  {
    hide Be, FromBe, Radix;
    WidthsRoundTrip();
    Pieces(18, Be(2, version), Be(2, |token|), token, [], []);
    assert PayloadOf(Handshake(version, token)) == Be(2, version) + Be(2, |token|) + token + [] + [];
  }

  /** The other requests are a type byte and at most two numbers or plain bytes. */
  lemma ShortRequestLayout(m: Message)
    requires || m.ProducerRegister? || m.GetLag? || m.BrokerHeartbeat? || m.DescribeTopic?
             || m.Echo? || m.Pcm? || m.ListTopics? || m.GetCluster?
    ensures EncodeMessage(m).Ok?
    ensures var e := EncodeMessage(m).value;
            match m
            case ProducerRegister(port, t) => |e| == 5 && e[0] == 2 && U16At(e, 1) == port && U16At(e, 3) == t
            case GetLag(g, t) => |e| == 5 && e[0] == 11 && U16At(e, 1) == g && U16At(e, 3) == t
            case BrokerHeartbeat(brokerId) => |e| == 3 && e[0] == 15 && U16At(e, 1) == brokerId
            case DescribeTopic(t) => |e| == 3 && e[0] == 9 && U16At(e, 1) == t
            case Echo(text) => e == [1] + text
            case Pcm(bytes) => e == [4] + bytes
            case ListTopics => e == [10]
            case GetCluster => e == [13]
            case _ => true
  {
    hide Be, FromBe, Radix;
    WidthsRoundTrip();
    var e := EncodeMessage(m).value;
    match m
    case ProducerRegister(port, t) => assert e[1..3] == Be(2, port) && e[3..5] == Be(2, t);
    case GetLag(g, t) => assert e[1..3] == Be(2, g) && e[3..5] == Be(2, t);
    case BrokerHeartbeat(brokerId) => assert e[1..3] == Be(2, brokerId);
    case DescribeTopic(t) => assert e[1..3] == Be(2, t);
    case _ =>
  }

  /** The type byte of each response, and its fields. */
  lemma ResponseLayout(m: Message)
    requires TypeByte(m) > 100
    ensures EncodeMessage(m).Ok?
    ensures var e := EncodeMessage(m).value;
            match m
            case REcho(text) => e == [101] + text
            case RProducerRegister(code) => e == [102, code]
            case RConsumerRegister(code) => e == [103, code]
            case RPcm(code) => e == [104, code]
            case RFetch(bytes) => e == [105] + bytes
            case RCommitOffset(code) => e == [106, code]
            case RProduce(offset) => |e| == 9 && e[0] == 107 && U64At(e, 1) == offset
            case RCreateTopic(code) => e == [108, code]
            case RDescribeTopic(bytes) => e == [109] + bytes
            case RListTopics(bytes) => e == [110] + bytes
            case RGetLag(bytes) => e == [111] + bytes
            case RReplicate(code) => e == [112, code]
            case RGetCluster(bytes) => e == [113] + bytes
            case RNotLeader(leader) => |e| == 3 && e[0] == 114 && U16At(e, 1) == leader
            case RBrokerHeartbeat(code) => e == [115, code]
            case RJoinGroup(bytes) => e == [116] + bytes
            case RGroupHeartbeat(code, flag) => e == [117, code, flag]
            case RHandshake(code, version) => |e| == 4 && e[0] == 118 && e[1] == code && U16At(e, 2) == version
            case RError(code, text) => e == [119, code] + text
            case _ => false
  {
    hide Be, FromBe, Radix;
    WidthsRoundTrip();
    var e := EncodeMessage(m).value;
    match m
    case RProduce(offset) => assert e[1..9] == Be(8, offset);
    case RNotLeader(leader) => assert e[1..3] == Be(2, leader);
    case RHandshake(code, version) => assert e[2..4] == Be(2, version);
    case _ =>
  }

  /** A version 1 frame is the length and the message; a version 2 frame is the marker 255, 2, the length
      of what follows, 2, the correlation id and the message. */
  lemma FrameLayout(f: Frame)
    requires EncodeMessage(f.message).Ok? && |EncodeMessage(f.message).value| <= 65530
    ensures WriteFrame(f, V1).Ok? && WriteFrame(f, V2).Ok?
    ensures var e, v1, v2 := EncodeMessage(f.message).value, WriteFrame(f, V1).value, WriteFrame(f, V2).value;
            && |v1| == 1 + |e| && v1[0] == |e| % 256 && v1[1..] == e
            && |v2| == 9 + |e| && v2[0] == 255 && v2[1] == 2 && U16At(v2, 2) == 5 + |e| && v2[4] == 2
            && U32At(v2, 5) == f.correlationId && v2[9..] == e
  {
    hide EncodeMessage, Be, FromBe, Radix;
    WidthsRoundTrip();
    var e, v2 := EncodeMessage(f.message).value, WriteFrame(f, V2).value;
    assert v2[2..4] == Be(2, 5 + |e|) && v2[5..9] == Be(4, f.correlationId) && v2[9..] == e;
  }

  /** A broker entry: id, host length, host, port. */
  lemma BrokerLayout(b: BrokerNode)
    requires EncodableBroker(b)
    ensures var s := BrokerBytes(b);
            && |s| == 5 + |b.host| && U16At(s, 0) == b.id && s[2] == |b.host| && s[3..3 + |b.host|] == b.host
            && U16At(s, 3 + |b.host|) == b.port
  {
    hide Be, FromBe, Radix, Texts.Utf8;
    WidthsRoundTrip();
    var s, n := BrokerBytes(b), |b.host|;
    assert b.host[..n] == b.host;
    assert s[0..2] == Be(2, b.id) && s[3..3 + n] == b.host && s[3 + n..5 + n] == Be(2, b.port);
  }

  lemma {:induction false} ReplicaAt(rs: seq<BrokerId>, i: nat)
    requires i < |rs|
    ensures |All(rs, ReplicaBytes)| == 2 * |rs| && All(rs, ReplicaBytes)[2 * i..2 * i + 2] == Be(2, rs[i])
    decreases |rs|
  {
    hide Be;
    var all := All(rs, ReplicaBytes);
    if i > 0 {
      ReplicaAt(rs[1..], i - 1);
      assert all[2 * i..2 * i + 2] == All(rs[1..], ReplicaBytes)[2 * (i - 1)..2 * (i - 1) + 2];
    } else if |rs| > 1 {
      ReplicaAt(rs[1..], 0);
    }
  }

  /** An assignment entry: topic, partition, leader, replica count, replicas, epoch. */
  lemma LiveLayout(a: LiveAssignment, i: nat)
    requires i < |a.replicas| <= U16_MAX
    ensures var s, n := LiveBytes(a), 2 * |a.replicas|;
            && |s| == 16 + n && U16At(s, 0) == a.topicId && U16At(s, 2) == a.partitionId && U16At(s, 4) == a.leader
            && U16At(s, 6) == |a.replicas| && U16At(s, 8 + 2 * i) == a.replicas[i] && U64At(s, 8 + n) == a.leaderEpoch
  {
    hide Be, FromBe, Radix, All;
    WidthsRoundTrip();
    ReplicaAt(a.replicas, i);
    var s, n, all := LiveBytes(a), 2 * |a.replicas|, All(a.replicas, ReplicaBytes);
    assert s[0..2] == Be(2, a.topicId) && s[2..4] == Be(2, a.partitionId) && s[4..6] == Be(2, a.leader);
    assert s[6..8] == Be(2, |a.replicas|) && s[8..8 + n] == all && s[8 + n..16 + n] == Be(8, a.leaderEpoch);
    assert s[8 + 2 * i..10 + 2 * i] == all[2 * i..2 * i + 2];
  }

  /** A state file begins with the magic, the replication minimum and the broker count; a response with its
      version in place of the magic. */
  lemma StateLayout(st: ClusterState, order: seq<BrokerId>)
    requires Enumerates(order, st.lastSeen) && |st.brokers| <= U16_MAX
    ensures var s := StateBytes(st, order);
            && |s| >= 10 && s[..6] == [0x44, 0x4D, 0x51, 0x43, 0x53, 1]
            && U16At(s, 6) == st.minInsyncReplicas && U16At(s, 8) == |st.brokers|
    ensures var s := InfoBytes(st);
            |s| >= 5 && s[0] == 2 && U16At(s, 1) == st.minInsyncReplicas && U16At(s, 3) == |st.brokers|
  {
    hide Be, FromBe, Radix, All, Entries;
    WidthsRoundTrip();
    var s, t := StateBytes(st, order), InfoBytes(st);
    assert s[6..8] == Be(2, st.minInsyncReplicas) && s[8..10] == Be(2, |st.brokers|);
    assert t[1..3] == Be(2, st.minInsyncReplicas) && t[3..5] == Be(2, |st.brokers|);
  }
}
