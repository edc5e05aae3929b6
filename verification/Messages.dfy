/** The message catalogue of the wire protocol: one type byte, then the payload. Text fields are
    kept as their bytes. */
module Messages {
  import opened Bytes

  datatype Message =
    | Echo(text: seq<byte>)
    | ProducerRegister(port: u16, topicId: u16)
    | ConsumerRegister(port: u16, topicId: u16, groupId: u16)
    | Pcm(bytes: seq<byte>)
    | Fetch(topicId: u16, partitionId: u16, offset: u64, maxBytes: u32, maxWaitMs: u32)
    | CommitOffset(groupId: u16, topicId: u16, partitionId: u16, offset: u64)
    | Produce(topicId: u16, partitionId: u16, payload: seq<byte>)
    | CreateTopic(topicId: u16, partitionCount: u16, maxRecords: u32)
    | DescribeTopic(topicId: u16)
    | ListTopics
    | GetLag(groupId: u16, topicId: u16)
    | Replicate(topicId: u16, partitionId: u16, offset: u64, payload: seq<byte>)
    | GetCluster
    | IdempotentProduce(topicId: u16, partitionId: u16, producerId: u64, sequence: u64, payload: seq<byte>)
    | BrokerHeartbeat(brokerId: u16)
    | JoinGroup(groupId: u16, topicId: u16, memberId: u64)
    | GroupHeartbeat(groupId: u16, memberId: u64, generation: u32)
    | Handshake(protocolVersion: u16, token: seq<byte>)
    | REcho(text: seq<byte>)
    | RProducerRegister(code: byte)
    | RConsumerRegister(code: byte)
    | RPcm(code: byte)
    | RFetch(bytes: seq<byte>)
    | RCommitOffset(code: byte)
    | RProduce(offset: u64)
    | RCreateTopic(code: byte)
    | RDescribeTopic(bytes: seq<byte>)
    | RListTopics(bytes: seq<byte>)
    | RGetLag(bytes: seq<byte>)
    | RReplicate(code: byte)
    | RGetCluster(bytes: seq<byte>)
    | RNotLeader(leader: u16)
    | RBrokerHeartbeat(code: byte)
    | RJoinGroup(bytes: seq<byte>)
    | RGroupHeartbeat(code: byte, flag: byte)
    | RHandshake(code: byte, version: u16)
    | RError(code: byte, text: seq<byte>)

  function TypeByte(m: Message): byte {
    match m
    case Echo(_) => 1
    case ProducerRegister(_, _) => 2
    case ConsumerRegister(_, _, _) => 3
    case Pcm(_) => 4
    case Fetch(_, _, _, _, _) => 5
    case CommitOffset(_, _, _, _) => 6
    case Produce(_, _, _) => 7
    case CreateTopic(_, _, _) => 8
    case DescribeTopic(_) => 9
    case ListTopics => 10
    case GetLag(_, _) => 11
    case Replicate(_, _, _, _) => 12
    case GetCluster => 13
    case IdempotentProduce(_, _, _, _, _) => 14
    case BrokerHeartbeat(_) => 15
    case JoinGroup(_, _, _) => 16
    case GroupHeartbeat(_, _, _) => 17
    case Handshake(_, _) => 18
    case REcho(_) => 101
    case RProducerRegister(_) => 102
    case RConsumerRegister(_) => 103
    case RPcm(_) => 104
    case RFetch(_) => 105
    case RCommitOffset(_) => 106
    case RProduce(_) => 107
    case RCreateTopic(_) => 108
    case RDescribeTopic(_) => 109
    case RListTopics(_) => 110
    case RGetLag(_) => 111
    case RReplicate(_) => 112
    case RGetCluster(_) => 113
    case RNotLeader(_) => 114
    case RBrokerHeartbeat(_) => 115
    case RJoinGroup(_) => 116
    case RGroupHeartbeat(_, _) => 117
    case RHandshake(_, _) => 118
    case RError(_, _) => 119
  }

  /** The payload bytes. The token length of a handshake is cast to u16. */
  function PayloadOf(m: Message): seq<byte> {
    match m
    case Echo(text) => text
    case ProducerRegister(port, topicId) => Be(2, port) + Be(2, topicId)
    case ConsumerRegister(port, topicId, groupId) => Be(2, port) + Be(2, topicId) + Be(2, groupId)
    case Pcm(bytes) => bytes
    case Fetch(topicId, partitionId, offset, maxBytes, maxWaitMs) =>
      Be(2, topicId) + Be(2, partitionId) + Be(8, offset) + Be(4, maxBytes) + Be(4, maxWaitMs)
    case CommitOffset(groupId, topicId, partitionId, offset) =>
      Be(2, groupId) + Be(2, topicId) + Be(2, partitionId) + Be(8, offset)
    case Produce(topicId, partitionId, payload) => Be(2, topicId) + Be(2, partitionId) + payload
    case CreateTopic(topicId, partitionCount, maxRecords) => Be(2, topicId) + Be(2, partitionCount) + Be(4, maxRecords)
    case DescribeTopic(topicId) => Be(2, topicId)
    case ListTopics => []
    case GetLag(groupId, topicId) => Be(2, groupId) + Be(2, topicId)
    case Replicate(topicId, partitionId, offset, payload) =>
      Be(2, topicId) + Be(2, partitionId) + Be(8, offset) + Be(2, |payload|) + payload
    case GetCluster => []
    case IdempotentProduce(topicId, partitionId, producerId, sequence, payload) =>
      Be(2, topicId) + Be(2, partitionId) + Be(8, producerId) + Be(8, sequence) + payload
    case BrokerHeartbeat(brokerId) => Be(2, brokerId)
    case JoinGroup(groupId, topicId, memberId) => Be(2, groupId) + Be(2, topicId) + Be(8, memberId)
    case GroupHeartbeat(groupId, memberId, generation) => Be(2, groupId) + Be(8, memberId) + Be(4, generation)
    case Handshake(version, token) => Be(2, version) + Be(2, |token|) + token
    case REcho(text) => text
    case RFetch(bytes) => bytes
    case RProduce(offset) => Be(8, offset)
    case RDescribeTopic(bytes) => bytes
    case RListTopics(bytes) => bytes
    case RGetLag(bytes) => bytes
    case RGetCluster(bytes) => bytes
    case RNotLeader(leader) => Be(2, leader)
    case RJoinGroup(bytes) => bytes
    case RGroupHeartbeat(code, flag) => [code, flag]
    case RHandshake(code, version) => [code] + Be(2, version)
    case RError(code, text) => [code] + text
    case RProducerRegister(code) => [code]
    case RConsumerRegister(code) => [code]
    case RPcm(code) => [code]
    case RCommitOffset(code) => [code]
    case RCreateTopic(code) => [code]
    case RReplicate(code) => [code]
    case RBrokerHeartbeat(code) => [code]
  }

  /** Encoding a Replicate request with more than 65535 payload bytes aborts. */
  function EncodeMessage(m: Message): Outcome<seq<byte>> {
    if m.Replicate? && |m.payload| > U16_MAX then Panic else Ok([TypeByte(m)] + PayloadOf(m))
  }

  // ---- Decoding

  function FirstOr0(p: seq<byte>): byte {
    if p == [] then 0 else p[0]
  }

  function ParseHandshake(p: seq<byte>): Outcome<Message> {
    if |p| < 4 || |p| < 4 + U16At(p, 2) then Err
    else Ok(Handshake(U16At(p, 0), p[4..4 + U16At(p, 2)]))
  }

  function ParseReplicate(p: seq<byte>): Outcome<Message> {
    if |p| < 14 || |p| < 14 + U16At(p, 12) then Err
    else Ok(Replicate(U16At(p, 0), U16At(p, 2), U64At(p, 4), p[14..14 + U16At(p, 12)]))
  }

  function ParseFetch(p: seq<byte>): Outcome<Message> {
    if |p| < 16 then Err
    else Ok(Fetch(U16At(p, 0), U16At(p, 2), U64At(p, 4), U32At(p, 12), if |p| >= 20 then U32At(p, 16) else 0))
  }

  function ParseRequest(t: byte, p: seq<byte>): Outcome<Message> {
    match t
    case 1 => Ok(Echo(p))
    case 2 => if |p| < 4 then Err else Ok(ProducerRegister(U16At(p, 0), U16At(p, 2)))
    case 3 => if |p| < 6 then Err else Ok(ConsumerRegister(U16At(p, 0), U16At(p, 2), U16At(p, 4)))
    case 4 => Ok(Pcm(p))
    case 5 => ParseFetch(p)
    case 6 => if |p| < 14 then Err else Ok(CommitOffset(U16At(p, 0), U16At(p, 2), U16At(p, 4), U64At(p, 6)))
    case 7 => if |p| < 4 then Err else Ok(Produce(U16At(p, 0), U16At(p, 2), p[4..]))
    case 8 => if |p| < 8 then Err else Ok(CreateTopic(U16At(p, 0), U16At(p, 2), U32At(p, 4)))
    case 9 => if |p| < 2 then Err else Ok(DescribeTopic(U16At(p, 0)))
    case 10 => Ok(ListTopics)
    case 11 => if |p| < 4 then Err else Ok(GetLag(U16At(p, 0), U16At(p, 2)))
    case 12 => ParseReplicate(p)
    case 13 => Ok(GetCluster)
    case 14 =>
      if |p| < 20 then Err
      else Ok(IdempotentProduce(U16At(p, 0), U16At(p, 2), U64At(p, 4), U64At(p, 12), p[20..]))
    case 15 => if |p| < 2 then Err else Ok(BrokerHeartbeat(U16At(p, 0)))
    case 16 => if |p| < 12 then Err else Ok(JoinGroup(U16At(p, 0), U16At(p, 2), U64At(p, 4)))
    case 17 => if |p| < 14 then Err else Ok(GroupHeartbeat(U16At(p, 0), U64At(p, 2), U32At(p, 10)))
    case 18 => ParseHandshake(p)
    case _ => Err
  }

  /** An error response slices off its code byte without checking that it is there. */
  function ParseResponse(t: byte, p: seq<byte>): Outcome<Message> {
    match t
    case 101 => Ok(REcho(p))
    case 102 => Ok(RProducerRegister(FirstOr0(p)))
    case 103 => Ok(RConsumerRegister(FirstOr0(p)))
    case 104 => Ok(RPcm(FirstOr0(p)))
    case 105 => Ok(RFetch(p))
    case 106 => Ok(RCommitOffset(FirstOr0(p)))
    case 107 => if |p| < 8 then Err else Ok(RProduce(U64At(p, 0)))
    case 108 => Ok(RCreateTopic(FirstOr0(p)))
    case 109 => Ok(RDescribeTopic(p))
    case 110 => Ok(RListTopics(p))
    case 111 => Ok(RGetLag(p))
    case 112 => Ok(RReplicate(FirstOr0(p)))
    case 113 => Ok(RGetCluster(p))
    case 114 => if |p| < 2 then Err else Ok(RNotLeader(U16At(p, 0)))
    case 115 => Ok(RBrokerHeartbeat(FirstOr0(p)))
    case 116 => Ok(RJoinGroup(p))
    case 117 => Ok(RGroupHeartbeat(FirstOr0(p), if |p| < 2 then 0 else p[1]))
    case 118 => if |p| < 3 then Err else Ok(RHandshake(p[0], U16At(p, 1)))
    case 119 => if p == [] then Panic else Ok(RError(p[0], p[1..]))
    case _ => Err
  }

  function ParseFrame(body: seq<byte>): Outcome<Message> {
    if body == [] then Err
    else if body[0] < 100 then ParseRequest(body[0], body[1..])
    else ParseResponse(body[0], body[1..])
  }

  /** The decoder aborts on exactly one input: an error response without a payload. */
  lemma ParsePanicsExactly(body: seq<byte>)
    ensures ParseFrame(body).Panic? <==> body == [119]
  {
  }

  // ---- Round trips

  lemma PairsReadBack(m: Message)
    requires m.ProducerRegister? || m.ConsumerRegister? || m.DescribeTopic? || m.GetLag? || m.BrokerHeartbeat?
    ensures ParseRequest(TypeByte(m), PayloadOf(m)) == Ok(m)
  {
    hide Be, FromBe, Radix;
    var p := PayloadOf(m);
    WidthsRoundTrip();
    match m
    case ProducerRegister(port, topicId) =>
      assert p[0..2] == Be(2, port) && p[2..4] == Be(2, topicId);
    case ConsumerRegister(port, topicId, groupId) =>
      assert p[0..2] == Be(2, port) && p[2..4] == Be(2, topicId) && p[4..6] == Be(2, groupId);
    case DescribeTopic(topicId) => assert p[0..2] == Be(2, topicId);
    case GetLag(groupId, topicId) => assert p[0..2] == Be(2, groupId) && p[2..4] == Be(2, topicId);
    case BrokerHeartbeat(brokerId) => assert p[0..2] == Be(2, brokerId);
  }

  lemma FieldsReadBack(m: Message)
    requires m.CommitOffset? || m.CreateTopic? || m.JoinGroup? || m.GroupHeartbeat?
    ensures ParseRequest(TypeByte(m), PayloadOf(m)) == Ok(m)
  {
    hide Be, FromBe, Radix;
    var p := PayloadOf(m);
    WidthsRoundTrip();
    match m
    case CommitOffset(groupId, topicId, partitionId, offset) =>
      assert p[0..2] == Be(2, groupId) && p[2..4] == Be(2, topicId) && p[4..6] == Be(2, partitionId)
        && p[6..14] == Be(8, offset);
    case CreateTopic(topicId, partitionCount, maxRecords) =>
      assert p[0..2] == Be(2, topicId) && p[2..4] == Be(2, partitionCount) && p[4..8] == Be(4, maxRecords);
    case JoinGroup(groupId, topicId, memberId) =>
      assert p[0..2] == Be(2, groupId) && p[2..4] == Be(2, topicId) && p[4..12] == Be(8, memberId);
    case GroupHeartbeat(groupId, memberId, generation) =>
      assert p[0..2] == Be(2, groupId) && p[2..10] == Be(8, memberId) && p[10..14] == Be(4, generation);
  }

  lemma BodiesReadBack(m: Message)
    requires m.Fetch? || m.Produce? || m.IdempotentProduce?
    ensures ParseRequest(TypeByte(m), PayloadOf(m)) == Ok(m)
  {
    hide Be, FromBe, Radix;
    var p := PayloadOf(m);
    WidthsRoundTrip();
    match m
    case Fetch(topicId, partitionId, offset, maxBytes, maxWaitMs) =>
      assert p[0..2] == Be(2, topicId) && p[2..4] == Be(2, partitionId) && p[4..12] == Be(8, offset);
      assert p[12..16] == Be(4, maxBytes) && p[16..20] == Be(4, maxWaitMs);
    case Produce(topicId, partitionId, payload) =>
      assert p[0..2] == Be(2, topicId) && p[2..4] == Be(2, partitionId) && p[4..] == payload;
    case IdempotentProduce(topicId, partitionId, producerId, sequence, payload) =>
      assert p[0..2] == Be(2, topicId) && p[2..4] == Be(2, partitionId) && p[4..12] == Be(8, producerId);
      assert p[12..20] == Be(8, sequence) && p[20..] == payload;
  }

  lemma LengthsReadBack(m: Message)
    requires (m.Handshake? && |m.token| <= U16_MAX) || (m.Replicate? && |m.payload| <= U16_MAX)
    ensures ParseRequest(TypeByte(m), PayloadOf(m)) == Ok(m)
  {
    hide Be, FromBe, Radix;
    var p := PayloadOf(m);
    WidthsRoundTrip();
    match m
    case Handshake(version, token) =>
      assert p[0..2] == Be(2, version) && p[2..4] == Be(2, |token|);
      assert p[4..4 + |token|] == token;
    case Replicate(topicId, partitionId, offset, payload) =>
      assert p[0..2] == Be(2, topicId) && p[2..4] == Be(2, partitionId) && p[4..12] == Be(8, offset);
      assert p[12..14] == Be(2, |payload|);
      assert p[14..14 + |payload|] == payload;
  }

  lemma ResponsesReadBack(m: Message)
    requires TypeByte(m) > 100
    ensures ParseResponse(TypeByte(m), PayloadOf(m)) == Ok(m)
  {
    hide Be, FromBe, Radix;
    var p := PayloadOf(m);
    WidthsRoundTrip();
    match m
    case RProduce(offset) => assert p[0..8] == Be(8, offset);
    case RNotLeader(leader) => assert p[0..2] == Be(2, leader);
    case RHandshake(code, version) => assert p[1..3] == Be(2, version);
    case RError(code, text) => assert p[1..] == text;
    case _ =>
  }

  /** Every message survives encode then decode, exactly when its length field holds its length:
      only a handshake token or a replicated payload over 65535 bytes does not fit. */
  lemma MessageRoundTrip(m: Message)
    ensures (var e := EncodeMessage(m); e.Ok? && ParseFrame(e.value) == Ok(m))
       <==> !(m.Handshake? && |m.token| > U16_MAX) && !(m.Replicate? && |m.payload| > U16_MAX)
  {
    hide PayloadOf, ParseResponse, FromBe, Be, Radix, ParseFetch, ParseReplicate;
    var p := PayloadOf(m);
    assert ([TypeByte(m)] + p)[1..] == p;
    if TypeByte(m) > 100 {
      ResponsesReadBack(m);
    } else if m.Handshake? {
      if |m.token| <= U16_MAX {
        LengthsReadBack(m);
      } else {
        TokenCut(p);
      }
    } else if m.Replicate? {
      if |m.payload| <= U16_MAX {
        LengthsReadBack(m);
      }
    } else if m.Fetch? || m.Produce? || m.IdempotentProduce? {
      BodiesReadBack(m);
    } else if m.Echo? || m.Pcm? || m.ListTopics? || m.GetCluster? {
      PlainReadBack(m);
    } else if m.CommitOffset? || m.CreateTopic? || m.JoinGroup? || m.GroupHeartbeat? {
      FieldsReadBack(m);
    } else {
      PairsReadBack(m);
    }
  }

  lemma PlainReadBack(m: Message)
    requires m.Echo? || m.Pcm? || m.ListTopics? || m.GetCluster?
    ensures ParseRequest(TypeByte(m), PayloadOf(m)) == Ok(m)
  {
  }

  lemma TokenCut(p: seq<byte>)
    ensures ParseHandshake(p).Ok? ==> |ParseHandshake(p).value.token| <= U16_MAX
  {
  }
}
