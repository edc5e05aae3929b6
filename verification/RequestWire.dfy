/** Requests on the wire: how large a payload any frame can carry, and which replicate requests
    reach a follower. */
module RequestWire {
  import opened Bytes
  import opened Messages
  import opened Frames

  /** The message can be read from some stream. */
  ghost predicate Arrives(m: Message) {
    exists s: seq<byte> :: ReadFrame(s).Ok? && ReadFrame(s).value.0.message == m
  }

  /** A parsed payload is shorter than the message it was parsed from. */
  lemma PayloadWithin(body: seq<byte>)
    requires ParseFrame(body).Ok?
    ensures var m := ParseFrame(body).value;
            && (m.Produce? ==> |m.payload| == |body| - 5)
            && (m.IdempotentProduce? ==> |m.payload| == |body| - 21)
            && (m.Replicate? ==> |m.payload| <= |body| - 15)
  {
    hide FromBe;
  }

  /** A frame carries at most 65525 bytes of a produce, 65509 of an idempotent produce and 65515
      of a replicate: less than what the segment holds. */
  lemma FramesBoundPayloads(m: Message)
    requires Arrives(m)
    ensures m.Produce? ==> |m.payload| <= 65525
    ensures m.IdempotentProduce? ==> |m.payload| <= 65509
    ensures m.Replicate? ==> |m.payload| <= 65515
  {
    hide ParseFrame, FromBe;
    var s: seq<byte> :| ReadFrame(s).Ok? && ReadFrame(s).value.0.message == m;
    if s[0] == MARKER {
      PayloadWithin(s[4..4 + U16At(s, 2)][5..]);
    } else {
      var length: nat := s[0];
      PayloadWithin(s[1..1 + length]);
    }
  }

  /** The bounds are reached: every payload up to them arrives in some version 2 frame. */
  lemma BoundsAreReached(topicId: u16, partitionId: u16, producerId: u64, sequence: u64, payload: seq<byte>)
    ensures |payload| <= 65525 ==> Arrives(Produce(topicId, partitionId, payload))
    ensures |payload| <= 65509 ==> Arrives(IdempotentProduce(topicId, partitionId, producerId, sequence, payload))
  {
    if |payload| <= 65525 {
      ShortArrives(Produce(topicId, partitionId, payload));
    }
    if |payload| <= 65509 {
      ShortArrives(IdempotentProduce(topicId, partitionId, producerId, sequence, payload));
    }
  }

  lemma ShortArrives(m: Message)
    requires EncodeMessage(m).Ok? && |EncodeMessage(m).value| <= 65530
    ensures Arrives(m)
  {
    hide EncodeMessage, ReadFrame, WireV2;
    var f := Frame(0, m);
    FrameRoundTrip(f, V2, []);
    var w := WriteFrame(f, V2).value;
    assert ReadFrame(w + []).Ok?;
  }

  /** What a follower's connection makes of a replicate request: the leader writes it in a
      version 1 frame. */
  function Replicated(topicId: u16, partitionId: u16, offset: u64, payload: seq<byte>): Outcome<Message> {
    var e :- EncodeMessage(Replicate(topicId, partitionId, offset, payload));
    var (f, _, _) :- ReadFrame(WireV1(e));
    Ok(f.message)
  }

  lemma ReplicateBody(topicId: u16, partitionId: u16, offset: u64, payload: seq<byte>, n: nat)
    requires |payload| <= U16_MAX && 0 < n < 15 + |payload|
    ensures var e := EncodeMessage(Replicate(topicId, partitionId, offset, payload)).value;
            |e| == 15 + |payload| && e[0] == 12 && ParseFrame(e[..n]) == Err
  {
    hide Be, FromBe, Radix;
    var m := Replicate(topicId, partitionId, offset, payload);
    var e := EncodeMessage(m).value;
    WidthsRoundTrip();
    var p := e[..n][1..];
    assert p == PayloadOf(m)[..n - 1];
    if |p| >= 14 {
      assert PayloadOf(m)[12..14] == Be(2, |payload|);
      assert p[12..14] == Be(2, |payload|);
    }
  }

  /** A replicate request reaches the follower exactly when its payload has at most 239 bytes;
      otherwise the follower's read fails and the connection is dropped. */
  lemma ReplicateArrivesExactly(topicId: u16, partitionId: u16, offset: u64, payload: seq<byte>)
    ensures Replicated(topicId, partitionId, offset, payload)
            == if |payload| <= 239 then Ok(Replicate(topicId, partitionId, offset, payload))
               else if |payload| <= U16_MAX then Err else Panic
  {
    hide ParseFrame, PayloadOf, ReadV2;
    var m := Replicate(topicId, partitionId, offset, payload);
    if |payload| <= U16_MAX {
      var e := EncodeMessage(m).value;
      ReplicateBody(topicId, partitionId, offset, payload, 1);
      var s := WireV1(e);
      var length: nat := s[0];
      if |payload| <= 239 {
        assert s[1..1 + length] == e;
        ShortMessageParses(m);
      } else if s[0] == MARKER {
        assert s == s + [];
        V1MistakenForV2(m, s, []);
      } else if length > 0 {
        assert s[1..1 + length] == e[..length];
        ReplicateBody(topicId, partitionId, offset, payload, length);
      }
    }
  }
}
