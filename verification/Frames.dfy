/** Wire framing: version 1 frames with a one-byte length, and version 2 frames with a marker, a
    two-byte length and a correlation id, on the same stream. */
module Frames {
  import opened Bytes
  import opened Messages

  datatype Frame = Frame(correlationId: u32, message: Message)

  datatype Format = V1 | V2

  const MARKER: byte := 0xFF

  // ---- Version 1 on its own

  /** The length is cast to u8. */
  function WireV1(e: seq<byte>): seq<byte> {
    [|e| % 0x100] + e
  }

  /** Reads one message the way clients do. */
  function ReadMessage(s: seq<byte>): Outcome<(Message, seq<byte>)> {
    if s == [] then Err
    else
      var length: nat := s[0];
      if |s| < 1 + length then Err
      else
        var m :- ParseFrame(s[1..1 + length]);
        Ok((m, s[1 + length..]))
  }

  /** A client reads back what was written exactly when the message is at most 255 bytes. */
  lemma MessageOnStream(m: Message, rest: seq<byte>)
    ensures (var e := EncodeMessage(m); e.Ok? && ReadMessage(WireV1(e.value) + rest) == Ok((m, rest)))
       <==> EncodeMessage(m).Ok? && |EncodeMessage(m).value| <= 255
  {
    hide ParseFrame, PayloadOf;
    var e := EncodeMessage(m);
    if e.Ok? {
      var s := WireV1(e.value) + rest;
      var length: nat := s[0];
      if |e.value| <= 255 {
        assert s[1..1 + length] == e.value && s[1 + length..] == rest;
        ShortMessageParses(m);
      } else {
        assert |s[1 + length..]| > |rest|;
      }
    }
  }

  lemma ShortMessageParses(m: Message)
    requires EncodeMessage(m).Ok? && |EncodeMessage(m).value| <= 65530
    ensures ParseFrame(EncodeMessage(m).value) == Ok(m)
  {
    hide ParseFrame;
    MessageRoundTrip(m);
  }

  // ---- Both versions

  function WireV2(correlationId: u32, inner: seq<byte>): seq<byte> {
    [MARKER, 2] + Be(2, 5 + |inner|) + [2] + Be(4, correlationId) + inner
  }

  function WriteFrame(f: Frame, format: Format): Outcome<seq<byte>> {
    var e :- EncodeMessage(f.message);
    Ok(if format.V1? then WireV1(e) else WireV2(f.correlationId, e))
  }

  function ParseV2Body(body: seq<byte>): Outcome<Frame> {
    if |body| < 6 then Err
    else if body[0] != 2 then Err
    else
      var m :- ParseFrame(body[5..]);
      Ok(Frame(U32At(body, 1), m))
  }

  function ReadV1(s: seq<byte>): Outcome<(Frame, Format, seq<byte>)>
    requires s != []
  {
    var length: nat := s[0];
    if length == 0 || |s| < 1 + length then Err
    else
      var m :- ParseFrame(s[1..1 + length]);
      Ok((Frame(0, m), V1, s[1 + length..]))
  }

  function ReadV2(s: seq<byte>): Outcome<(Frame, Format, seq<byte>)>
    requires s != []
  {
    if |s| < 2 || s[1] != 2 || |s| < 4 || |s| < 4 + U16At(s, 2) then Err
    else
      var f :- ParseV2Body(s[4..4 + U16At(s, 2)]);
      Ok((f, V2, s[4 + U16At(s, 2)..]))
  }

  function ReadFrame(s: seq<byte>): Outcome<(Frame, Format, seq<byte>)> {
    if s == [] then Err else if s[0] == MARKER then ReadV2(s) else ReadV1(s)
  }

  /** The encoded message has a length the format can carry; version 1 carries no correlation id. */
  predicate Carries(format: Format, f: Frame) {
    && EncodeMessage(f.message).Ok?
    && match format
       case V1 => |EncodeMessage(f.message).value| <= 254 && f.correlationId == 0
       case V2 => |EncodeMessage(f.message).value| <= 65530
  }

  lemma OnlyShortRegistersLookMarked(m: Message)
    requires EncodeMessage(m).Ok? && EncodeMessage(m).value[0] == 2
    ensures |EncodeMessage(m).value| == 5
  {
  }

  lemma V1RoundTrip(f: Frame, rest: seq<byte>)
    requires EncodeMessage(f.message).Ok?
    ensures ReadFrame(WireV1(EncodeMessage(f.message).value) + rest) == Ok((f, V1, rest)) <==> Carries(V1, f)
  {
    hide ParseFrame, EncodeMessage, ReadV2;
    var e := EncodeMessage(f.message).value;
    var s := WireV1(e) + rest;
    var length: nat := s[0];
    EncodedNotEmpty(f.message);
    if |e| <= 254 {
      assert s[1..1 + length] == e && s[1 + length..] == rest;
      ShortMessageParses(f.message);
    } else if s[0] == MARKER {
      V1MistakenForV2(f.message, s, rest);
    } else {
      assert |s[1 + length..]| > |rest|;
    }
  }

  lemma EncodedNotEmpty(m: Message)
    requires EncodeMessage(m).Ok?
    ensures EncodeMessage(m).value != []
  {
  }

  /** A version 1 message of 255 bytes (or 511, and so on) starts like a version 2 frame and is
      refused. */
  lemma V1MistakenForV2(m: Message, s: seq<byte>, rest: seq<byte>)
    requires EncodeMessage(m).Ok? && |EncodeMessage(m).value| >= 255 && s == WireV1(EncodeMessage(m).value) + rest
    ensures ReadV2(s) == Err
  {
    hide ParseV2Body;
    var e := EncodeMessage(m).value;
    assert s[1] == e[0];
    if e[0] == 2 {
      OnlyShortRegistersLookMarked(m);
    }
  }

  lemma V2Fields(correlationId: u32, inner: seq<byte>, rest: seq<byte>)
    ensures var s := WireV2(correlationId, inner) + rest;
            && |s| == 9 + |inner| + |rest| && s[0] == MARKER && s[1] == 2 && U16At(s, 2) == (5 + |inner|) % 0x1_0000
            && s[4..9 + |inner|] == [2] + Be(4, correlationId) + inner && s[9 + |inner|..] == rest
  {
    var s := WireV2(correlationId, inner) + rest;
    assert s[2..4] == Be(2, 5 + |inner|);
    TwoBytes(5 + |inner|);
  }

  lemma V2BodyParses(f: Frame)
    requires Carries(V2, f)
    ensures ParseV2Body([2] + Be(4, f.correlationId) + EncodeMessage(f.message).value) == Ok(f)
  {
    hide ParseFrame, EncodeMessage, Be, FromBe, Radix;
    var e := EncodeMessage(f.message).value;
    var body := [2] + Be(4, f.correlationId) + e;
    EncodedNotEmpty(f.message);
    assert body[1..5] == Be(4, f.correlationId) && body[5..] == e;
    WidthsRoundTrip();
    ShortMessageParses(f.message);
  }

  lemma V2RoundTrip(f: Frame, rest: seq<byte>)
    requires EncodeMessage(f.message).Ok?
    ensures ReadFrame(WireV2(f.correlationId, EncodeMessage(f.message).value) + rest) == Ok((f, V2, rest)) <==>
            Carries(V2, f)
  {
    hide ParseV2Body, EncodeMessage, WireV2, U16At;
    var e := EncodeMessage(f.message).value;
    var s := WireV2(f.correlationId, e) + rest;
    V2Fields(f.correlationId, e, rest);
    if |e| <= 65530 {
      V2BodyParses(f);
    } else {
      var len := U16At(s, 2);
      assert |s[4 + len..]| > |rest|;
    }
  }

  /** A frame written to a stream is read back with its format and correlation id, and what
      follows it is left untouched, exactly when the format can carry it. */
  lemma FrameRoundTrip(f: Frame, format: Format, rest: seq<byte>)
    ensures (var w := WriteFrame(f, format); w.Ok? && ReadFrame(w.value + rest) == Ok((f, format, rest)))
       <==> Carries(format, f)
  {
    hide ReadFrame, EncodeMessage, WireV1, WireV2;
    if EncodeMessage(f.message).Ok? {
      V1RoundTrip(f, rest);
      V2RoundTrip(f, rest);
    }
  }

  // ---- Streams

  function WriteAll(fs: seq<(Frame, Format)>): Outcome<seq<byte>> {
    if fs == [] then Ok([])
    else
      var first :- WriteFrame(fs[0].0, fs[0].1);
      var others :- WriteAll(fs[1..]);
      Ok(first + others)
  }

  function ReadAll(n: nat, s: seq<byte>): Outcome<(seq<(Frame, Format)>, seq<byte>)> {
    if n == 0 then Ok(([], s))
    else
      var (f, format, s1) :- ReadFrame(s);
      var (fs, s2) :- ReadAll(n - 1, s1);
      Ok(([(f, format)] + fs, s2))
  }

  /** Any mix of version 1 and version 2 frames on one stream is read back as the same sequence. */
  lemma {:induction false} StreamRoundTrip(fs: seq<(Frame, Format)>, rest: seq<byte>)
    requires forall i :: 0 <= i < |fs| ==> Carries(fs[i].1, fs[i].0)
    ensures var w := WriteAll(fs);
            w.Ok? && ReadAll(|fs|, w.value + rest) == Ok((fs, rest))
    decreases |fs|
  {
    hide ReadFrame, WriteFrame, Carries;
    if fs == [] {
      assert [] + rest == rest;
    } else {
      StreamRoundTrip(fs[1..], rest);
      var others := WriteAll(fs[1..]).value;
      assert Carries(fs[0].1, fs[0].0);
      FrameRoundTrip(fs[0].0, fs[0].1, others + rest);
      var first := WriteFrame(fs[0].0, fs[0].1).value;
      assert first + others + rest == first + (others + rest);
      assert [(fs[0].0, fs[0].1)] + fs[1..] == fs;
    }
  }

  // ---- Responses too long for version 1

  lemma ClusterBody(info: seq<byte>)
    ensures EncodeMessage(RGetCluster(info)) == Ok([113] + info)
    ensures ParseFrame([113] + info) == Ok(RGetCluster(info))
  {
    assert ([113] + info)[1..] == info;
  }

  /** A GET_CLUSTER response sent in version 1 with more than 255 bytes reaches the asking broker
      as a prefix of the cluster bytes, or as an error; never as other bytes. */
  lemma ClusterResponseArrivesAsPrefix(info: seq<byte>, rest: seq<byte>)
    ensures var r := ReadMessage(WireV1([113] + info) + rest);
            var length := (1 + |info|) % 0x100;
            if length == 0 then r == Err else r.Ok? && r.value.0 == RGetCluster(info[..length - 1])
    ensures EncodeMessage(RGetCluster(info)) == Ok([113] + info)
  {
    ClusterBody(info);
    var length := (1 + |info|) % 0x100;
    var s := WireV1([113] + info) + rest;
    assert s[0] == length && |s| == 2 + |info| + |rest|;
    if length == 0 {
      assert s[1..1] == [];
    } else {
      hide ParseFrame, EncodeMessage, WireV1;
      ClusterBody(info[..length - 1]);
      CutBody(info, length, s, rest);
    }
  }

  lemma CutBody(info: seq<byte>, length: nat, s: seq<byte>, rest: seq<byte>)
    requires 0 < length <= 1 + |info| && s == WireV1([113] + info) + rest
    ensures s[1..1 + length] == [113] + info[..length - 1]
  {
  }
}
