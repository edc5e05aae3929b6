/** One connection to a broker: which of the frames a client sends are answered before the broker
    hangs up. */
module Connections {
  import opened Bytes
  import opened Messages
  import opened Frames

  /** What the broker behind the connection does: which tokens it accepts, and whether its
      `i`-th request is dispatched to an answer that can be written. */
  datatype Peer = Peer(valid: seq<byte> -> bool, answers: (nat, Frame) -> bool)

  predicate Accepted(valid: seq<byte> -> bool, m: Message) {
    m.Handshake? && valid(m.token) && 1 <= m.protocolVersion <= 2
  }

  /** The protocol version of the session after a message. */
  function VersionAfter(valid: seq<byte> -> bool, version: u16, m: Message): u16 {
    if Accepted(valid, m) then m.protocolVersion else version
  }

  /** After a handshake the broker reads on, and after a version 2 frame in a version 2 session. */
  predicate Stays(version: u16, m: Message, format: Format) {
    m.Handshake? || (format.V2? && version >= 2)
  }

  lemma ReadFrameAdvances(s: seq<byte>)
    ensures ReadFrame(s).Ok? ==> |ReadFrame(s).value.2| < |s|
  {
    hide ParseFrame, ParseV2Body;
  }

  /** The frames answered on stream `s`, in a session that has come to `version` after `i` frames. */
  function Answered(peer: Peer, version: u16, i: nat, s: seq<byte>): seq<(Frame, Format)>
    decreases |s|
  {
    var r := ReadFrame(s);
    if !r.Ok? then []
    else
      var (f, format, rest) := r.value;
      if !peer.answers(i, f) then []
      else
        var v := VersionAfter(peer.valid, version, f.message);
        ReadFrameAdvances(s);
        [(f, format)] + if Stays(v, f.message, format) then Answered(peer, v, i + 1, rest) else []
  }

  method HandleConnection(peer: Peer, stream: seq<byte>) returns (answered: seq<(Frame, Format)>)
    ensures answered == Answered(peer, 1, 0, stream)
  {
    hide ReadFrame;
    answered := [];
    var version: u16, i, s := 1, 0, stream;
    assert [] + Answered(peer, 1, 0, stream) == Answered(peer, 1, 0, stream);
    while true
      invariant Answered(peer, 1, 0, stream) == answered + Answered(peer, version, i, s)
      decreases |s|
    {
      ReadFrameAdvances(s);
      var r := ReadFrame(s);
      if !r.Ok? {
        break;
      }
      var (f, format, rest) := r.value;
      if !peer.answers(i, f) {
        break;
      }
      ghost var more := if Stays(VersionAfter(peer.valid, version, f.message), f.message, format)
                        then Answered(peer, VersionAfter(peer.valid, version, f.message), i + 1, rest) else [];
      assert answered + ([(f, format)] + more) == answered + [(f, format)] + more;
      answered := answered + [(f, format)];
      if f.message.Handshake? {
        if peer.valid(f.message.token) && 1 <= f.message.protocolVersion <= 2 {
          version := f.message.protocolVersion;
        }
      } else if !(format.V2? && version >= 2) {
        assert answered + [] == answered;
        return;
      }
      i, s := i + 1, rest;
    }
    assert answered + [] == answered;
  }

  // ---- Which frames are answered

  /** The version of the session before frame `i`. */
  function VersionAt(valid: seq<byte> -> bool, fs: seq<(Frame, Format)>, i: nat): u16
    requires i <= |fs|
  {
    if i == 0 then 1 else VersionAfter(valid, VersionAt(valid, fs, i - 1), fs[i - 1].0.message)
  }

  /** Frame `i` is the last one the broker reads. */
  predicate Ends(valid: seq<byte> -> bool, fs: seq<(Frame, Format)>, i: nat)
    requires i < |fs|
  {
    !fs[i].0.message.Handshake? && (fs[i].1.V1? || VersionAt(valid, fs, i) < 2)
  }

  /** From frame `n` on, every frame up to `i` has an answer, and none before `i` is the last one. */
  ghost predicate Reached(peer: Peer, fs: seq<(Frame, Format)>, n: nat, i: nat)
    requires i < |fs|
  {
    && (forall j :: n <= j <= i ==> peer.answers(j, fs[j].0))
    && (forall j :: n <= j < i ==> !Ends(peer.valid, fs, j))
  }

  lemma ReachedNext(peer: Peer, fs: seq<(Frame, Format)>, n: nat, i: nat)
    requires n <= i < |fs|
    ensures Reached(peer, fs, n, i) <==>
            peer.answers(n, fs[n].0) && (n == i || (!Ends(peer.valid, fs, n) && Reached(peer, fs, n + 1, i)))
  {
    hide Ends;
  }

  /** A handshake with an accepted token that asks for version 2. */
  predicate Upgrades(valid: seq<byte> -> bool, m: Message) {
    m.Handshake? && valid(m.token) && m.protocolVersion == 2
  }

  predicate Downgrades(valid: seq<byte> -> bool, m: Message) {
    m.Handshake? && valid(m.token) && m.protocolVersion == 1
  }

  /** A handshake before frame `i` asked for version 2, and none since for version 1; those with other
      versions or refused tokens do not matter. */
  ghost predicate Upgraded(valid: seq<byte> -> bool, fs: seq<(Frame, Format)>, i: nat)
    requires i <= |fs|
  {
    exists j :: 0 <= j < i && Upgrades(valid, fs[j].0.message)
                && forall k :: j < k < i ==> !Downgrades(valid, fs[k].0.message)
  }

  lemma {:induction false} VersionIsLastAccepted(valid: seq<byte> -> bool, fs: seq<(Frame, Format)>, i: nat)
    requires i <= |fs|
    ensures 1 <= VersionAt(valid, fs, i) <= 2
    ensures VersionAt(valid, fs, i) == 2 <==> Upgraded(valid, fs, i)
    decreases i
  {
    if i > 0 {
      VersionIsLastAccepted(valid, fs, i - 1);
      var m := fs[i - 1].0.message;
      if Upgrades(valid, m) {
        assert Upgrades(valid, fs[i - 1].0.message);
      } else if Upgraded(valid, fs, i - 1) && !Downgrades(valid, m) {
        var j :| 0 <= j < i - 1 && Upgrades(valid, fs[j].0.message)
                 && forall k :: j < k < i - 1 ==> !Downgrades(valid, fs[k].0.message);
        assert forall k :: j < k < i ==> !Downgrades(valid, fs[k].0.message);
      }
    }
  }

  lemma {:induction false} AnsweredFrom(peer: Peer, fs: seq<(Frame, Format)>, n: nat)
    requires n <= |fs| && forall i :: 0 <= i < |fs| ==> Carries(fs[i].1, fs[i].0)
    ensures WriteAll(fs[n..]).Ok?
    ensures var a := Answered(peer, VersionAt(peer.valid, fs, n), n, WriteAll(fs[n..]).value);
            a <= fs[n..] && forall i :: n <= i < |fs| ==> (i - n < |a| <==> Reached(peer, fs, n, i))
    decreases |fs| - n
  {
    hide ReadFrame, WriteFrame, Carries, Answered, Reached, Ends, VersionAt;
    if n == |fs| {
      NothingAnswered(peer, VersionAt(peer.valid, fs, n), n);
    } else {
      AnsweredFrom(peer, fs, n + 1);
      assert fs[n..][1..] == fs[n + 1..];
      var others := WriteAll(fs[n + 1..]).value;
      assert Carries(fs[n].1, fs[n].0);
      FrameRoundTrip(fs[n].0, fs[n].1, others);
      AnswerOne(peer, fs, n, others);
      assert fs[n..] == [fs[n]] + fs[n + 1..];
      forall i | n <= i < |fs|
        ensures i - n < |Answered(peer, VersionAt(peer.valid, fs, n), n, WriteAll(fs[n..]).value)| <==>
                Reached(peer, fs, n, i)
      {
        ReachedNext(peer, fs, n, i);
      }
    }
  }

  /** One frame at the front of the stream. */
  lemma AnswerOne(peer: Peer, fs: seq<(Frame, Format)>, n: nat, others: seq<byte>)
    requires n < |fs| && WriteFrame(fs[n].0, fs[n].1).Ok?
    requires ReadFrame(WriteFrame(fs[n].0, fs[n].1).value + others) == Ok((fs[n].0, fs[n].1, others))
    ensures Answered(peer, VersionAt(peer.valid, fs, n), n, WriteFrame(fs[n].0, fs[n].1).value + others)
            == if !peer.answers(n, fs[n].0) then []
               else if Ends(peer.valid, fs, n) then [fs[n]]
               else [fs[n]] + Answered(peer, VersionAt(peer.valid, fs, n + 1), n + 1, others)
  {
    hide ReadFrame, WriteFrame;
    assert [fs[n]] + [] == [fs[n]];
  }

  lemma NothingAnswered(peer: Peer, version: u16, i: nat)
    ensures Answered(peer, version, i, []) == []
  {
  }

  /** Of any frames that their formats carry, the broker answers a beginning: frame `i` exactly when
      every frame up to it has an answer and none before it is, apart from handshakes, a version 1
      frame or one in a session whose last accepted handshake did not ask for version 2. */
  lemma AnsweredExactly(peer: Peer, fs: seq<(Frame, Format)>)
    requires forall i :: 0 <= i < |fs| ==> Carries(fs[i].1, fs[i].0)
    ensures WriteAll(fs).Ok?
    ensures var a := Answered(peer, 1, 0, WriteAll(fs).value);
            a <= fs && forall i :: 0 <= i < |fs| ==> (i < |a| <==> Reached(peer, fs, 0, i))
    ensures forall i :: 0 <= i < |fs| ==>
              (Ends(peer.valid, fs, i) <==>
               !fs[i].0.message.Handshake? && (fs[i].1.V1? || !Upgraded(peer.valid, fs, i)))
  {
    hide Carries, Answered, WriteAll;
    AnsweredFrom(peer, fs, 0);
    assert fs[0..] == fs;
    forall i | 0 <= i < |fs|
      ensures Ends(peer.valid, fs, i) <==>
              !fs[i].0.message.Handshake? && (fs[i].1.V1? || !Upgraded(peer.valid, fs, i))
    {
      VersionIsLastAccepted(peer.valid, fs, i);
    }
  }

  /** A client that sends version 1 requests without a handshake gets one answer per connection. */
  lemma OneAnswer(peer: Peer, fs: seq<(Frame, Format)>)
    requires forall i :: 0 <= i < |fs| ==> Carries(fs[i].1, fs[i].0)
    requires fs != [] && fs[0].1.V1? && !fs[0].0.message.Handshake? && peer.answers(0, fs[0].0)
    ensures WriteAll(fs).Ok? && Answered(peer, 1, 0, WriteAll(fs).value) == [fs[0]]
  {
    hide Carries, Answered, WriteAll;
    AnsweredExactly(peer, fs);
    var a := Answered(peer, 1, 0, WriteAll(fs).value);
    assert Ends(peer.valid, fs, 0) && Reached(peer, fs, 0, 0);
    if |fs| > 1 {
      assert !Reached(peer, fs, 0, 1);
    }
  }
}
