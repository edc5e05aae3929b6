/** Record batches of a fetch response, `[count: u16]` then `count` records, and the codec
    byte the dispatcher puts in front of them. */
module FetchBatch {
  import opened Bytes
  import opened PartitionLogs
  import opened LogStore

  /** A record as a batch carries it: at most 65535 payload bytes. */
  function Clip(r: Record): Record {
    r.(payload := r.payload[..Min(|r.payload|, U16_MAX)])
  }

  function Clipped(rs: seq<Record>): (cs: seq<Record>)
    ensures |cs| == |rs| && forall i :: 0 <= i < |rs| ==> cs[i] == Clip(rs[i])
  {
    seq(|rs|, i requires 0 <= i < |rs| => Clip(rs[i]))
  }

  function Body(rs: seq<Record>): seq<byte> {
    if rs == [] then [] else RecordBytes(Clip(rs[0])) + Body(rs[1..])
  }

  function BatchCount(rs: seq<Record>): u16 {
    Min(|rs|, U16_MAX)
  }

  function BatchOf(rs: seq<Record>): seq<byte> {
    Be(2, BatchCount(rs)) + Body(rs[..BatchCount(rs)])
  }

  function Prepend(rs: seq<Record>, rest: Outcome<seq<Record>>): Outcome<seq<Record>> {
    if rest.Ok? then Ok(rs + rest.value) else rest
  }

  lemma PrependTwice(a: seq<Record>, b: seq<Record>, rest: Outcome<seq<Record>>)
    ensures Prepend(a, Prepend(b, rest)) == Prepend(a + b, rest)
    ensures Prepend([], rest) == rest
  {
    if rest.Ok? {
      assert a + (b + rest.value) == a + b + rest.value;
      assert [] + rest.value == rest.value;
    }
  }

  function ParseBody(n: nat, s: seq<byte>): (r: Outcome<seq<Record>>)
    ensures !r.Panic?
    ensures r.Ok? ==> |r.value| == n
  {
    if n == 0 then Ok([])
    else if |s| < 10 || |s| < 10 + U16At(s, 8) then Err
    else
      var end := 10 + U16At(s, 8);
      Prepend([Record(U64At(s, 0), s[10..end])], ParseBody(n - 1, s[end..]))
  }

  function ParseBatch(s: seq<byte>): Outcome<seq<Record>> {
    if |s| < 2 then Err else ParseBody(U16At(s, 0), s[2..])
  }

  predicate OffsetsFit(rs: seq<Record>) {
    forall i :: 0 <= i < |rs| ==> rs[i].offset <= U64_MAX
  }

  lemma {:induction false} BodyRoundTrip(rs: seq<Record>, rest: seq<byte>)
    requires OffsetsFit(rs)
    ensures ParseBody(|rs|, Body(rs) + rest) == Ok(Clipped(rs))
    decreases |rs|
  {
    if rs == [] {
    } else {
      RecordBytesFields(Clip(rs[0]), Body(rs[1..]) + rest);
      assert Body(rs) + rest == RecordBytes(Clip(rs[0])) + (Body(rs[1..]) + rest);
      BodyRoundTrip(rs[1..], rest);
      assert Clipped(rs) == [Clip(rs[0])] + Clipped(rs[1..]);
    }
  }

  /** A batch decodes to the first 65535 of its records, each with at most 65535 payload bytes. */
  lemma BatchRoundTrip(rs: seq<Record>)
    requires OffsetsFit(rs)
    ensures ParseBatch(BatchOf(rs)) == Ok(Clipped(rs[..BatchCount(rs)]))
  {
    var b := BatchOf(rs);
    var body := Body(rs[..BatchCount(rs)]);
    assert b[0..2] == Be(2, BatchCount(rs)) && b[2..] == body + [];
    WidthsRoundTrip();
    BodyRoundTrip(rs[..BatchCount(rs)], []);
  }

  /** In numbers: at most 65535 records come back, with their offsets, and of each payload at most the first
      65535 bytes. */
  lemma BatchDecodesTo(rs: seq<Record>)
    requires OffsetsFit(rs)
    ensures var r := ParseBatch(BatchOf(rs));
            && r.Ok? && |r.value| == (if |rs| <= 65535 then |rs| else 65535)
            && forall i :: 0 <= i < |r.value| ==>
                 r.value[i] == Record(rs[i].offset, rs[i].payload[..Min(|rs[i].payload|, 65535)])
  {
    hide ParseBatch, BatchOf;
    BatchRoundTrip(rs);
  }

  method EncodeRecords(rs: seq<Record>) returns (out: seq<byte>)
    ensures out == BatchOf(rs)
  {
    var count := if |rs| <= U16_MAX then |rs| else U16_MAX;
    out := Be(2, count);
    ghost var taken := rs[..count];
    assert taken[0..] == taken;
    for i := 0 to count
      invariant out + Body(taken[i..]) == BatchOf(rs)
    {
      assert taken[i..][1..] == taken[i + 1..];
      var len := Min(|rs[i].payload|, U16_MAX);
      out := out + (Be(8, rs[i].offset) + Be(2, len) + rs[i].payload[..len]);
    }
  }

  /** One turn of the decode loop, in buffer positions. */
  lemma ParseBodyAt(n: nat, s: seq<byte>, idx: nat)
    requires n > 0 && idx <= |s|
    ensures ParseBody(n, s[idx..]) ==
            if |s| < idx + 10 || |s| < idx + 10 + U16At(s, idx + 8) then Err
            else
              var end := idx + 10 + U16At(s, idx + 8);
              Prepend([Record(U64At(s, idx), s[idx + 10..end])], ParseBody(n - 1, s[end..]))
  {
    var left := s[idx..];
    if |left| >= 10 {
      assert left[8..10] == s[idx + 8..idx + 10] && left[0..8] == s[idx..idx + 8];
      var len: nat := U16At(s, idx + 8);
      if |left| >= 10 + len {
        assert left[10..10 + len] == s[idx + 10..idx + 10 + len];
        assert left[10 + len..] == s[idx + 10 + len..];
      }
    }
  }

  method DecodeRecords(bytes: seq<byte>) returns (r: Outcome<seq<Record>>)
    ensures r == ParseBatch(bytes)
  {
    if |bytes| < 2 {
      return Err;
    }
    var count := U16At(bytes, 0);
    var idx := 2;
    var out: seq<Record> := [];
    PrependTwice([], [], ParseBody(count, bytes[2..]));
    for i := 0 to count
      invariant 2 <= idx <= |bytes|
      invariant ParseBatch(bytes) == Prepend(out, ParseBody(count - i, bytes[idx..]))
    {
      ParseBodyAt(count - i, bytes, idx);
      if idx + 10 > |bytes| {
        return Err;
      }
      var len: nat := U16At(bytes, idx + 8);
      if idx + 10 + len > |bytes| {
        return Err;
      }
      var rec := Record(U64At(bytes, idx), bytes[idx + 10..idx + 10 + len]);
      idx := idx + 10 + len;
      PrependTwice(out, [rec], ParseBody(count - i - 1, bytes[idx..]));
      out := out + [rec];
    }
    assert out + [] == out;
    return Ok(out);
  }

  const CODEC_NONE: byte := 0
  const CODEC_LZ4: byte := 1

  /** What the dispatcher sends when compression is off. */
  function WrapUncompressed(batch: seq<byte>): seq<byte> {
    [CODEC_NONE] + batch
  }

  type Decompressor = seq<byte> -> Outcome<seq<byte>>

  function UnwrapBatch(bytes: seq<byte>, lz4: Decompressor): Outcome<seq<byte>> {
    if bytes == [] then Err
    else if bytes[0] == CODEC_NONE then Ok(bytes[1..])
    else if bytes[0] == CODEC_LZ4 then lz4(bytes[1..])
    else Err
  }

  /** Codec byte 0 is dropped, 1 hands the rest to the decompressor, anything else is an error. */
  lemma UnwrapExactly(codec: byte, rest: seq<byte>, lz4: Decompressor)
    ensures UnwrapBatch([], lz4) == Err
    ensures UnwrapBatch([codec] + rest, lz4) == if codec == 0 then Ok(rest) else if codec == 1 then lz4(rest) else Err
  {
    assert ([codec] + rest)[1..] == rest;
  }

  /** The fetch consumer: strips the codec byte, keeping the raw bytes if that fails. */
  function ConsumerDecode(bytes: seq<byte>, lz4: Decompressor): Outcome<seq<Record>> {
    var batch := UnwrapBatch(bytes, lz4);
    ParseBatch(if batch.Ok? then batch.value else bytes)
  }

  /** The stress client: strips the codec byte only when it says LZ4. */
  function StressDecode(bytes: seq<byte>, lz4: Decompressor): Outcome<seq<Record>> {
    if bytes != [] && bytes[0] == CODEC_LZ4 then
      var batch := lz4(bytes[1..]);
      if batch.Ok? then ParseBatch(batch.value) else Err
    else ParseBatch(bytes)
  }

  /** The fetch consumer decodes what follows codec byte 0, what the decompressor makes of the rest after
      codec byte 1, and in every other case the raw bytes. */
  lemma ConsumerDecodesExactly(codec: byte, rest: seq<byte>, lz4: Decompressor)
    ensures ConsumerDecode([], lz4) == ParseBatch([])
    ensures ConsumerDecode([codec] + rest, lz4)
            == if codec == 0 then ParseBatch(rest)
               else if codec == 1 && lz4(rest).Ok? then ParseBatch(lz4(rest).value)
               else ParseBatch([codec] + rest)
  {
    hide ParseBatch;
    UnwrapExactly(codec, rest, lz4);
  }

  /** The stress client decodes what the decompressor makes of the rest after codec byte 1, which may
      fail, and in every other case the raw bytes. */
  lemma StressDecodesExactly(codec: byte, rest: seq<byte>, lz4: Decompressor)
    ensures StressDecode([], lz4) == ParseBatch([])
    ensures StressDecode([codec] + rest, lz4)
            == if codec != 1 then ParseBatch([codec] + rest)
               else if lz4(rest).Ok? then ParseBatch(lz4(rest).value)
               else Err
  {
    hide ParseBatch;
    assert ([codec] + rest)[1..] == rest;
  }

  lemma ConsumerReadsBatch(rs: seq<Record>, lz4: Decompressor)
    requires OffsetsFit(rs)
    ensures ConsumerDecode(WrapUncompressed(BatchOf(rs)), lz4) == Ok(Clipped(rs[..BatchCount(rs)]))
  {
    BatchRoundTrip(rs);
    assert WrapUncompressed(BatchOf(rs))[1..] == BatchOf(rs);
  }

  /** The stress client reads an uncompressed response from the dispatcher one byte off. What it
      returns equals the batch only when there was nothing to return; a batch of fewer than
      256 records always looks empty to it. */
  lemma StressMisreadsBatch(rs: seq<Record>, lz4: Decompressor)
    ensures StressDecode(WrapUncompressed(BatchOf(rs)), lz4) == Ok(rs) <==> rs == []
    ensures |rs| < 0x100 ==> StressDecode(WrapUncompressed(BatchOf(rs)), lz4) == Ok([])
  {
    var w := WrapUncompressed(BatchOf(rs));
    var count := BatchCount(rs);
    TwoBytes(count);
    assert w[0..2] == [0, count / 0x100];
    assert FromBe(w[0..2]) == count / 0x100 by {
      assert w[0..2][..1] == [0];
      assert FromBe([0]) == 0;
    }
  }
}
