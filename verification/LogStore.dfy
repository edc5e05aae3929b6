/** The append-only segment file of a partition and its replay at start-up.
    A file is a byte sequence; a record is `[offset: u64][len: u16][payload]`. */
module LogStore {
  import opened Bytes
  import opened PartitionLogs

  function RecordBytes(r: Record): seq<byte> {
    Be(8, r.offset) + Be(2, |r.payload|) + r.payload
  }

  /** Payloads that fit the u16 length field, fewer records than offsets. */
  predicate Storable(h: seq<Payload>) {
    && |h| <= U64_MAX
    && forall i :: 0 <= i < |h| ==> |h[i]| <= U16_MAX
  }

  /** The segment after appending `h`. */
  function FileOf(h: seq<Payload>): seq<byte> {
    if h == [] then []
    else FileOf(h[..|h| - 1]) + RecordBytes(Record(|h| - 1, h[|h| - 1]))
  }

  lemma FileOfSnoc(h: seq<Payload>, p: Payload)
    ensures FileOf(h + [p]) == FileOf(h) + RecordBytes(Record(|h|, p))
  {
    assert (h + [p])[..|h|] == h;
  }

  /** Replay of the bytes that are left, on top of `log`. With `checked` (debug builds) a
      stored offset that differs from the one the append assigns aborts the load. */
  function Replay(log: Log, bytes: seq<byte>, checked: bool): Outcome<Log>
    decreases |bytes|
  {
    if |bytes| < 8 then Ok(log)
    else if |bytes| < 10 then Err
    else
      var end := 10 + U16At(bytes, 8);
      if |bytes| < end then Err
      else if checked && U64At(bytes, 0) != log.next then Panic
      else Replay(Appended(log, bytes[10..end]), bytes[end..], checked)
  }

  lemma RecordBytesFields(r: Record, rest: seq<byte>)
    requires |r.payload| <= U16_MAX && r.offset <= U64_MAX
    ensures |RecordBytes(r)| == 10 + |r.payload|
    ensures var b := RecordBytes(r) + rest;
            && U64At(b, 0) == r.offset && U16At(b, 8) == |r.payload|
            && b[10..10 + |r.payload|] == r.payload && b[10 + |r.payload|..] == rest
  {
    var b := RecordBytes(r) + rest;
    assert b[0..8] == Be(8, r.offset);
    assert b[8..10] == Be(2, |r.payload|);
    WidthsRoundTrip();
  }

  lemma ReplayOneRecord(h: seq<Payload>, p: Payload, maxRecords: Option<nat>, rest: seq<byte>, checked: bool)
    requires |p| <= U16_MAX && |h| <= U64_MAX
    ensures Replay(LogOf(h, maxRecords), RecordBytes(Record(|h|, p)) + rest, checked)
            == Replay(LogOf(h + [p], maxRecords), rest, checked)
  {
    RecordBytesFields(Record(|h|, p), rest);
    AppendExtendsHistory(h, maxRecords, p);
  }

  /** Whole records replay to exactly the appends that wrote them. */
  lemma {:induction false} ReplayWholeRecords(h: seq<Payload>, maxRecords: Option<nat>, rest: seq<byte>, checked: bool)
    requires Storable(h)
    ensures Replay(LogOf([], maxRecords), FileOf(h) + rest, checked) == Replay(LogOf(h, maxRecords), rest, checked)
    decreases |h|
  {
    hide Replay, LogOf, RecordBytes;
    if h == [] {
      assert FileOf(h) + rest == rest;
    } else {
      var n := |h| - 1;
      var r := Record(n, h[n]);
      assert FileOf(h) + rest == FileOf(h[..n]) + (RecordBytes(r) + rest);
      ReplayWholeRecords(h[..n], maxRecords, RecordBytes(r) + rest, checked);
      ReplayOneRecord(h[..n], h[n], maxRecords, rest, checked);
      assert h[..n] + [h[n]] == h;
    }
  }

  lemma PartialRecordReplay(r: Record, m: nat, log: Log, checked: bool)
    requires |r.payload| <= U16_MAX && r.offset <= U64_MAX
    requires m < |RecordBytes(r)|
    ensures Replay(log, RecordBytes(r)[..m], checked) == if m < 8 then Ok(log) else Err
  {
    RecordBytesFields(r, []);
    assert RecordBytes(r) + [] == RecordBytes(r);
    if m >= 10 {
      assert RecordBytes(r)[..m][8..10] == RecordBytes(r)[8..10];
    }
  }

  lemma {:induction false} FilePrefix(h: seq<Payload>, c: nat)
    requires c <= |h|
    ensures FileOf(h[..c]) <= FileOf(h)
    decreases |h|
  {
    if c == |h| {
      assert h[..c] == h;
    } else {
      FilePrefix(h[..|h| - 1], c);
      assert h[..|h| - 1][..c] == h[..c];
    }
  }

  /** Number of records wholly inside the first `n` bytes of the file of `h`. */
  function CompleteRecords(h: seq<Payload>, n: nat): (c: nat)
    requires n <= |FileOf(h)|
    ensures c <= |h| && |FileOf(h[..c])| <= n
    ensures c < |h| ==> n < |FileOf(h[..c + 1])|
  {
    if n == |FileOf(h)| then
      assert h[..|h|] == h;
      |h|
    else if n >= |FileOf(h[..|h| - 1])| then
      assert h[..|h|] == h;
      |h| - 1
    else
      var g := h[..|h| - 1];
      var c := CompleteRecords(g, n);
      assert g[..c] == h[..c];
      assert c < |g| ==> g[..c + 1] == h[..c + 1];
      assert c == |g| ==> g[..c] == g;
      c
  }

  lemma TornFile(h: seq<Payload>, c: nat, n: nat)
    requires c < |h| && |FileOf(h[..c])| <= n < |FileOf(h[..c + 1])|
    ensures n - |FileOf(h[..c])| < |RecordBytes(Record(c, h[c]))|
    ensures n <= |FileOf(h)|
    ensures FileOf(h)[..n] == FileOf(h[..c]) + RecordBytes(Record(c, h[c]))[..n - |FileOf(h[..c])|]
  {
    FilePrefix(h, c + 1);
    assert h[..c + 1] == h[..c] + [h[c]];
    FileOfSnoc(h[..c], h[c]);
  }

  /** Recovery from a torn file: on every byte prefix of a segment, replay yields exactly the
      complete records when fewer than 8 bytes are left over, and fails otherwise. */
  lemma PrefixRecovery(h: seq<Payload>, n: nat, maxRecords: Option<nat>, checked: bool)
    requires Storable(h) && n <= |FileOf(h)|
    ensures var c := CompleteRecords(h, n);
            Replay(LogOf([], maxRecords), FileOf(h)[..n], checked)
            == if n - |FileOf(h[..c])| < 8 then Ok(LogOf(h[..c], maxRecords)) else Err
  {
    hide Replay, FileOf, LogOf, RecordBytes, CompleteRecords;
    var c := CompleteRecords(h, n);
    var whole := FileOf(h[..c]);
    FilePrefix(h, c);
    if c == |h| {
      assert h[..c] == h;
      assert FileOf(h)[..n] == FileOf(h);
      WholeFileRecovery(h, maxRecords, checked);
    } else {
      TornFile(h, c, n);
      ReplayWholeRecords(h[..c], maxRecords, RecordBytes(Record(c, h[c]))[..n - |whole|], checked);
      PartialRecordReplay(Record(c, h[c]), n - |whole|, LogOf(h[..c], maxRecords), checked);
    }
  }

  /** A clean restart rebuilds the in-memory log, and every stored offset matches. */
  lemma WholeFileRecovery(h: seq<Payload>, maxRecords: Option<nat>, checked: bool)
    requires Storable(h)
    ensures Replay(LogOf([], maxRecords), FileOf(h), checked) == Ok(LogOf(h, maxRecords))
  {
    ReplayWholeRecords(h, maxRecords, [], checked);
    assert FileOf(h) + [] == FileOf(h);
  }

  /** The payloads a replay appends, in order. */
  function Recovered(bytes: seq<byte>): Outcome<seq<Payload>>
    decreases |bytes|
  {
    if |bytes| < 8 then Ok([])
    else if |bytes| < 10 || |bytes| < 10 + U16At(bytes, 8) then Err
    else
      var end := 10 + U16At(bytes, 8);
      var rest :- Recovered(bytes[end..]);
      Ok([bytes[10..end]] + rest)
  }

  function Joined(h: seq<Payload>, rest: Outcome<seq<Payload>>): Outcome<seq<Payload>> {
    if rest.Ok? then Ok(h + rest.value) else rest
  }

  /** A replay (with the offset check off) is the appends of what is recovered. */
  lemma {:induction false} ReplayAppendsRecovered(h: seq<Payload>, maxRecords: Option<nat>, bytes: seq<byte>)
    ensures Replay(LogOf(h, maxRecords), bytes, false) ==
            var r := Recovered(bytes);
            if r.Ok? then Ok(LogOf(h + r.value, maxRecords)) else Err
    decreases |bytes|
  {
    hide LogOf, Appended;
    if |bytes| < 8 {
      assert h + [] == h;
    } else if |bytes| >= 10 && |bytes| >= 10 + U16At(bytes, 8) {
      var end := 10 + U16At(bytes, 8);
      AppendExtendsHistory(h, maxRecords, bytes[10..end]);
      ReplayAppendsRecovered(h + [bytes[10..end]], maxRecords, bytes[end..]);
      var rest := Recovered(bytes[end..]);
      if rest.Ok? {
        assert h + [bytes[10..end]] + rest.value == h + ([bytes[10..end]] + rest.value);
      }
    }
  }

  lemma {:induction false} RecoveredWholeRecords(h: seq<Payload>, rest: seq<byte>)
    requires Storable(h)
    ensures Recovered(FileOf(h) + rest) == var r := Recovered(rest); if r.Ok? then Ok(h + r.value) else Err
    decreases |h|
  {
    hide Recovered, RecordBytes;
    var r := Recovered(rest);
    if h == [] {
      assert FileOf(h) + rest == rest;
      if r.Ok? { assert h + r.value == r.value; }
      RecoveredNeverPanics(rest);
    } else {
      var n := |h| - 1;
      var rec := Record(n, h[n]);
      assert FileOf(h) + rest == FileOf(h[..n]) + (RecordBytes(rec) + rest);
      RecoveredWholeRecords(h[..n], RecordBytes(rec) + rest);
      RecoveredOne(rec, rest);
      if r.Ok? { assert h[..n] + ([h[n]] + r.value) == h + r.value; }
    }
  }

  lemma {:induction false} RecoveredNeverPanics(bytes: seq<byte>)
    ensures !Recovered(bytes).Panic?
    decreases |bytes|
  {
    if |bytes| >= 10 && |bytes| >= 10 + U16At(bytes, 8) {
      RecoveredNeverPanics(bytes[10 + U16At(bytes, 8)..]);
    }
  }

  lemma RecoveredOne(r: Record, rest: seq<byte>)
    requires |r.payload| <= U16_MAX && r.offset <= U64_MAX
    ensures Recovered(RecordBytes(r) + rest) ==
            var t := Recovered(rest); if t.Ok? then Ok([r.payload] + t.value) else Err
  {
    RecordBytesFields(r, rest);
    RecoveredNeverPanics(rest);
  }

  /** The file gives back the whole append history. */
  lemma FileGivesHistory(h: seq<Payload>)
    requires Storable(h)
    ensures Recovered(FileOf(h)) == Ok(h)
  {
    RecoveredWholeRecords(h, []);
    assert FileOf(h) + [] == FileOf(h) && h + [] == h;
  }

  class Segment {
    var bytes: seq<byte>

    constructor ()
      ensures bytes == []
    {
      bytes := [];
    }

    /** Fails, writing nothing, when the payload does not fit the u16 length field. */
    method AppendRecord(r: Record) returns (ok: bool)
      modifies this
      ensures ok <==> |r.payload| <= U16_MAX
      ensures bytes == if ok then old(bytes) + RecordBytes(r) else old(bytes)
    {
      if |r.payload| > U16_MAX {
        return false;
      }
      bytes := bytes + Be(8, r.offset);
      bytes := bytes + Be(2, |r.payload|);
      bytes := bytes + r.payload;
      return true;
    }
  }

  /** One turn of the load loop, in file positions. */
  lemma ReplayAt(h: seq<Payload>, maxRecords: Option<nat>, file: seq<byte>, pos: nat, checked: bool)
    requires pos + 8 <= |file|
    ensures Replay(LogOf(h, maxRecords), file[pos..], checked) ==
            if |file| < pos + 10 || |file| < pos + 10 + U16At(file, pos + 8) then Err
            else if checked && U64At(file, pos) != |h| then Panic
            else
              var end := pos + 10 + U16At(file, pos + 8);
              Replay(LogOf(h + [file[pos + 10..end]], maxRecords), file[end..], checked)
  {
    var left := file[pos..];
    assert left[0..8] == file[pos..pos + 8];
    if |file| >= pos + 10 {
      assert left[8..10] == file[pos + 8..pos + 10];
      var len: nat := U16At(file, pos + 8);
      if |left| >= 10 + len {
        assert left[10..10 + len] == file[pos + 10..pos + 10 + len];
        assert left[10 + len..] == file[pos + 10 + len..];
        AppendExtendsHistory(h, maxRecords, left[10..10 + len]);
      }
    }
  }

  lemma RecoveredAt(h: seq<Payload>, file: seq<byte>, pos: nat)
    requires pos + 10 <= |file| && pos + 10 + U16At(file, pos + 8) <= |file|
    ensures var end := pos + 10 + U16At(file, pos + 8);
            Joined(h, Recovered(file[pos..])) == Joined(h + [file[pos + 10..end]], Recovered(file[end..]))
  {
    var left := file[pos..];
    assert left[8..10] == file[pos + 8..pos + 10];
    var len: nat := U16At(file, pos + 8);
    assert left[10..10 + len] == file[pos + 10..pos + 10 + len];
    assert left[10 + len..] == file[pos + 10 + len..];
    var rest := Recovered(file[pos + 10 + len..]);
    if rest.Ok? {
      assert h + [left[10..10 + len]] + rest.value == h + ([left[10..10 + len]] + rest.value);
    }
  }

  lemma RecoveredEnds(h: seq<Payload>, bytes: seq<byte>)
    requires |bytes| < 8
    ensures Joined(h, Recovered(bytes)) == Ok(h)
  {
    assert h + [] == h;
  }

  lemma JoinedNothing(r: Outcome<seq<Payload>>)
    ensures Joined([], r) == r
  {
    if r.Ok? {
      assert [] + r.value == r.value;
    }
  }

  lemma LogOfNext(h: seq<Payload>, maxRecords: Option<nat>)
    ensures LogOf(h, maxRecords).next == |h|
  {
  }

  /** The load loop. A segment is shorter than 2^64 bytes, so its record count fits a u64. */
  method LoadPartitionLog(file: seq<byte>, maxRecords: Option<nat>, checked: bool) returns (r: Outcome<PartitionLog>)
    requires |file| < U64_MAX
    ensures var spec := Replay(LogOf([], maxRecords), file, checked);
            match r {
              case Ok(log) =>
                && log.Valid() && fresh(log) && log.maxRecords == maxRecords
                && spec == Ok(log.Value()) && Recovered(file) == Ok(log.history)
              case Err => spec == Err
              case Panic => spec == Panic
            }
  {
    hide LogOf;
    var log := new PartitionLog(maxRecords);
    var pos := 0;
    assert file[0..] == file;
    JoinedNothing(Recovered(file));
    while |file| - pos >= 8
      invariant pos <= |file|
      invariant log.Valid() && fresh(log) && log.maxRecords == maxRecords && |log.history| <= pos
      invariant Replay(LogOf([], maxRecords), file, checked)
             == Replay(LogOf(log.history, maxRecords), file[pos..], checked)
      invariant Recovered(file) == Joined(log.history, Recovered(file[pos..]))
      decreases |file| - pos
    {
      hide Replay, Recovered, Joined;
      ReplayAt(log.history, maxRecords, file, pos, checked);
      LogOfNext(log.history, maxRecords);
      if |file| - pos < 10 {
        return Err;
      }
      var len: nat := U16At(file, pos + 8);
      if |file| - pos < 10 + len {
        return Err;
      }
      if checked && U64At(file, pos) != log.nextOffset {
        return Panic;
      }
      RecoveredAt(log.history, file, pos);
      var appended := log.Append(file[pos + 10..pos + 10 + len]);
      pos := pos + 10 + len;
    }
    RecoveredEnds(log.history, file[pos..]);
    return Ok(log);
  }
}
