/** The stress client's paging loop. It drops the codec byte of a response only when that says LZ4,
    so it reads an uncompressed response one byte off. */
module StressClient {
  import opened Bytes
  import opened PartitionLogs
  import opened LogStore
  import opened FetchBatch
  import opened Paging
  import opened Messages
  import opened Frames
  import opened FetchWire

  /** What the client makes of a response. */
  function StressReceived(wire: seq<byte>, lz4: Decompressor): Outcome<seq<Record>> {
    var (m, _) :- ReadMessage(wire);
    if m.RFetch? then StressDecode(m.bytes, lz4) else Err
  }

  /** The bytes of a response that arrive: all of them, or the beginning that the length byte counts. */
  lemma ResponseArrivesAsPrefix(rs: seq<Record>)
    ensures var bytes := WrapUncompressed(BatchOf(rs));
            var length := (1 + |bytes|) % 0x100;
            var r := ReadMessage(ResponseWire(rs));
            if length == 0 then r == Err else r.Ok? && r.value.0 == RFetch(bytes[..length - 1])
  {
    hide BatchOf, ParseFrame;
    var bytes := WrapUncompressed(BatchOf(rs));
    var wire := ResponseWire(rs);
    var length: nat := wire[0];
    if length == 0 {
      NothingParses();
      assert wire[1..1] == [];
    } else {
      FetchBody(bytes[..length - 1]);
      assert wire[1..1 + length] == [105] + bytes[..length - 1];
    }
  }

  /** One byte off, the count field reads as the number of whole 256s. */
  lemma MisreadCount(rs: seq<Record>, n: nat)
    requires n <= |WrapUncompressed(BatchOf(rs))|
    ensures var r := ParseBatch(WrapUncompressed(BatchOf(rs))[..n]);
            && !r.Panic? && (r.Ok? ==> |r.value| == BatchCount(rs) / 0x100)
            && (n >= 2 && BatchCount(rs) < 0x100 ==> r == Ok([]))
  {
    hide Body, Be;
    var count := BatchCount(rs);
    var w := WrapUncompressed(BatchOf(rs))[..n];
    if n >= 2 {
      TwoBytes(count);
      assert w[0] == 0 && w[1] == count / 0x100;
      assert w[0..2] == [0, count / 0x100];
      assert FromBe(w[0..2]) == count / 0x100 by {
        assert w[0..2][..1] == [0];
        assert FromBe([0]) == 0;
      }
    }
  }

  /** The client never gets all records of a page, unless there are none. */
  lemma StressReceivesFewer(rs: seq<Record>, lz4: Decompressor)
    ensures var r := StressReceived(ResponseWire(rs), lz4);
            && !r.Panic?
            && (r.Ok? ==> |r.value| == BatchCount(rs) / 0x100)
            && (rs == [] ==> r == Ok([]))
  {
    hide BatchOf, ParseBatch, ReadMessage, ResponseWire;
    ResponseArrivesAsPrefix(rs);
    var bytes := WrapUncompressed(BatchOf(rs));
    var length := (1 + |bytes|) % 0x100;
    if length > 0 {
      MisreadCount(rs, length - 1);
      assert length > 1 ==> bytes[..length - 1][0] == CODEC_NONE;
    }
    if rs == [] {
      EmptyBatch();
    }
  }

  lemma EmptyBatch()
    ensures |BatchOf([])| == 2
  {
    var none: seq<Record> := [];
    assert none[..0] == none;
  }

  /** One request of the client, which asks for at most 64 bytes. */
  function StressPage(log: Log, offset: nat, maxBytes: u32, lz4: Decompressor): Outcome<seq<Record>> {
    StressReceived(ResponseWire(Fetched(log, offset, Min(maxBytes, 64))), lz4)
  }

  datatype Progress = Progress(all: seq<Record>, offset: nat)

  /** The client's loop from `p` on, over a connection whose peer answers `answers` more requests
      and then hangs up, which the next request finds out. */
  function StressAll(log: Log, maxBytes: u32, lz4: Decompressor, p: Progress, answers: nat): Outcome<seq<Record>>
    decreases answers
  {
    if answers == 0 then Err
    else
      var page :- StressPage(log, p.offset, maxBytes, lz4);
      if page == [] then Ok(p.all)
      else StressAll(log, maxBytes, lz4, Progress(p.all + page, page[|page| - 1].offset + 1), answers - 1)
  }

  const Begin := Progress([], 0)

  method FetchBatchOnce(log: PartitionLog, offset: nat, maxBytes: u32, lz4: Decompressor)
    returns (r: Outcome<seq<Record>>)
    requires log.Valid()
    ensures r == StressPage(log.Value(), offset, maxBytes, lz4)
  {
    hide StressDecode, ReadMessage, BatchOf;
    var fetched := log.Fetch(offset, if maxBytes <= 64 then maxBytes else 64);
    var batch := EncodeRecords(fetched);
    var m := ReadMessage(WireV1([105] + WrapUncompressed(batch)));
    if !m.Ok? {
      return m.PropagateFailure();
    }
    if !m.value.0.RFetch? {
      return Err;
    }
    return StressDecode(m.value.0.bytes, lz4);
  }

  method FetchAll(log: PartitionLog, maxBytes: u32, lz4: Decompressor, answers: nat) returns (r: Outcome<seq<Record>>)
    requires log.Valid()
    ensures r == StressAll(log.Value(), maxBytes, lz4, Begin, answers)
  {
    hide StressPage;
    var offset, all := 0, [];
    for i := 0 to answers
      invariant StressAll(log.Value(), maxBytes, lz4, Begin, answers)
             == StressAll(log.Value(), maxBytes, lz4, Progress(all, offset), answers - i)
    {
      var page := FetchBatchOnce(log, offset, maxBytes, lz4);
      if !page.Ok? {
        return page;
      }
      if page.value == [] {
        return Ok(all);
      }
      all, offset := TakePage(all, offset, page.value);
    }
    return Err;
  }

  /** Either some, but not all, of the records in order, with the next one to be asked for; or
      something that is no beginning of the log. */
  ghost predicate Short(h: seq<Payload>, maxRecords: Option<nat>, p: Progress) {
    var records := LogOf(h, maxRecords).records;
    p.all <= records ==>
      && |p.all| < |records|
      && p.offset == if p.all == [] then 0 else p.all[|p.all| - 1].offset + 1
  }

  lemma TailAfter(h: seq<Payload>, maxRecords: Option<nat>, k: nat, offset: nat)
    requires k <= |LogOf(h, maxRecords).records|
    requires offset == if k == 0 then 0 else LogOf(h, maxRecords).records[k - 1].offset + 1
    ensures Tail(LogOf(h, maxRecords), offset) == LogOf(h, maxRecords).records[k..]
  {
    TailOfHistory(h, maxRecords, offset);
  }

  lemma StaysShort(h: seq<Payload>, maxRecords: Option<nat>, maxBytes: u32, lz4: Decompressor, p: Progress)
    requires Short(h, maxRecords, p)
    requires var page := StressPage(LogOf(h, maxRecords), p.offset, maxBytes, lz4); page.Ok? && page.value != []
    ensures var page := StressPage(LogOf(h, maxRecords), p.offset, maxBytes, lz4).value;
            Short(h, maxRecords, Progress(p.all + page, page[|page| - 1].offset + 1))
  {
    hide LogOf, Tail, StressReceived, ResponseWire, Fetched;
    var log := LogOf(h, maxRecords);
    var page := StressPage(log, p.offset, maxBytes, lz4).value;
    if p.all + page <= log.records {
      assert p.all <= p.all + page;
      var k := |p.all|;
      assert k > 0 ==> p.all[k - 1] == log.records[k - 1];
      TailAfter(h, maxRecords, k, p.offset);
      StressReceivesFewer(Fetched(log, p.offset, Min(maxBytes, 64)), lz4);
    }
  }

  lemma {:induction false} NeverComplete(h: seq<Payload>, maxRecords: Option<nat>, maxBytes: u32, lz4: Decompressor,
                                         p: Progress, answers: nat)
    requires LogOf(h, maxRecords).records != [] && Short(h, maxRecords, p)
    ensures StressAll(LogOf(h, maxRecords), maxBytes, lz4, p, answers) != Ok(LogOf(h, maxRecords).records)
    decreases answers
  {
    hide LogOf, StressPage;
    if answers > 0 {
      var page := StressPage(LogOf(h, maxRecords), p.offset, maxBytes, lz4);
      if page.Ok? && page.value != [] {
        hide Short;
        StaysShort(h, maxRecords, maxBytes, lz4, p);
        NeverComplete(h, maxRecords, maxBytes, lz4,
                      Progress(p.all + page.value, page.value[|page.value| - 1].offset + 1), answers - 1);
      }
    }
  }

  /** Whatever the log, the page budget and the number of requests the peer answers: the client
      returns the retained records exactly when there are none and the first request is answered. */
  lemma StressClientReadsNothingExactly(h: seq<Payload>, maxRecords: Option<nat>, maxBytes: u32, lz4: Decompressor,
                                        answers: nat)
    ensures var log := LogOf(h, maxRecords);
            StressAll(log, maxBytes, lz4, Begin, answers) == Ok(log.records) <==> log.records == [] && answers > 0
  {
    hide LogOf, StressPage;
    var log := LogOf(h, maxRecords);
    if log.records != [] {
      NeverComplete(h, maxRecords, maxBytes, lz4, Begin, answers);
    } else if answers > 0 {
      EmptyLogPages(h, maxRecords, maxBytes, lz4, 0);
    }
  }

  /** On one connection to the broker, which answers one request, the loop ends with nothing on its
      first page, or with an error on its first or second request; never with a record. */
  lemma OneConnectionEnds(log: Log, maxBytes: u32, lz4: Decompressor)
    ensures StressAll(log, maxBytes, lz4, Begin, 1)
            == if StressPage(log, 0, maxBytes, lz4) == Ok([]) then Ok([]) else Err
  {
    hide StressReceived, ResponseWire, Fetched;
    StressReceivesFewer(Fetched(log, 0, Min(maxBytes, 64)), lz4);
    var page := StressPage(log, 0, maxBytes, lz4);
    if page.Ok? && page.value != [] {
      assert StressAll(log, maxBytes, lz4, Progress([] + page.value, page.value[|page.value| - 1].offset + 1), 0)
        == Err;
    }
  }

  lemma EmptyLogPages(h: seq<Payload>, maxRecords: Option<nat>, maxBytes: u32, lz4: Decompressor, offset: nat)
    requires LogOf(h, maxRecords).records == []
    ensures StressPage(LogOf(h, maxRecords), offset, maxBytes, lz4) == Ok([])
  {
    hide LogOf, StressReceived, ResponseWire;
    StressReceivesFewer([], lz4);
    assert Fetched(LogOf(h, maxRecords), offset, Min(maxBytes, 64)) == [];
  }

  lemma {:induction false} OneByteEach(rs: seq<Record>)
    requires forall i :: 0 <= i < |rs| ==> rs[i].payload != []
    ensures |rs| <= TotalBytes(rs)
    decreases |rs|
  {
    if rs != [] {
      OneByteEach(rs[..|rs| - 1]);
    }
  }

  /** Without empty payloads a page has at most 64 records, and the client sees nothing of it: its
      loop ends at once, with nothing or an error. */
  lemma StressClientSeesNothing(h: seq<Payload>, maxRecords: Option<nat>, maxBytes: u32, lz4: Decompressor)
    requires forall i :: 0 <= i < |h| ==> h[i] != []
    ensures var r := StressPage(LogOf(h, maxRecords), 0, maxBytes, lz4);
            r == Ok([]) || r == Err
  {
    hide StressReceived, ResponseWire, Fetched, LogOf, Tail, RunLength, TotalBytes;
    var page := Fetched(LogOf(h, maxRecords), 0, Min(maxBytes, 64));
    var tail := Tail(LogOf(h, maxRecords), 0);
    TailOfHistory(h, maxRecords, 0);
    assert forall i :: 0 <= i < |page| ==> page[i] == tail[i];
    OneByteEach(page);
    StressReceivesFewer(page, lz4);
  }

  lemma {:induction false} OneByteRecords(rs: seq<Record>)
    requires forall i :: 0 <= i < |rs| ==> |rs[i].payload| == 1
    ensures TotalBytes(rs) == |rs|
    decreases |rs|
  {
    if rs != [] {
      OneByteRecords(rs[..|rs| - 1]);
    }
  }

  /** The client's budget of 64 payload bytes does not keep responses within a version 1 frame:
      twenty-four one-byte records fit the budget, and their response does not arrive as sent. */
  lemma SmallBudgetStillOverflows(h: seq<Payload>)
    requires |h| == 24 && forall i :: 0 <= i < |h| ==> |h[i]| == 1
    ensures var page := Fetched(LogOf(h, None), 0, 64);
            |page| == 24 && ReadMessage(ResponseWire(page)) != Ok((RFetch(WrapUncompressed(BatchOf(page))), []))
  {
    hide ReadMessage, ResponseWire, Fetched, RunLength, TotalBytes, BatchOf;
    var log := LogOf(h, None);
    var tail := Tail(log, 0);
    assert tail == Records(h, 0);
    OneByteRecords(tail);
    assert tail[..24] == tail;
    FetchedIsLongest(log, 0, 24, 64);
    ResponseIntactExactly(tail);
  }
}
