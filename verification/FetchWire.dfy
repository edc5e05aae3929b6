/** Fetch responses in version 1 frames: which pages reach the fetch consumer at all, and its
    paging loop over them. */
module FetchWire {
  import opened Bytes
  import opened PartitionLogs
  import opened LogStore
  import opened FetchBatch
  import opened Paging
  import opened Messages
  import opened Frames
  import opened Connections

  /** Records whose batch form is not cut. */
  predicate Batchable(rs: seq<Record>) {
    && |rs| <= U16_MAX && OffsetsFit(rs)
    && forall i :: 0 <= i < |rs| ==> |rs[i].payload| <= U16_MAX
  }

  lemma {:induction false} TotalBytesCons(rs: seq<Record>)
    requires rs != []
    ensures TotalBytes(rs) == |rs[0].payload| + TotalBytes(rs[1..])
    decreases |rs|
  {
    var n := |rs| - 1;
    if n > 0 {
      TotalBytesCons(rs[..n]);
      assert rs[1..][..n - 1] == rs[..n][1..];
    }
  }

  lemma {:induction false} BodySize(rs: seq<Record>)
    requires forall i :: 0 <= i < |rs| ==> |rs[i].payload| <= U16_MAX
    ensures |Body(rs)| == 10 * |rs| + TotalBytes(rs)
    decreases |rs|
  {
    if rs != [] {
      TotalBytesCons(rs);
      BodySize(rs[1..]);
    }
  }

  lemma BatchSize(rs: seq<Record>)
    requires Batchable(rs)
    ensures |BatchOf(rs)| == 2 + 10 * |rs| + TotalBytes(rs)
    ensures ParseBatch(BatchOf(rs)) == Ok(rs)
  {
    hide Body, TotalBytes, ParseBatch, Clip;
    assert rs[..BatchCount(rs)] == rs;
    BodySize(rs);
    BatchRoundTrip(rs);
    NothingClipped(rs);
  }

  lemma NothingClipped(rs: seq<Record>)
    requires forall r :: r in rs ==> |r.payload| <= U16_MAX
    ensures Clipped(rs) == rs
  {
    forall i | 0 <= i < |rs| ensures Clip(rs[i]) == rs[i] {
      assert rs[i].payload[..|rs[i].payload|] == rs[i].payload;
    }
  }

  lemma RecordRefusesPrefix(r: Record, n: nat, count: nat)
    requires r.offset <= U64_MAX && |r.payload| <= U16_MAX && n < |RecordBytes(r)| && count > 0
    ensures ParseBody(count, RecordBytes(r)[..n]) == Err
  {
    RecordBytesFields(r, []);
    assert RecordBytes(r) + [] == RecordBytes(r);
    if n >= 10 {
      assert RecordBytes(r)[..n][8..10] == RecordBytes(r)[8..10];
    }
  }

  lemma {:induction false} BodyRefusesPrefix(rs: seq<Record>, n: nat)
    requires Batchable(rs) && n < |Body(rs)|
    ensures ParseBody(|rs|, Body(rs)[..n]) == Err
    decreases |rs|
  {
    hide RecordBytes;
    var r := Clip(rs[0]);
    var first := RecordBytes(r);
    if n < |first| {
      assert Body(rs)[..n] == first[..n];
      RecordRefusesPrefix(r, n, |rs|);
    } else {
      var more := Body(rs[1..])[..n - |first|];
      assert Body(rs)[..n] == first + more;
      RecordBytesFields(r, more);
      BodyRefusesPrefix(rs[1..], n - |first|);
    }
  }

  /** A batch cut short is an error. */
  lemma BatchRefusesPrefix(rs: seq<Record>, n: nat)
    requires Batchable(rs) && n < |BatchOf(rs)|
    ensures ParseBatch(BatchOf(rs)[..n]) == Err
  {
    assert rs[..BatchCount(rs)] == rs;
    var b := BatchOf(rs);
    if n >= 2 {
      assert b[..n][0..2] == Be(2, |rs|) && b[..n][2..] == Body(rs)[..n - 2];
      WidthsRoundTrip();
      BodyRefusesPrefix(rs, n - 2);
    }
  }

  /** What the fetch consumer makes of a response: one it cannot read ends its loop, one it cannot
      decode aborts it. */
  function Received(wire: seq<byte>, lz4: Decompressor): Outcome<seq<Record>> {
    var (m, _) :- ReadMessage(wire);
    if !m.RFetch? then Err
    else
      var records := ConsumerDecode(m.bytes, lz4);
      if records.Ok? then records else Panic
  }

  lemma FetchBody(bytes: seq<byte>)
    ensures EncodeMessage(RFetch(bytes)) == Ok([105] + bytes)
    ensures ParseFrame([105] + bytes) == Ok(RFetch(bytes))
  {
    assert ([105] + bytes)[1..] == bytes;
  }

  /** The response message of a fetch. */
  function ResponseWire(rs: seq<Record>): seq<byte> {
    WireV1([105] + WrapUncompressed(BatchOf(rs)))
  }

  lemma ShortPageArrives(rs: seq<Record>, lz4: Decompressor)
    requires Batchable(rs) && |BatchOf(rs)| <= 253
    ensures Received(ResponseWire(rs), lz4) == Ok(rs)
  {
    hide BatchOf, ParseBatch, ParseFrame, EncodeMessage;
    BatchSize(rs);
    var bytes := WrapUncompressed(BatchOf(rs));
    FetchBody(bytes);
    var wire := ResponseWire(rs);
    var length: nat := wire[0];
    assert wire[1..1 + length] == [105] + bytes;
    assert bytes[1..] == BatchOf(rs);
  }

  lemma LongPageFails(rs: seq<Record>, lz4: Decompressor)
    requires Batchable(rs) && |BatchOf(rs)| > 253
    ensures Received(ResponseWire(rs), lz4) == if (2 + |BatchOf(rs)|) % 0x100 == 0 then Err else Panic
  {
    hide BatchOf, ParseBatch, ParseFrame, EncodeMessage;
    var bytes := WrapUncompressed(BatchOf(rs));
    var wire := ResponseWire(rs);
    var length: nat := wire[0];
    if length == 0 {
      NothingParses();
      assert wire[1..1] == [];
    } else {
      var cut := bytes[..length - 1];
      assert wire[1..1 + length] == [105] + cut;
      FetchBody(cut);
      CutResponseFails(rs, cut, lz4);
    }
  }

  lemma NothingParses()
    ensures ParseFrame([]) == Err && ParseBatch([]) == Err
  {
  }

  lemma CutResponseFails(rs: seq<Record>, cut: seq<byte>, lz4: Decompressor)
    requires Batchable(rs) && |cut| < |WrapUncompressed(BatchOf(rs))|
    requires cut == WrapUncompressed(BatchOf(rs))[..|cut|]
    ensures ConsumerDecode(cut, lz4) == Err
  {
    hide BatchOf, ParseBatch;
    if cut == [] {
      NothingParses();
    } else {
      assert cut[0] == CODEC_NONE && cut[1..] == BatchOf(rs)[..|cut| - 1];
      BatchRefusesPrefix(rs, |cut| - 1);
    }
  }

  /** Ten bytes a record plus the payload bytes. */
  function PageSize(rs: seq<Record>): nat {
    10 * |rs| + TotalBytes(rs)
  }

  /** What becomes of a page in a version 1 frame: it arrives up to 251 bytes. A longer one is cut,
      and aborts the consumer unless its length byte is zero, which ends the consumer's loop. */
  function PageFate(rs: seq<Record>): Outcome<seq<Record>> {
    if PageSize(rs) <= 251 then Ok(rs) else if (4 + PageSize(rs)) % 0x100 == 0 then Err else Panic
  }

  lemma PageArrivesExactly(rs: seq<Record>, lz4: Decompressor)
    requires Batchable(rs)
    ensures Received(ResponseWire(rs), lz4) == PageFate(rs)
  {
    hide Received, ResponseWire, BatchOf, TotalBytes;
    BatchSize(rs);
    if |BatchOf(rs)| <= 253 {
      ShortPageArrives(rs, lz4);
    } else {
      LongPageFails(rs, lz4);
    }
  }

  /** The response reaches any client unharmed exactly up to that size. */
  lemma ResponseIntactExactly(rs: seq<Record>)
    requires Batchable(rs)
    ensures ReadMessage(ResponseWire(rs)) == Ok((RFetch(WrapUncompressed(BatchOf(rs))), [])) <==> PageSize(rs) <= 251
  {
    hide BatchOf, ReadMessage, EncodeMessage, TotalBytes;
    BatchSize(rs);
    var bytes := WrapUncompressed(BatchOf(rs));
    FetchBody(bytes);
    MessageOnStream(RFetch(bytes), []);
    assert ResponseWire(rs) + [] == ResponseWire(rs);
  }

  // ---- The paging loop

  /** A batch holds what fits its count and length fields. */
  lemma SentPage(rs: seq<Record>)
    requires OffsetsFit(rs)
    ensures var page := Clipped(rs[..BatchCount(rs)]);
            Batchable(page) && BatchOf(page) == BatchOf(rs)
  {
    hide Body, Be;
    var taken := rs[..BatchCount(rs)];
    var page := Clipped(taken);
    assert page[..|page|] == page;
    BodyOfClipped(taken);
  }

  lemma {:induction false} BodyOfClipped(rs: seq<Record>)
    ensures Body(Clipped(rs)) == Body(rs)
    decreases |rs|
  {
    hide RecordBytes;
    if rs != [] {
      BodyOfClipped(rs[1..]);
      assert Clipped(rs)[1..] == Clipped(rs[1..]);
      assert Clip(Clip(rs[0])) == Clip(rs[0]);
    }
  }

  /** One fetch request and its response, through the batch codec, the codec byte and the frame. */
  method FetchPage(log: PartitionLog, from: nat, maxBytes: nat, lz4: Decompressor) returns (r: Outcome<seq<Record>>)
    requires log.Valid() && |log.history| <= U64_MAX
    ensures r == PageFate(Page(log.Value(), from, maxBytes))
    ensures r.Ok? && Storable(log.history) ==> PageSplitsTail(log.Value(), from, r.value)
  {
    hide Batchable, PageFate, BatchOf, ConsumerDecode, ParseBatch;
    var fetched := log.Fetch(from, maxBytes);
    FetchedOffsetsFit(log.history, log.maxRecords, from, maxBytes);
    SentPage(fetched);
    PageArrivesExactly(Page(log.Value(), from, maxBytes), lz4);
    FateOfPage(log.history, log.maxRecords, from, maxBytes);
    var batch := EncodeRecords(fetched);
    var wire := WireV1([105] + WrapUncompressed(batch));
    var m := ReadMessage(wire);
    if !m.Ok? {
      return m.PropagateFailure();
    }
    if !m.value.0.RFetch? {
      return Err;
    }
    var bytes := m.value.0.bytes;
    var unwrapped := UnwrapBatch(bytes, lz4);
    var records := DecodeRecords(if unwrapped.Ok? then unwrapped.value else bytes);
    assert records == ConsumerDecode(bytes, lz4) by { DecodedAs(bytes, lz4); }
    return if records.Ok? then records else Panic;
  }

  lemma DecodedAs(bytes: seq<byte>, lz4: Decompressor)
    ensures var unwrapped := UnwrapBatch(bytes, lz4);
            ConsumerDecode(bytes, lz4) == ParseBatch(if unwrapped.Ok? then unwrapped.value else bytes)
  {
  }

  lemma FateOfPage(h: seq<Payload>, maxRecords: Option<nat>, from: nat, maxBytes: nat)
    ensures var log := LogOf(h, maxRecords);
            var page := Page(log, from, maxBytes);
            PageFate(page).Ok? ==> PageFate(page).value == page && (Storable(h) ==> PageSplitsTail(log, from, page))
  {
    hide Page, PageSplitsTail, LogOf, PageSize;
    if Storable(h) {
      PageSplits(h, maxRecords, from, maxBytes);
    }
  }

  /** What the fetch consumer has read from offset `from` on when its peer answers `pages` requests
      of the connection, and the offset it has come to, unless a page ended or aborted it. */
  function Consumed(h: seq<Payload>, maxRecords: Option<nat>, from: nat, maxBytes: nat, pages: nat)
    : (seq<Record>, Outcome<nat>)
    decreases pages
  {
    if pages == 0 then ([], Ok(from))
    else
      var page := Page(LogOf(h, maxRecords), from, maxBytes);
      var fate := PageFate(page);
      if !fate.Ok? then ([], fate.PropagateFailure())
      else
        var next := if page == [] then from else page[|page| - 1].offset + 1;
        var (more, end) := Consumed(h, maxRecords, next, maxBytes, pages - 1);
        (page + more, end)
  }

  /** One turn of the loop: a page over 251 bytes ends the loop when its length byte is zero and aborts it
      otherwise, before anything of it is read; any other page is read, and the loop goes on behind it. */
  lemma TurnExactly(h: seq<Payload>, maxRecords: Option<nat>, from: nat, maxBytes: nat, pages: nat)
    requires pages > 0
    ensures var page := Page(LogOf(h, maxRecords), from, maxBytes);
            var (read, end) := Consumed(h, maxRecords, from, maxBytes, pages);
            if 10 * |page| + TotalBytes(page) > 251 then
              read == [] && end == if (10 * |page| + TotalBytes(page)) % 256 == 252 then Err else Panic
            else
              var next := if page == [] then from else page[|page| - 1].offset + 1;
              var (more, later) := Consumed(h, maxRecords, next, maxBytes, pages - 1);
              read == page + more && end == later
  {
    hide LogOf, Page, TotalBytes;
  }

  /** The fetch consumer's loop over a log that does not change, on a connection whose peer answers
      `pages` of its fetch requests and then hangs up. */
  method FetchLoop(log: PartitionLog, maxBytes: nat, lz4: Decompressor, pages: nat)
    returns (printed: seq<Record>, end: Outcome<nat>)
    requires log.Valid() && |log.history| <= U64_MAX
    ensures (printed, end) == Consumed(log.history, log.maxRecords, 0, maxBytes, pages)
  {
    hide LogOf, Page, PageSize, PageSplitsTail;
    var offset := 0;
    printed := [];
    ghost var spec := Consumed(log.history, log.maxRecords, 0, maxBytes, pages);
    assert [] + spec.0 == spec.0;
    for i := 0 to pages
      invariant var rest := Consumed(log.history, log.maxRecords, offset, maxBytes, pages - i);
                spec == (printed + rest.0, rest.1)
    {
      var page := FetchPage(log, offset, maxBytes, lz4);
      if !page.Ok? {
        assert printed + [] == printed;
        return printed, page.PropagateFailure();
      }
      FateOfPage(log.history, log.maxRecords, offset, maxBytes);
      ghost var was := printed;
      printed, offset := TakePage(printed, offset, page.value);
      ghost var more := Consumed(log.history, log.maxRecords, offset, maxBytes, pages - i - 1).0;
      assert was + (page.value + more) == printed + more;
    }
    assert printed + [] == printed;
    return printed, Ok(offset);
  }

  lemma NothingFits()
    ensures PageSize([]) == 0
  {
  }

  // ---- One connection to the broker

  /** Neither the commit nor any other version 1 message after the first fetch request of a
      connection is answered. */
  lemma CommitIsNotAnswered(peer: Peer, topicId: u16, offset: u64, maxBytes: u32, maxWaitMs: u32, later: seq<Message>)
    requires var fs := [V1Frame(Fetch(topicId, 0, offset, maxBytes, maxWaitMs))] + V1Frames(later);
             peer.answers(0, fs[0].0) && forall i :: 0 <= i < |fs| ==> Carries(fs[i].1, fs[i].0)
    ensures var fs := [V1Frame(Fetch(topicId, 0, offset, maxBytes, maxWaitMs))] + V1Frames(later);
            WriteAll(fs).Ok? && Answered(peer, 1, 0, WriteAll(fs).value) == fs[..1]
  {
    hide Carries, WriteAll, Answered;
    OneAnswer(peer, [V1Frame(Fetch(topicId, 0, offset, maxBytes, maxWaitMs))] + V1Frames(later));
  }

  function V1Frame(m: Message): (Frame, Format) {
    (Frame(0, m), V1)
  }

  function V1Frames(ms: seq<Message>): seq<(Frame, Format)> {
    seq(|ms|, i requires 0 <= i < |ms| => V1Frame(ms[i]))
  }

  lemma WholePage(rs: seq<Record>)
    requires PageSize(rs) <= 251
    ensures |rs| <= 25 && rs[..BatchCount(rs)] == rs && Clipped(rs) == rs
  {
    hide Clipped;
    forall r | r in rs ensures |r.payload| <= U16_MAX {
      PayloadWithinTotal(rs, r);
    }
    NothingClipped(rs);
  }

  lemma {:induction false} PayloadWithinTotal(rs: seq<Record>, r: Record)
    requires r in rs
    ensures |r.payload| <= TotalBytes(rs)
    decreases |rs|
  {
    var n := |rs| - 1;
    if r in rs[..n] {
      PayloadWithinTotal(rs[..n], r);
    }
  }

  /** The first page is the whole log exactly when it fits the page budget, as a single record
      always does. */
  lemma FirstPageWhole(h: seq<Payload>, maxRecords: Option<nat>, maxBytes: nat)
    ensures var records := LogOf(h, maxRecords).records;
            Fetched(LogOf(h, maxRecords), 0, maxBytes) == records <==>
              |records| <= 1 || Fits(TotalBytes(records), maxBytes)
  {
    hide TotalBytes, Fetched, Tail, LogOf, Fits;
    var records := LogOf(h, maxRecords).records;
    WholeTail(h, maxRecords);
    assert records[..|records|] == records;
    if |records| <= 1 || Fits(TotalBytes(records), maxBytes) {
      FetchedIsLongest(LogOf(h, maxRecords), 0, |records|, maxBytes);
    }
  }

  /** On one connection to the broker, which answers one fetch request, the consumer reads exactly
      the retained records exactly when ten bytes a record plus the payload bytes stay within 251 and
      the page budget does not split them; from a budget of 251 on the first condition is enough. */
  lemma OneConnectionReadsExactly(h: seq<Payload>, maxRecords: Option<nat>, maxBytes: nat)
    ensures var records := LogOf(h, maxRecords).records;
            var read := Consumed(h, maxRecords, 0, maxBytes, 1).0;
            && (read == records <==>
                PageSize(records) <= 251 && (|records| <= 1 || Fits(TotalBytes(records), maxBytes)))
            && (maxBytes >= 251 ==> (read == records <==> PageSize(records) <= 251))
  {
    hide TotalBytes, LogOf, Fetched, Clipped, Clip;
    var log := LogOf(h, maxRecords);
    var fetched := Fetched(log, 0, maxBytes);
    var page := Page(log, 0, maxBytes);
    FirstPageWhole(h, maxRecords, maxBytes);
    assert Consumed(h, maxRecords, 0, maxBytes, 1).0 == if PageSize(page) <= 251 then page + [] else [];
    assert page + [] == page;
    if PageSize(log.records) <= 251 {
      WholePage(log.records);
    }
    NothingFits();
    assert |page| <= |fetched| <= |log.records| by { FetchedNoLonger(h, maxRecords, maxBytes); }
    if page == log.records {
      assert |fetched| == |log.records|;
      FetchedNoLonger(h, maxRecords, maxBytes);
    }
  }

  lemma FetchedNoLonger(h: seq<Payload>, maxRecords: Option<nat>, maxBytes: nat)
    ensures var log := LogOf(h, maxRecords);
            var fetched := Fetched(log, 0, maxBytes);
            |fetched| <= |log.records| && (|fetched| == |log.records| ==> fetched == log.records)
  {
    hide LogOf, Tail, RunLength;
    WholeTail(h, maxRecords);
    var log := LogOf(h, maxRecords);
    assert log.records[..|log.records|] == log.records;
  }

  // ---- A peer that keeps the connection

  /** No page from `from` on is too long for its frame. */
  ghost predicate PagesFit(h: seq<Payload>, maxRecords: Option<nat>, from: nat, maxBytes: nat)
    requires Storable(h)
    decreases |h| - from
  {
    var page := Page(LogOf(h, maxRecords), from, maxBytes);
    PageSplits(h, maxRecords, from, maxBytes);
    page == [] || (PageSize(page) <= 251 && PagesFit(h, maxRecords, page[|page| - 1].offset + 1, maxBytes))
  }

  lemma {:induction false} ConsumedOfTail(h: seq<Payload>, maxRecords: Option<nat>, from: nat, maxBytes: nat,
                                          pages: nat)
    requires Storable(h)
    ensures var tail := Tail(LogOf(h, maxRecords), from);
            var read := Consumed(h, maxRecords, from, maxBytes, pages).0;
            read <= tail && (pages >= |tail| ==> (read == tail <==> PagesFit(h, maxRecords, from, maxBytes)))
    decreases pages
  {
    hide LogOf, Page, Tail, PageSize;
    PageSplits(h, maxRecords, from, maxBytes);
    NothingFits();
    var page := Page(LogOf(h, maxRecords), from, maxBytes);
    if pages > 0 && PageFate(page).Ok? {
      var next := if page == [] then from else page[|page| - 1].offset + 1;
      ConsumedOfTail(h, maxRecords, next, maxBytes, pages - 1);
    }
  }

  /** From a peer that answers as many requests as there are records, the consumer reads exactly the
      retained records exactly when every page fits its frame; from any peer, a beginning of them. */
  lemma KeptConnectionReadsExactly(h: seq<Payload>, maxRecords: Option<nat>, maxBytes: nat, pages: nat)
    requires Storable(h)
    ensures var records := LogOf(h, maxRecords).records;
            var read := Consumed(h, maxRecords, 0, maxBytes, pages).0;
            read <= records && (pages >= |records| ==> (read == records <==> PagesFit(h, maxRecords, 0, maxBytes)))
  {
    hide LogOf, Tail, Consumed, PagesFit;
    WholeTail(h, maxRecords);
    ConsumedOfTail(h, maxRecords, 0, maxBytes, pages);
  }
}
