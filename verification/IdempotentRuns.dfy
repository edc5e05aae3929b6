/** Every run of plain and idempotent produces with retries, gaps, stale sequences and clean
    restarts, on one partition. */
module IdempotentRuns {
  import opened Bytes
  import opened PartitionLogs
  import opened LogStore
  import opened Hosts
  import Messages
  import RequestWire

  datatype Request =
    | PlainProduce(payload: Payload)
    | IdempotentProduce(producer: ProducerId, sequence: u64, payload: Payload)
    | Restart

  /** Who had a record appended. */
  datatype Origin = Plain | By(producer: ProducerId, sequence: u64)

  /** A partition with the origin of every record in its log. */
  datatype Traced = Traced(ledger: Ledger, origins: seq<Origin>)
  {
    function Log(): seq<Payload> {
      ledger.replica.h
    }
  }

  function Start(inRange: bool): Traced {
    Traced(Ledger(Empty(inRange), map[], map[]), [])
  }

  function Served(t: Traced, q: Request, limit: nat): (Traced, Outcome<nat>) {
    match q
    case PlainProduce(payload) =>
      var (replica, r) := Produced(t.ledger.replica, payload, limit);
      (Traced(t.ledger.(replica := replica), if replica.h == t.Log() then t.origins else t.origins + [Plain]), r)
    case IdempotentProduce(producer, sequence, payload) =>
      var (ledger, r) := ProducedOnce(t.ledger, producer, sequence, payload, limit);
      (Traced(ledger, if ledger.replica.h == t.Log() then t.origins else t.origins + [By(producer, sequence)]), r)
    case Restart =>
      var ledger := Reopened(t.ledger);
      (Traced(ledger, t.origins[..Min(|t.origins|, |ledger.replica.h|)]), Err)
  }

  function Run(inRange: bool, limit: nat, qs: seq<Request>): Traced {
    if qs == [] then Start(inRange) else Served(Run(inRange, limit, qs[..|qs| - 1]), qs[|qs| - 1], limit).0
  }

  /** The request appends a payload that its segment cannot hold. */
  predicate Overflows(t: Traced, q: Request, limit: nat) {
    match q
    case PlainProduce(payload) => Drifts(payload, limit)
    case IdempotentProduce(producer, sequence, payload) =>
      Drifts(payload, limit) && Resolve(t.ledger.entries, producer, sequence) == Ok(Append)
    case Restart => false
  }

  /** A request whose payload the limit refuses or the segment holds. */
  predicate Fits(q: Request, limit: nat) {
    q.Restart? || !Drifts(q.payload, limit)
  }

  /** A request that was read from a connection, for some topic and partition. */
  ghost predicate Framed(q: Request) {
    match q
    case PlainProduce(payload) =>
      exists topic, partition :: RequestWire.Arrives(Messages.Produce(topic, partition, payload))
    case IdempotentProduce(producer, sequence, payload) =>
      exists topic, partition ::
        RequestWire.Arrives(Messages.IdempotentProduce(topic, partition, producer, sequence, payload))
    case Restart => true
  }

  /** What arrives in a frame fits, whatever the limit. */
  lemma FramedFits(q: Request, limit: nat)
    requires Framed(q)
    ensures Fits(q, limit)
  {
    hide RequestWire.Arrives;
    match q
    case PlainProduce(payload) =>
      var topic, partition :| RequestWire.Arrives(Messages.Produce(topic, partition, payload));
      RequestWire.FramesBoundPayloads(Messages.Produce(topic, partition, payload));
    case IdempotentProduce(producer, sequence, payload) =>
      var topic, partition :|
        RequestWire.Arrives(Messages.IdempotentProduce(topic, partition, producer, sequence, payload));
      RequestWire.FramesBoundPayloads(Messages.IdempotentProduce(topic, partition, producer, sequence, payload));
    case Restart =>
  }

  /** Sequence `s` of producer `p` has been appended. */
  ghost predicate Appended(origins: seq<Origin>, p: ProducerId, s: u64) {
    By(p, s) in origins
  }

  predicate SameProducer(a: Origin, b: Origin) {
    a.By? && b.By? && a.producer == b.producer
  }

  /** Exactly once, in order: for every producer in the table the appended sequences are
      `0..last`, at strictly increasing offsets, and the table points at the last one. */
  ghost predicate ExactlyOnce(origins: seq<Origin>, entries: map<ProducerId, Entry>) {
    && (forall p :: p in entries ==>
          entries[p].offset < |origins| && origins[entries[p].offset] == By(p, entries[p].sequence))
    && (forall p, s: u64 :: Appended(origins, p, s) <==> p in entries && s <= entries[p].sequence)
    && (forall i, j :: 0 <= i < j < |origins| && SameProducer(origins[i], origins[j]) ==>
          origins[i].sequence < origins[j].sequence)
  }

  /** Log, segment, table and table files agree. */
  ghost predicate Consistent(t: Traced) {
    && InStep(t.ledger.replica) && (t.ledger.replica.Reloads() || t.Log() == [])
    && |t.origins| == |t.Log()|
    && (forall p :: p in t.ledger.entries <==> p in t.ledger.disk)
    && (forall p :: p in t.ledger.entries ==> t.ledger.disk[p] == EntryBytes(t.ledger.entries[p]))
    && (forall p :: p in t.ledger.entries ==> t.ledger.entries[p].offset < |t.Log()|)
  }

  lemma AppendPlain(origins: seq<Origin>, entries: map<ProducerId, Entry>)
    requires ExactlyOnce(origins, entries)
    ensures ExactlyOnce(origins + [Plain], entries)
  {
    forall p, s: u64 ensures Appended(origins + [Plain], p, s) <==> Appended(origins, p, s) {
    }
  }

  lemma AppendNext(origins: seq<Origin>, entries: map<ProducerId, Entry>, p: ProducerId, s: u64)
    requires ExactlyOnce(origins, entries)
    requires Resolve(entries, p, s) == Ok(Append)
    ensures ExactlyOnce(origins + [By(p, s)], entries[p := Entry(s, |origins|)])
  {
    var after, table := origins + [By(p, s)], entries[p := Entry(s, |origins|)];
    forall q, r: u64 ensures Appended(after, q, r) <==> q in table && r <= table[q].sequence {
      assert Appended(after, q, r) <==> Appended(origins, q, r) || By(q, r) == By(p, s);
    }
    forall i, j | 0 <= i < j < |after| && SameProducer(after[i], after[j])
      ensures after[i].sequence < after[j].sequence
    {
      if j == |origins| {
        assert Appended(origins, p, after[i].sequence);
      }
    }
  }

  lemma ProducePlainKeeps(t: Traced, payload: Payload, limit: nat)
    requires Consistent(t) && |t.Log()| < U64_MAX && t.ledger.replica.inRange
    ensures Consistent(Served(t, PlainProduce(payload), limit).0) <==> !Drifts(payload, limit)
  {
    hide FileOf, RecordBytes, Recovered, EntryBytes;
    ProduceInStep(t.ledger.replica, payload, limit);
  }

  lemma ProduceOnceKeeps(t: Traced, producer: ProducerId, sequence: u64, payload: Payload, limit: nat)
    requires Consistent(t) && |t.Log()| < U64_MAX && t.ledger.replica.inRange
    ensures var q := IdempotentProduce(producer, sequence, payload);
            Consistent(Served(t, q, limit).0) <==> !Overflows(t, q, limit)
  {
    hide FileOf, RecordBytes, Recovered, EntryBytes;
    ProduceInStep(t.ledger.replica, payload, limit);
  }

  lemma RestartKeeps(t: Traced, limit: nat)
    requires Consistent(t)
    ensures Served(t, Restart, limit).0 == t
  {
    hide FileOf, Recovered, EntryBytes, EntryOf;
    RestartKeepsRecords(t.ledger.replica);
    forall p | p in t.ledger.entries
      ensures |EntryBytes(t.ledger.entries[p])| == 16 && EntryOf(EntryBytes(t.ledger.entries[p])) == t.ledger.entries[p]
    {
      EntryRoundTrip(t.ledger.entries[p]);
    }
    assert Reloaded(t.ledger.disk) == t.ledger.entries;
    assert t.origins[..|t.origins|] == t.origins;
  }

  lemma ServedExactlyOnce(t: Traced, q: Request, limit: nat)
    requires Consistent(t) && Fits(q, limit) && ExactlyOnce(t.origins, t.ledger.entries)
    ensures ExactlyOnce(Served(t, q, limit).0.origins, Served(t, q, limit).0.ledger.entries)
  {
    hide ExactlyOnce, FileOf, RecordBytes, EntryBytes, Recovered;
    match q
    case PlainProduce(payload) =>
      AppendPlain(t.origins, t.ledger.entries);
    case IdempotentProduce(producer, sequence, payload) =>
      if Resolve(t.ledger.entries, producer, sequence) == Ok(Append) {
        AppendNext(t.origins, t.ledger.entries, producer, sequence);
      }
    case Restart =>
      RestartKeeps(t, limit);
  }

  lemma LogGrowsByOne(t: Traced, q: Request, limit: nat)
    requires Consistent(t)
    ensures |Served(t, q, limit).0.Log()| <= |t.Log()| + 1
    ensures Served(t, q, limit).0.ledger.replica.inRange == t.ledger.replica.inRange
  {
    hide FileOf, RecordBytes, EntryBytes, Recovered;
    if q.Restart? {
      RestartKeeps(t, limit);
    }
  }

  /** In every run, each producer's accepted sequences are exactly `0..last`, each appended once
      at strictly increasing offsets, and log, segment and table agree. */
  lemma {:induction false} EveryRunIsExactlyOnce(limit: nat, qs: seq<Request>)
    requires |qs| < U64_MAX && forall i :: 0 <= i < |qs| ==> Fits(qs[i], limit)
    ensures var t := Run(true, limit, qs);
            && Consistent(t) && ExactlyOnce(t.origins, t.ledger.entries)
            && |t.Log()| <= |qs| && t.ledger.replica.inRange
    decreases |qs|
  {
    if qs == [] {
    } else {
      hide Consistent, ExactlyOnce, Served, Fits;
      EveryRunIsExactlyOnce(limit, qs[..|qs| - 1]);
      var t, q := Run(true, limit, qs[..|qs| - 1]), qs[|qs| - 1];
      LogGrowsByOne(t, q, limit);
      ServedExactlyOnce(t, q, limit);
      ServedConsistent(t, q, limit);
      FitsNeverOverflows(t, q, limit);
    }
  }

  /** The same for every run of requests that arrived in frames, under any limit. */
  lemma EveryFramedRunIsExactlyOnce(limit: nat, qs: seq<Request>)
    requires |qs| < U64_MAX && forall i :: 0 <= i < |qs| ==> Framed(qs[i])
    ensures var t := Run(true, limit, qs);
            Consistent(t) && ExactlyOnce(t.origins, t.ledger.entries)
  {
    hide Framed, Fits, Consistent, ExactlyOnce, Run;
    forall i | 0 <= i < |qs| ensures Fits(qs[i], limit) {
      FramedFits(qs[i], limit);
    }
    EveryRunIsExactlyOnce(limit, qs);
  }

  lemma FitsNeverOverflows(t: Traced, q: Request, limit: nat)
    requires Fits(q, limit)
    ensures !Overflows(t, q, limit)
  {
  }

  /** One request keeps log, segment, table and table files in agreement exactly when it does not
      append a payload that the segment cannot hold. */
  lemma ServedConsistent(t: Traced, q: Request, limit: nat)
    requires Consistent(t) && |t.Log()| < U64_MAX && t.ledger.replica.inRange
    ensures Consistent(Served(t, q, limit).0) <==> !Overflows(t, q, limit)
  {
    hide Consistent, Served, Resolve;
    match q
    case PlainProduce(payload) => ProducePlainKeeps(t, payload, limit);
    case IdempotentProduce(producer, sequence, payload) => ProduceOnceKeeps(t, producer, sequence, payload, limit);
    case Restart => RestartKeeps(t, limit);
  }

  /** After any run: a payload over the limit is refused; else retrying the last accepted sequence
      changes nothing and returns the offset at which that very sequence was appended, and any
      other sequence but the next one is refused. */
  lemma RetryReturnsOriginalOffset(limit: nat, qs: seq<Request>, p: ProducerId, s: u64, payload: Payload)
    requires |qs| < U64_MAX && forall i :: 0 <= i < |qs| ==> Fits(qs[i], limit)
    requires Fits(IdempotentProduce(p, s, payload), limit)
    ensures var t := Run(true, limit, qs);
            var (t', r) := Served(t, IdempotentProduce(p, s, payload), limit);
            var next := if p in t.ledger.entries then t.ledger.entries[p].sequence + 1 else 0;
            if |payload| > limit then r == Err && t' == t
            else
              && (s == next <==> r == Ok(|t.Log()|) && t'.Log() == t.Log() + [payload])
              && (s != next ==> t' == t)
              && (s + 1 == next ==> r.Ok? && r.value < |t.origins| && t.origins[r.value] == By(p, s))
              && (s != next && s + 1 != next ==> r == Err)
  {
    hide FileOf, RecordBytes, EntryBytes, Recovered, Run;
    EveryRunIsExactlyOnce(limit, qs);
    var t := Run(true, limit, qs);
    assert t.Log() + [payload] != t.Log();
  }

  /** On a partition id at or above the partition count a restart drops the log but not the
      producer table: the producer's next sequence is accepted at an offset already used. */
  lemma OutOfRangeReusesOffsets(limit: nat, p: ProducerId, x: Payload, y: Payload)
    requires |x| <= Min(limit, U16_MAX) && |y| <= Min(limit, U16_MAX)
    ensures var t0 := Start(false);
            var (t1, first) := Served(t0, IdempotentProduce(p, 0, x), limit);
            var (t2, _) := Served(t1, Restart, limit);
            var (t3, second) := Served(t2, IdempotentProduce(p, 1, y), limit);
            first == Ok(0) && second == Ok(0) && t3.Log() == [y]
  {
    hide FileOf, RecordBytes, Recovered;
    EntryRoundTrip(Entry(0, 0));
  }

  /** With a payload limit above 65535, a caller inside the process can hand over a payload that
      the segment cannot hold (no frame carries one): it is appended in memory at every retry,
      and never acknowledged. */
  lemma OversizedPayloadAppendedAgain(limit: nat, p: ProducerId, payload: Payload)
    requires U16_MAX < |payload| <= limit
    ensures var (t1, first) := Served(Start(true), IdempotentProduce(p, 0, payload), limit);
            var (t2, second) := Served(t1, IdempotentProduce(p, 0, payload), limit);
            first == Err && second == Err && t2.Log() == [payload, payload]
  {
  }
}
