/** One topic-partition as one broker hosts it: the in-memory log, its segment file, the
    idempotent-producer table, and whether the broker reloads the partition at start-up. */
module Hosts {
  import opened Bytes
  import opened PartitionLogs
  import opened LogStore

  /** `h` is everything appended since the log was opened; the log itself is `LogOf(h, max)`.
      A restart reloads the segment only if the broker's topic list names the topic (`listed`)
      and the partition id is below the topic's partition count (`inRange`). */
  datatype Replica = Replica(h: seq<Payload>, file: seq<byte>, listed: bool, inRange: bool)
  {
    predicate Reloads() {
      listed && inRange
    }
  }

  function Empty(inRange: bool): Replica {
    Replica([], [], false, inRange)
  }

  /** Log and segment hold the same records. */
  ghost predicate InStep(r: Replica) {
    Storable(r.h) && r.file == FileOf(r.h)
  }

  /** Memory first, then the segment; a payload over 65535 bytes reaches only memory. */
  function Extended(r: Replica, payload: Payload): Replica {
    r.(h := r.h + [payload],
       file := if |payload| <= U16_MAX then r.file + RecordBytes(Record(|r.h|, payload)) else r.file)
  }

  /** A produce: `limit` is the configured payload limit. Also lists the topic. */
  function Produced(r: Replica, payload: Payload, limit: nat): (Replica, Outcome<nat>) {
    if |payload| > limit then (r, Err)
    else (Extended(r.(listed := true), payload), if |payload| <= U16_MAX then Ok(|r.h|) else Err)
  }

  /** A replicated record: old offsets are ignored, gaps refused, the next one appended. */
  function Applied(r: Replica, isReplica: bool, offset: nat, payload: Payload): (Replica, Outcome<()>) {
    if !isReplica then (r, Err)
    else if offset < |r.h| then (r, Ok(()))
    else if offset > |r.h| then (r, Err)
    else (Extended(r, payload), if |payload| <= U16_MAX then Ok(()) else Err)
  }

  /** A produce over the limit is refused and changes nothing. Any other lists the topic and is appended,
      and answers with its offset, which is the number of records before it, unless the segment cannot
      hold it. */
  lemma ProducedExactly(r: Replica, payload: Payload, limit: nat)
    ensures var (r', answer) := Produced(r, payload, limit);
            if |payload| > limit then r' == r && answer == Err
            else
              && r'.h == r.h + [payload] && r'.listed && r'.inRange == r.inRange
              && (|payload| <= U16_MAX ==>
                    answer == Ok(|r.h|) && r'.file == r.file + RecordBytes(Record(|r.h|, payload)))
              && (|payload| > U16_MAX ==> answer == Err && r'.file == r.file)
  {
  }

  /** A replicated record is answered with Ok exactly when the broker is a replica and holds something
      at that offset already, or takes it now; it is appended exactly at the next offset. */
  lemma AppliedExactly(r: Replica, isReplica: bool, offset: nat, payload: Payload)
    ensures var (r', answer) := Applied(r, isReplica, offset, payload);
            && (answer.Ok? <==> isReplica && (offset < |r.h| || (offset == |r.h| && |payload| <= U16_MAX)))
            && (isReplica && offset == |r.h| ==> r'.h == r.h + [payload] && r'.listed == r.listed)
            && (!isReplica || offset != |r.h| ==> r' == r)
  {
  }

  /** A restart with an intact process exit: the log is reloaded only under those two conditions. */
  function Restarted(r: Replica): Replica {
    if !r.Reloads() then r.(h := [])
    else
      var recovered := Recovered(r.file);
      if recovered.Ok? then r.(h := recovered.value) else r
  }

  lemma ExtendedInStep(r: Replica, payload: Payload)
    requires InStep(r) && |r.h| < U64_MAX
    ensures InStep(Extended(r, payload)) <==> |payload| <= U16_MAX
  {
    FileOfSnoc(r.h, payload);
    if |payload| > U16_MAX {
      assert Extended(r, payload).h[|r.h|] == payload;
    }
  }

  /** The limit lets the payload through and the segment cannot hold it. */
  predicate Drifts(payload: Payload, limit: nat) {
    U16_MAX < |payload| <= limit
  }

  /** Log and segment stay in step over a produce exactly when it does not accept a payload
      that the segment cannot hold; with the limit at or below 65535 that is always. */
  lemma ProduceInStep(r: Replica, payload: Payload, limit: nat)
    requires InStep(r) && |r.h| < U64_MAX
    ensures InStep(Produced(r, payload, limit).0) <==> !Drifts(payload, limit)
  {
    ExtendedInStep(r.(listed := true), payload);
  }

  /** A restart keeps the records exactly when it reloads the segment or there are none. */
  lemma RestartKeepsRecords(r: Replica)
    requires InStep(r)
    ensures Restarted(r) == r <==> r.Reloads() || r.h == []
    ensures InStep(Restarted(r)) <==> r.Reloads() || r.h == []
  {
    FileGivesHistory(r.h);
    if r.h != [] {
      assert r.file != [];
    }
  }

  // ---- Idempotent producers

  type ProducerId = u64

  datatype Entry = Entry(sequence: u64, offset: nat)

  /** A partition with its producer table and the files the table is stored in. */
  datatype Ledger = Ledger(replica: Replica, entries: map<ProducerId, Entry>, disk: map<ProducerId, seq<byte>>)

  datatype Resolution = ReturnOffset(offset: nat) | Append

  function Resolve(entries: map<ProducerId, Entry>, producer: ProducerId, sequence: u64): Outcome<Resolution> {
    if producer in entries then
      var last := entries[producer];
      if sequence == last.sequence then Ok(ReturnOffset(last.offset))
      else if sequence < last.sequence then Err
      else
        var next: u64 := last.sequence + 1; // cannot overflow: `sequence` is larger than `last.sequence`
        if sequence > next then Err else Ok(Append)
    else if sequence != 0 then Err
    else Ok(Append)
  }

  function EntryBytes(e: Entry): seq<byte> {
    Be(8, e.sequence) + Be(8, e.offset)
  }

  function EntryOf(s: seq<byte>): Entry
    requires |s| >= 16
  {
    Entry(U64At(s, 0), U64At(s, 8))
  }

  lemma EntryRoundTrip(e: Entry)
    requires e.offset <= U64_MAX
    ensures |EntryBytes(e)| == 16 && EntryOf(EntryBytes(e)) == e
    ensures U64At(EntryBytes(e), 0) == e.sequence && U64At(EntryBytes(e), 8) == e.offset
  {
    assert EntryBytes(e)[0..8] == Be(8, e.sequence) && EntryBytes(e)[8..16] == Be(8, e.offset);
    WidthsRoundTrip();
  }

  function Recorded(s: Ledger, producer: ProducerId, e: Entry): Ledger {
    s.(entries := s.entries[producer := e], disk := s.disk[producer := EntryBytes(e)])
  }

  function ProducedOnce(s: Ledger, producer: ProducerId, sequence: u64, payload: Payload, limit: nat)
    : (Ledger, Outcome<nat>)
  {
    if |payload| > limit then (s, Err)
    else
      var r := Resolve(s.entries, producer, sequence);
      if !r.Ok? then (s, Err)
      else if r.value.ReturnOffset? then (s, Ok(r.value.offset))
      else
        var (replica, offset) := Produced(s.replica, payload, limit);
        var t := s.(replica := replica);
        if offset.Ok? then (Recorded(t, producer, Entry(sequence, offset.value)), offset) else (t, Err)
  }

  function Reloaded(disk: map<ProducerId, seq<byte>>): map<ProducerId, Entry> {
    map p | p in disk && |disk[p]| >= 16 :: EntryOf(disk[p])
  }

  function Reopened(s: Ledger): Ledger {
    s.(replica := Restarted(s.replica), entries := Reloaded(s.disk))
  }

  /** Start-up reads the producer table from its files, first the sequence and then the offset; what was
      in memory before does not matter. The log is gone unless topic and partition are to be reloaded. */
  lemma ReopenedExactly(s: Ledger, p: ProducerId)
    ensures var t := Reopened(s);
            && t.disk == s.disk && (p in t.entries <==> p in s.disk && |s.disk[p]| >= 16)
            && (p in t.entries ==>
                  t.entries[p].sequence == U64At(s.disk[p], 0) && t.entries[p].offset == U64At(s.disk[p], 8))
            && (t.replica.h == [] || (s.replica.listed && s.replica.inRange))
            && (s.replica.listed && s.replica.inRange && Recovered(s.replica.file).Ok? ==>
                  t.replica.h == Recovered(s.replica.file).value)
            && t.replica == s.replica.(h := t.replica.h)
  {
  }

  // ---- The process that does it

  class Host {
    const maxRecords: Option<nat>
    var log: PartitionLog
    var segment: Segment
    var listed: bool
    const inRange: bool
    var entries: map<ProducerId, Entry>
    var disk: map<ProducerId, seq<byte>>

    ghost predicate Valid()
      reads this, log
    {
      log.Valid() && log.maxRecords == maxRecords
    }

    ghost function Value(): Ledger
      reads this, log, segment
    {
      Ledger(Replica(log.history, segment.bytes, listed, inRange), entries, disk)
    }

    constructor (maxRecords: Option<nat>, inRange: bool)
      ensures Valid() && Value() == Ledger(Empty(inRange), map[], map[])
      ensures fresh(log) && fresh(segment) && this.maxRecords == maxRecords
    {
      this.maxRecords, this.inRange := maxRecords, inRange;
      var l := new PartitionLog(maxRecords);
      var f := new Segment();
      log, segment, listed, entries, disk := l, f, false, map[], map[];
    }

    method AppendLog(payload: Payload, limit: nat) returns (r: Outcome<nat>)
      requires Valid() && |log.history| < U64_MAX
      modifies this, log, segment
      ensures Valid() && log == old(log) && segment == old(segment)
      ensures var (replica, offset) := Produced(old(Value()).replica, payload, limit);
              Value() == old(Value()).(replica := replica) && r == offset
    {
      LogOfNext(log.history, maxRecords);
      if |payload| > limit {
        return Err;
      }
      listed := true;
      var offset := log.Append(payload);
      var ok := segment.AppendRecord(Record(offset, payload));
      if !ok {
        return Err;
      }
      return Ok(offset);
    }

    method ProduceIdempotent(producer: ProducerId, sequence: u64, payload: Payload, limit: nat)
      returns (r: Outcome<nat>)
      requires Valid() && |log.history| < U64_MAX
      modifies this, log, segment
      ensures Valid() && log == old(log) && segment == old(segment)
      ensures (Value(), r) == ProducedOnce(old(Value()), producer, sequence, payload, limit)
    {
      if |payload| > limit {
        return Err;
      }
      var action := Resolve(entries, producer, sequence);
      if !action.Ok? {
        return Err;
      }
      if action.value.ReturnOffset? {
        return Ok(action.value.offset);
      }
      r := AppendLog(payload, limit);
      if r.Ok? {
        entries := entries[producer := Entry(sequence, r.value)];
        disk := disk[producer := EntryBytes(Entry(sequence, r.value))];
      }
    }

    method ApplyReplica(isReplica: bool, offset: nat, payload: Payload) returns (r: Outcome<()>)
      requires Valid() && |log.history| < U64_MAX
      modifies this, log, segment
      ensures Valid() && log == old(log) && segment == old(segment)
      ensures var (replica, outcome) := Applied(old(Value()).replica, isReplica, offset, payload);
              Value() == old(Value()).(replica := replica) && r == outcome
    {
      LogOfNext(log.history, maxRecords);
      if !isReplica {
        return Err;
      }
      if offset < log.nextOffset {
        return Ok(());
      }
      if offset > log.nextOffset {
        return Err;
      }
      var appended := log.Append(payload);
      var ok := segment.AppendRecord(Record(offset, payload));
      return if ok then Ok(()) else Err;
    }

    /** Start-up: reload the producer table, and the log if its conditions hold. Fails on a short
        table file or a torn segment. */
    method Reopen() returns (ok: bool)
      requires |segment.bytes| < U64_MAX
      modifies this
      ensures ok ==> Valid() && Value() == Reopened(old(Value()))
      ensures !ok <==> (old(Value().replica.Reloads()) && !Recovered(segment.bytes).Ok?)
                       || exists p :: p in disk && |disk[p]| < 16
    {
      if exists p :: p in disk && |disk[p]| < 16 {
        return false;
      }
      if listed && inRange {
        var loaded := LoadPartitionLog(segment.bytes, maxRecords, false);
        if !loaded.Ok? {
          ReplayAppendsRecovered([], maxRecords, segment.bytes);
          return false;
        }
        log := loaded.value;
      } else {
        log := new PartitionLog(maxRecords);
      }
      entries := Reloaded(disk);
      return true;
    }

    method FetchLog(isReplica: bool, from: nat, maxBytes: nat, ceiling: nat) returns (r: Outcome<seq<Record>>)
      requires Valid()
      ensures r == if isReplica then Ok(Fetched(LogOf(Value().replica.h, maxRecords), from, Min(maxBytes,
          ceiling))) else Err
    {
      if !isReplica {
        return Err;
      }
      var records := log.Fetch(from, if maxBytes <= ceiling then maxBytes else ceiling);
      return Ok(records);
    }
  }
}
