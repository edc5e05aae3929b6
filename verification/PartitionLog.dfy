/** One topic-partition's in-memory log: appends, retention by record count, and
    offset-based fetch. `LogOf` is the reference: the log a full append history leaves. */
module PartitionLogs {
  import opened Bytes

  type Payload = seq<byte>

  /** The largest `usize`; byte counters saturate here. */
  const USIZE_MAX: nat := U64_MAX

  datatype Record = Record(offset: nat, payload: Payload)

  datatype Log = Log(base: nat, next: nat, records: seq<Record>, maxRecords: Option<nat>)

  function Kept(n: nat, maxRecords: Option<nat>): nat {
    if maxRecords.None? then n else Min(n, maxRecords.value)
  }

  function Records(h: seq<Payload>, from: nat): (rs: seq<Record>)
    requires from <= |h|
    ensures |rs| == |h| - from
    ensures forall i :: 0 <= i < |rs| ==> rs[i] == Record(from + i, h[from + i])
  {
    seq(|h| - from, i requires 0 <= i < |h| - from => Record(from + i, h[from + i]))
  }

  /** The log after appending `h` to an empty one: the last `Kept` records, contiguous
      offsets from `base` to `next`. */
  function LogOf(h: seq<Payload>, maxRecords: Option<nat>): Log {
    var base := |h| - Kept(|h|, maxRecords);
    Log(base, |h|, Records(h, base), maxRecords)
  }

  /** In numbers: with a limit the log keeps the newest records up to it, else all; they carry their
      place in the history as offset, from the base up to the next offset, which is the number of appends. */
  lemma LogOfExactly(h: seq<Payload>, maxRecords: Option<nat>)
    ensures var log := LogOf(h, maxRecords);
            var kept := if maxRecords.Some? && maxRecords.value < |h| then maxRecords.value else |h|;
            && log.next == |h| && |log.records| == kept && log.base == |h| - kept
            && forall i :: 0 <= i < kept ==> log.records[i] == Record(|h| - kept + i, h[|h| - kept + i])
  {
  }

  /** Retention as the code does it: drain the excess, then point `base` at the first record. */
  function Retained(log: Log): Log {
    if log.maxRecords.None? || |log.records| <= log.maxRecords.value then log
    else
      var rest := log.records[|log.records| - log.maxRecords.value..];
      log.(records := rest, base := if rest == [] then log.next else rest[0].offset)
  }

  function Appended(log: Log, payload: Payload): Log {
    Retained(log.(next := log.next + 1, records := log.records + [Record(log.next, payload)]))
  }

  /** One append keeps exactly the newest records of the longer history. */
  lemma AppendExtendsHistory(h: seq<Payload>, maxRecords: Option<nat>, payload: Payload)
    ensures Appended(LogOf(h, maxRecords), payload) == LogOf(h + [payload], maxRecords)
  {
    var a := Appended(LogOf(h, maxRecords), payload);
    var b := LogOf(h + [payload], maxRecords);
    assert a.records == b.records;
  }

  function AppendAll(log: Log, h: seq<Payload>): Log
    decreases |h|
  {
    if h == [] then log else AppendAll(Appended(log, h[0]), h[1..])
  }

  /** After any number of appends the retained records are the last `min(n, max)` of the history. */
  lemma {:induction false} AppendsRetainNewest(h: seq<Payload>, more: seq<Payload>, maxRecords: Option<nat>)
    ensures AppendAll(LogOf(h, maxRecords), more) == LogOf(h + more, maxRecords)
    decreases |more|
  {
    if more == [] {
      assert h + more == h;
    } else {
      AppendExtendsHistory(h, maxRecords, more[0]);
      AppendsRetainNewest(h + [more[0]], more[1..], maxRecords);
      assert h + [more[0]] + more[1..] == h + more;
    }
  }

  function SatAdd(a: nat, b: nat): nat {
    Min(a + b, USIZE_MAX)
  }

  function TotalBytes(rs: seq<Record>): nat {
    if rs == [] then 0 else TotalBytes(rs[..|rs| - 1]) + |rs[|rs| - 1].payload|
  }

  /** Whether `n` payload bytes pass the budget test, whose counter saturates. */
  predicate Fits(n: nat, maxBytes: nat) {
    Min(n, USIZE_MAX) <= maxBytes
  }

  /** `k` records of `rs` are the longest run within the budget, but at least one. */
  predicate LongestRun(rs: seq<Record>, k: nat, maxBytes: nat) {
    && k <= |rs|
    && (rs != [] ==> k >= 1)
    && (k >= 2 ==> Fits(TotalBytes(rs[..k]), maxBytes))
    && (1 <= k < |rs| ==> !Fits(TotalBytes(rs[..k + 1]), maxBytes))
  }

  lemma {:induction false} TotalBytesGrows(rs: seq<Record>, i: nat, j: nat)
    requires i <= j <= |rs|
    ensures TotalBytes(rs[..i]) <= TotalBytes(rs[..j])
  {
    if i < j {
      TotalBytesGrows(rs, i, j - 1);
      assert rs[..j][..j - 1] == rs[..j - 1];
    }
  }

  /** The two budget conditions pick one length. */
  lemma LongestRunUnique(rs: seq<Record>, j: nat, k: nat, maxBytes: nat)
    requires LongestRun(rs, j, maxBytes) && LongestRun(rs, k, maxBytes)
    ensures j == k
  {
    if j < k {
      TotalBytesGrows(rs, j + 1, k);
    } else if k < j {
      TotalBytesGrows(rs, k + 1, j);
    }
  }

  function RunLength(rs: seq<Record>, k: nat, maxBytes: nat): (r: nat)
    requires k <= |rs| && (k >= 2 ==> Fits(TotalBytes(rs[..k]), maxBytes))
    ensures LongestRun(rs, r, maxBytes)
    decreases |rs| - k
  {
    if k == |rs| || (k >= 1 && !Fits(TotalBytes(rs[..k + 1]), maxBytes)) then k
    else RunLength(rs, k + 1, maxBytes)
  }

  /** The records from offset `from` on; everything retained when `from` is already evicted. */
  function Tail(log: Log, from: nat): seq<Record> {
    var start := Max(from, log.base);
    if start >= log.next || log.records == [] || start - log.base >= |log.records| then []
    else log.records[start - log.base..]
  }

  /** What a fetch returns: the longest run of the tail within the byte budget. */
  function Fetched(log: Log, from: nat, maxBytes: nat): (r: seq<Record>)
    ensures |r| <= |Tail(log, from)| && r == Tail(log, from)[..|r|]
    ensures LongestRun(Tail(log, from), |r|, maxBytes)
  {
    Tail(log, from)[..RunLength(Tail(log, from), 0, maxBytes)]
  }

  /** The loop state of a fetch after `k` records: `used` bytes, budget still met. */
  ghost predicate RunSoFar(rs: seq<Record>, k: nat, used: nat, maxBytes: nat) {
    && k <= |rs|
    && used == Min(TotalBytes(rs[..k]), USIZE_MAX)
    && (k >= 2 ==> used <= maxBytes)
  }

  lemma RunStep(rs: seq<Record>, k: nat, used: nat, maxBytes: nat)
    requires RunSoFar(rs, k, used, maxBytes) && k < |rs|
    ensures k >= 1 && SatAdd(used, |rs[k].payload|) > maxBytes ==> LongestRun(rs, k, maxBytes)
    ensures k == 0 || SatAdd(used, |rs[k].payload|) <= maxBytes ==>
              RunSoFar(rs, k + 1, SatAdd(used, |rs[k].payload|), maxBytes)
    ensures rs[..k + 1] == rs[..k] + [rs[k]]
  {
    assert rs[..k + 1][..k] == rs[..k];
  }

  lemma FetchedIsLongest(log: Log, from: nat, k: nat, maxBytes: nat)
    requires LongestRun(Tail(log, from), k, maxBytes)
    ensures Fetched(log, from, maxBytes) == Tail(log, from)[..k]
  {
    LongestRunUnique(Tail(log, from), k, |Fetched(log, from, maxBytes)|, maxBytes);
  }

  /** In numbers: a fetch starts at the first retained record at or after `from`; it is empty only if there
      is none; beyond one record it stays within the budget, and another record would not. */
  lemma FetchedExactly(h: seq<Payload>, maxRecords: Option<nat>, from: nat, maxBytes: nat)
    requires maxBytes < USIZE_MAX
    ensures var log := LogOf(h, maxRecords);
            var r, start := Fetched(log, from, maxBytes), Max(from, log.base);
            && (r == [] <==> start >= |h|)
            && (r != [] ==> start + |r| <= |h|)
            && (forall i :: 0 <= i < |r| ==> r[i] == Record(start + i, h[start + i]))
            && (|r| > 1 ==> TotalBytes(r) <= maxBytes)
            && (r != [] && start + |r| < |h| ==> TotalBytes(r) + |h[start + |r|]| > maxBytes)
  {
    hide RunLength, TotalBytes, LongestRun, LogOf, Fetched;
    var log := LogOf(h, maxRecords);
    TailStretch(h, maxRecords, from);
    RunInNumbers(Tail(log, from), |Fetched(log, from, maxBytes)|, maxBytes);
  }

  lemma TailStretch(h: seq<Payload>, maxRecords: Option<nat>, from: nat)
    ensures var log := LogOf(h, maxRecords);
            var tail, start := Tail(log, from), Max(from, log.base);
            && |tail| == Max(|h| - start, 0)
            && forall i :: 0 <= i < |tail| ==> tail[i] == Record(start + i, h[start + i])
  {
  }

  lemma RunInNumbers(rs: seq<Record>, k: nat, maxBytes: nat)
    requires LongestRun(rs, k, maxBytes) && maxBytes < USIZE_MAX
    ensures (k == 0 <==> rs == []) && (k > 1 ==> TotalBytes(rs[..k]) <= maxBytes)
    ensures 0 < k < |rs| ==> TotalBytes(rs[..k]) + |rs[k].payload| > maxBytes
  {
    if k < |rs| {
      assert rs[..k + 1][..k] == rs[..k];
    }
  }

  class PartitionLog {
    var baseOffset: nat
    var nextOffset: nat
    var records: seq<Record>
    const maxRecords: Option<nat>
    ghost var history: seq<Payload>

    function Value(): Log
      reads this
    {
      Log(baseOffset, nextOffset, records, maxRecords)
    }

    ghost predicate Valid()
      reads this
    {
      Value() == LogOf(history, maxRecords)
    }

    constructor (maxRecords: Option<nat>)
      ensures Valid() && history == [] && this.maxRecords == maxRecords
    {
      baseOffset, nextOffset, records := 0, 0, [];
      this.maxRecords := maxRecords;
      history := [];
    }

    /** The offset counter is a u64: one more append must not overflow it. */
    method Append(payload: Payload) returns (offset: nat)
      requires Valid() && nextOffset < U64_MAX
      modifies this
      ensures Valid() && history == old(history) + [payload]
      ensures offset == |old(history)|
    {
      offset := nextOffset;
      nextOffset := nextOffset + 1;
      records := records + [Record(offset, payload)];
      EnforceRetention();
      history := history + [payload];
      AppendExtendsHistory(old(history), maxRecords, payload);
    }

    method EnforceRetention()
      modifies this
      ensures Value() == Retained(old(Value())) && history == old(history)
    {
      if maxRecords.None? || |records| <= maxRecords.value {
        return;
      }
      var excess := |records| - maxRecords.value;
      records := records[excess..];
      baseOffset := baseOffset + excess;
      if records != [] {
        baseOffset := records[0].offset;
      } else {
        baseOffset := nextOffset;
      }
    }

    method Fetch(fromOffset: nat, maxBytes: nat) returns (out: seq<Record>)
      requires Valid()
      ensures out == Fetched(Value(), fromOffset, maxBytes)
    {
      var startOffset := Max(fromOffset, baseOffset);
      if startOffset >= nextOffset || records == [] {
        return [];
      }
      var startIdx := startOffset - baseOffset;
      ghost var tail := Tail(Value(), fromOffset);
      assert tail == records[startIdx..];
      out := [];
      var used := 0;
      for i := startIdx to |records|
        invariant out == tail[..i - startIdx]
        invariant RunSoFar(tail, i - startIdx, used, maxBytes)
      {
        var rec := records[i];
        var cost := |rec.payload|;
        RunStep(tail, i - startIdx, used, maxBytes);
        if out != [] && SatAdd(used, cost) > maxBytes {
          FetchedIsLongest(Value(), fromOffset, |out|, maxBytes);
          return;
        }
        used := SatAdd(used, cost);
        out := out + [rec];
      }
      FetchedIsLongest(Value(), fromOffset, |tail|, maxBytes);
    }
  }
}
