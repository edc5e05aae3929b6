/** A consumer that pages through a log by "last offset plus one". */
module Paging {
  import opened Bytes
  import opened PartitionLogs
  import opened LogStore
  import opened FetchBatch

  /** One page as the consumer receives it: fetched, batched, decoded. */
  function Page(log: Log, from: nat, maxBytes: nat): seq<Record> {
    var fetched := Fetched(log, from, maxBytes);
    Clipped(fetched[..BatchCount(fetched)])
  }

  lemma TailOfHistory(h: seq<Payload>, maxRecords: Option<nat>, from: nat)
    ensures var log := LogOf(h, maxRecords);
            Tail(log, from) == Records(h, Min(Max(from, log.base), |h|))
  {
    var log := LogOf(h, maxRecords);
    assert Tail(log, from) == Records(h, Min(Max(from, log.base), |h|));
  }

  lemma WholeTail(h: seq<Payload>, maxRecords: Option<nat>)
    ensures Tail(LogOf(h, maxRecords), 0) == LogOf(h, maxRecords).records
  {
    TailOfHistory(h, maxRecords, 0);
  }

  /** `page` is the stretch of the history of `h` from offset `start` on. */
  predicate Stretch(h: seq<Payload>, start: nat, page: seq<Record>) {
    && start + |page| <= |h|
    && page == Records(h, start)[..|page|]
  }

  /** A page is a non-empty stretch of the history starting at the first retained record asked
      for, unless there is no such record. */
  lemma PageOfHistory(h: seq<Payload>, maxRecords: Option<nat>, from: nat, maxBytes: nat)
    requires Storable(h)
    ensures var log := LogOf(h, maxRecords);
            var page := Page(log, from, maxBytes);
            var start := Max(from, log.base);
            && (page == [] <==> start >= |h|)
            && (page != [] ==> Stretch(h, start, page))
  {
    TailOfHistory(h, maxRecords, from);
    var log := LogOf(h, maxRecords);
    var page := Page(log, from, maxBytes);
    var tail := Tail(log, from);
    forall i | 0 <= i < |page|
      ensures page[i] == tail[i]
    {
      assert page[i] == Clip(tail[i]);
    }
  }

  lemma RestAfterStretch(h: seq<Payload>, start: nat, page: seq<Record>)
    requires page != [] && Stretch(h, start, page)
    ensures page[|page| - 1].offset + 1 == start + |page|
    ensures Records(h, start) == page + Records(h, start + |page|)
  {
  }

  /** A page, and then the tail after its last record, is the tail. */
  lemma TailAfterPage(h: seq<Payload>, maxRecords: Option<nat>, from: nat, page: seq<Record>)
    requires page != [] && Stretch(h, Max(from, LogOf(h, maxRecords).base), page)
    ensures var log := LogOf(h, maxRecords);
            && from < page[|page| - 1].offset + 1 <= |h|
            && Tail(log, from) == page + Tail(log, page[|page| - 1].offset + 1)
  {
    var start := Max(from, LogOf(h, maxRecords).base);
    TailOfHistory(h, maxRecords, from);
    TailOfHistory(h, maxRecords, start + |page|);
    RestAfterStretch(h, start, page);
  }

  lemma FetchedOffsetsFit(h: seq<Payload>, maxRecords: Option<nat>, from: nat, maxBytes: nat)
    requires |h| <= U64_MAX
    ensures OffsetsFit(Fetched(LogOf(h, maxRecords), from, maxBytes))
  {
    TailOfHistory(h, maxRecords, from);
  }

  /** What a page leaves to read: nothing when it is empty, else the tail after its last record. */
  ghost predicate PageSplitsTail(log: Log, from: nat, page: seq<Record>) {
    if page == [] then Tail(log, from) == []
    else
      && from < page[|page| - 1].offset + 1 <= log.next
      && Tail(log, from) == page + Tail(log, page[|page| - 1].offset + 1)
  }

  lemma PageSplits(h: seq<Payload>, maxRecords: Option<nat>, from: nat, maxBytes: nat)
    requires Storable(h)
    ensures PageSplitsTail(LogOf(h, maxRecords), from, Page(LogOf(h, maxRecords), from, maxBytes))
  {
    hide Page, Tail;
    PageOfHistory(h, maxRecords, from, maxBytes);
    var page := Page(LogOf(h, maxRecords), from, maxBytes);
    if page == [] {
      TailOfHistory(h, maxRecords, from);
    } else {
      TailAfterPage(h, maxRecords, from, page);
    }
  }

  /** Takes a page over, one record at a time. */
  method TakePage(all: seq<Record>, offset: nat, page: seq<Record>) returns (taken: seq<Record>, next: nat)
    ensures taken == all + page
    ensures next == if page == [] then offset else page[|page| - 1].offset + 1
  {
    taken, next := all, offset;
    for i := 0 to |page|
      invariant taken == all + page[..i]
      invariant next == if i == 0 then offset else page[i - 1].offset + 1
    {
      next := page[i].offset + 1;
      taken := taken + [page[i]];
    }
  }

  /** The offset a consumer commits after paging through everything. The broker has hung up on a
      version 1 consumer by then (`FetchWire.CommitIsNotAnswered`), so this is what it sends, not
      what is stored. */
  function CommitOffset(all: seq<Record>): nat {
    if all == [] then 0 else all[|all| - 1].offset + 1
  }

  /** It is the end of the log, unless a limit of zero keeps nothing of what was appended. */
  lemma CommitIsLogEnd(h: seq<Payload>, maxRecords: Option<nat>)
    ensures CommitOffset(LogOf(h, maxRecords).records) == LogOf(h, maxRecords).next
       <==> maxRecords != Some(0) || h == []
  {
  }

  /** The offsets from `a` up to, but not including, `b`. */
  function Span(a: nat, b: nat): (r: set<nat>)
    ensures forall o :: o in r <==> a <= o < b
    decreases b - a
  {
    if a >= b then {} else {a} + Span(a + 1, b)
  }

  function Offsets(rs: seq<Record>): set<nat> {
    set r | r in rs :: r.offset
  }

  /** A consumer and the log it reads while producers keep appending. `missed` collects the
      offsets a poll jumped over. */
  datatype Reader = Reader(h: seq<Payload>, maxRecords: Option<nat>, position: nat, got: seq<Record>, missed: set<nat>)
  {
    function Log(): Log {
      LogOf(h, maxRecords)
    }
  }

  datatype Event = Append(payload: Payload) | Poll(maxBytes: nat)

  function Start(maxRecords: Option<nat>): Reader {
    Reader([], maxRecords, 0, [], {})
  }

  function Step(s: Reader, e: Event): Reader {
    match e
    case Append(payload) => s.(h := s.h + [payload])
    case Poll(maxBytes) =>
      var page := Page(s.Log(), s.position, maxBytes);
      if page == [] then s else Took(s, page)
  }

  function Run(maxRecords: Option<nat>, es: seq<Event>): Reader {
    if es == [] then Start(maxRecords) else Step(Run(maxRecords, es[..|es| - 1]), es[|es| - 1])
  }

  /** The delivered records are the log's records, at strictly increasing offsets. */
  ghost predicate TrueRecords(s: Reader) {
    && s.position <= |s.h|
    && (forall i :: 0 <= i < |s.got| ==>
          s.got[i].offset < s.position && s.got[i].payload == s.h[s.got[i].offset])
    && (forall i, j :: 0 <= i < j < |s.got| ==> s.got[i].offset < s.got[j].offset)
  }

  /** Every offset below the position is delivered or missed, never both. */
  ghost predicate Accounted(s: Reader) {
    && Offsets(s.got) + s.missed == Span(0, s.position)
    && Offsets(s.got) !! s.missed
  }

  lemma OffsetsOfStretch(h: seq<Payload>, start: nat, page: seq<Record>)
    requires Stretch(h, start, page)
    ensures Offsets(page) == Span(start, start + |page|)
  {
    forall o | o in Span(start, start + |page|)
      ensures o in Offsets(page)
    {
      assert page[o - start] in page;
    }
  }

  /** The reader after taking a stretch that starts at or after its position. */
  function Took(s: Reader, page: seq<Record>): Reader
    requires page != []
  {
    s.(position := page[|page| - 1].offset + 1, got := s.got + page,
       missed := s.missed + Span(s.position, page[0].offset))
  }

  lemma TookKeepsRecords(s: Reader, start: nat, page: seq<Record>)
    requires TrueRecords(s) && page != [] && s.position <= start && Stretch(s.h, start, page)
    ensures TrueRecords(Took(s, page))
  {
    var t := Took(s, page);
    forall i, j | 0 <= i < j < |t.got|
      ensures t.got[i].offset < t.got[j].offset
    {
      if |s.got| <= i {
        assert t.got[i] == page[i - |s.got|] && t.got[j] == page[j - |s.got|];
      }
    }
  }

  lemma TookAccounts(s: Reader, start: nat, page: seq<Record>)
    requires Accounted(s) && page != [] && s.position <= start && Stretch(s.h, start, page)
    ensures Accounted(Took(s, page))
  {
    OffsetsOfStretch(s.h, start, page);
    assert Offsets(s.got + page) == Offsets(s.got) + Offsets(page);
  }

  /** Every interleaving of appends (with retention) and polls. */
  lemma {:induction false} RunAccounts(maxRecords: Option<nat>, es: seq<Event>)
    requires Storable(Run(maxRecords, es).h)
    ensures TrueRecords(Run(maxRecords, es)) && Accounted(Run(maxRecords, es))
    decreases |es|
  {
    if es != [] {
      var s := Run(maxRecords, es[..|es| - 1]);
      match es[|es| - 1]
      case Append(payload) =>
        assert s.h == (s.h + [payload])[..|s.h|];
        RunAccounts(maxRecords, es[..|es| - 1]);
      case Poll(maxBytes) =>
        RunAccounts(maxRecords, es[..|es| - 1]);
        PageOfHistory(s.h, s.maxRecords, s.position, maxBytes);
        var page := Page(s.Log(), s.position, maxBytes);
        if page != [] {
          TookKeepsRecords(s, Max(s.position, s.Log().base), page);
          TookAccounts(s, Max(s.position, s.Log().base), page);
        }
    }
  }

  /** A missed offset was already evicted when the poll that jumped over it asked for it. */
  lemma {:induction false} MissedWasEvicted(maxRecords: Option<nat>, es: seq<Event>, o: nat) returns (i: nat)
    requires Storable(Run(maxRecords, es).h)
    requires o in Run(maxRecords, es).missed
    ensures i < |es| && es[i].Poll?
    ensures var asked := Run(maxRecords, es[..i]);
            asked.position <= o < asked.Log().base
    decreases |es|
  {
    var n := |es| - 1;
    var s := Run(maxRecords, es[..n]);
    if es[n].Append? {
      assert s.h == Run(maxRecords, es).h[..|s.h|];
    }
    if o in s.missed {
      i := MissedWasEvicted(maxRecords, es[..n], o);
      assert es[..n][..i] == es[..i];
    } else {
      PageOfHistory(s.h, s.maxRecords, s.position, es[n].maxBytes);
      i := n;
    }
  }
}
