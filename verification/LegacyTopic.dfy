/** The legacy push path of one topic: a staging queue until the first consumer group exists,
    then per-group partition queues. No message is lost or invented while no queue is full, but a
    restart leaves every partition it finds without a reader. */
module LegacyTopic {
  import opened Bytes
  import opened Rings

  datatype Group = Group(id: u16, partitions: seq<Ring>, consumers: nat)

  datatype Topic = Topic(staging: Ring, groups: seq<Group>)

  const EmptyRing := Ring([], 0)

  ghost predicate ValidGroup(g: Group) {
    g.partitions != [] && forall i :: 0 <= i < |g.partitions| ==> g.partitions[i].Valid()
  }

  ghost predicate ValidTopic(t: Topic) {
    t.staging.Valid() && forall i :: 0 <= i < |t.groups| ==> ValidGroup(t.groups[i])
  }

  // ---- Operations

  /** `k` is the first partition with the fewest buffered messages. */
  ghost predicate IsSmallest(parts: seq<Ring>, k: nat) {
    && (forall i :: 0 <= i < |parts| ==> parts[i].Valid())
    && k < |parts|
    && (forall i :: 0 <= i < |parts| ==> MapLen(parts[k]) <= MapLen(parts[i]))
    && (forall i :: 0 <= i < k ==> MapLen(parts[k]) < MapLen(parts[i]))
  }

  function SmallestOf(parts: seq<Ring>, n: nat): (k: nat)
    requires 0 < n <= |parts| && forall i :: 0 <= i < |parts| ==> parts[i].Valid()
    ensures IsSmallest(parts[..n], k)
  {
    if n == 1 then 0
    else
      var k := SmallestOf(parts, n - 1);
      assert parts[..n] == parts[..n - 1] + [parts[n - 1]];
      if MapLen(parts[n - 1]) < MapLen(parts[k]) then n - 1 else k
  }

  function Smallest(g: Group): nat
    requires ValidGroup(g)
  {
    SmallestOf(g.partitions, |g.partitions|)
  }

  /** Moves staged messages over until the staging queue looks empty. */
  function Drained(from: Ring, to: Ring): (Ring, Ring)
    requires from.Valid()
    decreases |from.all| - from.gone
  {
    var front := MapFront(from);
    if front.None? then (from, to) else Drained(MapPopped(from), MapAppended(to, front.value))
  }

  /** One group's turn in a produce: drain the staging queue into its smallest partition, then
      append the payload there. */
  function FedGroup(staging: Ring, g: Group, payload: Payload): (Ring, Group)
    requires staging.Valid() && ValidGroup(g)
  {
    var k := Smallest(g);
    var (left, filled) := Drained(staging, g.partitions[k]);
    (left, g.(partitions := g.partitions[k := MapAppended(filled, payload)]))
  }

  lemma {:induction false} DrainValid(from: Ring, to: Ring)
    requires from.Valid() && to.Valid()
    ensures Drained(from, to).0.Valid() && Drained(from, to).1.Valid()
    decreases |from.all| - from.gone
  {
    if MapFront(from).Some? {
      DrainValid(MapPopped(from), MapAppended(to, MapFront(from).value));
    }
  }

  lemma FedGroupValid(staging: Ring, g: Group, payload: Payload)
    requires staging.Valid() && ValidGroup(g)
    ensures FedGroup(staging, g, payload).0.Valid() && ValidGroup(FedGroup(staging, g, payload).1)
  {
    DrainValid(staging, g.partitions[Smallest(g)]);
  }

  /** The groups from `i` on, each in turn. */
  function Fed(t: Topic, payload: Payload, i: nat): Topic
    requires ValidTopic(t) && i <= |t.groups|
    decreases |t.groups| - i
  {
    if i == |t.groups| then t
    else
      var (left, g) := FedGroup(t.staging, t.groups[i], payload);
      FedGroupValid(t.staging, t.groups[i], payload);
      Fed(Topic(left, t.groups[i := g]), payload, i + 1)
  }

  function Produced(t: Topic, payload: Payload): Topic
    requires ValidTopic(t)
  {
    if t.groups == [] then t.(staging := MapAppended(t.staging, payload)) else Fed(t, payload, 0)
  }

  /** The offset a produce answers with. */
  function Answered(t: Topic, logOffset: nat): nat
    requires t.staging.Valid()
  {
    if t.groups == [] then Max(logOffset, MapLen(t.staging)) else logOffset
  }

  function IndexOf(groups: seq<Group>, id: u16): (i: nat)
    ensures i <= |groups| && (i < |groups| ==> groups[i].id == id)
    ensures forall j :: 0 <= j < i ==> groups[j].id != id
  {
    if groups == [] || groups[0].id == id then 0 else 1 + IndexOf(groups[1..], id)
  }

  function WithGroup(t: Topic, id: u16): Topic {
    if IndexOf(t.groups, id) < |t.groups| then t
    else t.(groups := t.groups + [Group(id, [EmptyRing], 0)])
  }

  /** A new consumer gets a partition of its own unless one is spare. */
  function Seated(g: Group): Group {
    g.(consumers := g.consumers + 1,
       partitions := if |g.partitions| < g.consumers + 1 then g.partitions + [EmptyRing] else g.partitions)
  }

  function Registered(t: Topic, id: u16): Topic {
    var u := WithGroup(t, id);
    var i := IndexOf(u.groups, id);
    if i < |u.groups| then u.(groups := u.groups[i := Seated(u.groups[i])]) else u
  }

  /** The topic as it is loaded: queues keep their contents, and a group counts one consumer for
      every partition it finds, although none is connected. */
  function Loaded(g: Group): Group {
    g.(consumers := |g.partitions|)
  }

  function Reloaded(t: Topic): Topic {
    t.(groups := seq(|t.groups|, i requires 0 <= i < |t.groups| => Loaded(t.groups[i])))
  }

  function Delivered(t: Topic, i: nat, k: nat): Option<Payload>
    requires ValidTopic(t) && i < |t.groups| && k < |t.groups[i].partitions|
  {
    MapFront(t.groups[i].partitions[k])
  }

  function Popped(t: Topic, i: nat, k: nat): Topic
    requires ValidTopic(t) && i < |t.groups| && k < |t.groups[i].partitions|
  {
    var g := t.groups[i];
    t.(groups := t.groups[i := g.(partitions := g.partitions[k := MapPopped(g.partitions[k])])])
  }

  lemma {:induction false} FoundAfterAdding(groups: seq<Group>, id: u16)
    requires IndexOf(groups, id) == |groups|
    ensures IndexOf(groups + [Group(id, [EmptyRing], 0)], id) == |groups|
    decreases |groups|
  {
    if groups != [] {
      FoundAfterAdding(groups[1..], id);
      assert (groups + [Group(id, [EmptyRing], 0)])[1..] == groups[1..] + [Group(id, [EmptyRing], 0)];
    }
  }

  lemma IndexAfterSeating(groups: seq<Group>, id: u16, i: nat)
    requires i == IndexOf(groups, id) < |groups|
    ensures IndexOf(groups[i := Seated(groups[i])], id) == i
  {
    hide IndexOf;
    IndexAfterUpdate(groups, id, i, Seated(groups[i]));
  }

  lemma {:induction false} IndexAfterUpdate(groups: seq<Group>, id: u16, i: nat, g: Group)
    requires i == IndexOf(groups, id) < |groups| && g.id == id
    ensures IndexOf(groups[i := g], id) == i
    decreases |groups|
  {
    if i > 0 {
      IndexAfterUpdate(groups[1..], id, i - 1, g);
      assert groups[i := g][1..] == groups[1..][i - 1 := g];
    }
  }

  /** The `n`-th consumer of a group reads partition `n - 1`: no two consumers share one. */
  predicate SeatsTaken(g: Group) {
    |g.partitions| == Max(1, g.consumers)
  }

  lemma SeatIsOwn(g: Group)
    requires SeatsTaken(g)
    ensures SeatsTaken(Seated(g)) && |Seated(g).partitions| - 1 == g.consumers
    ensures g.partitions <= Seated(g).partitions
  {
  }

  class LegacyBroker {
    var staging: Ring
    var groups: seq<Group>

    function Value(): Topic
      reads this
    {
      Topic(staging, groups)
    }

    constructor ()
      ensures Value() == Topic(EmptyRing, []) && ValidTopic(Value())
    {
      staging, groups := EmptyRing, [];
    }

    method SmallestPartitionIndex(g: Group) returns (best: nat)
      requires ValidGroup(g)
      ensures best == Smallest(g)
    {
      best := 0;
      var minLen := MapLen(g.partitions[0]);
      for idx := 1 to |g.partitions|
        invariant best == SmallestOf(g.partitions, idx) && best < idx
        invariant minLen == MapLen(g.partitions[best])
      {
        var len := MapLen(g.partitions[idx]);
        if len < minLen {
          minLen := len;
          best := idx;
        }
      }
    }

    /** `logOffset` is where the partition log took the payload. */
    method ProducePcm(payload: Payload, logOffset: nat) returns (offset: nat)
      requires ValidTopic(Value())
      modifies this
      ensures Value() == Produced(old(Value()), payload)
      ensures offset == Answered(old(Value()), logOffset)
    {
      offset := logOffset;
      if groups == [] {
        offset := Max(logOffset, MapLen(staging));
        staging := MapAppended(staging, payload);
        return;
      }
      var count := |groups|;
      for i := 0 to count
        invariant |groups| == count && ValidTopic(Value())
        invariant Fed(old(Value()), payload, 0) == Fed(Value(), payload, i)
      {
        FedGroupValid(staging, groups[i], payload);
        var idx := SmallestPartitionIndex(groups[i]);
        var filled := DrainInto(groups[i].partitions[idx]);
        var partitions := groups[i].partitions[idx := MapAppended(filled, payload)];
        groups := groups[i := groups[i].(partitions := partitions)];
      }
    }

    method DrainInto(partition: Ring) returns (filled: Ring)
      requires staging.Valid()
      modifies this`staging
      ensures (staging, filled) == Drained(old(staging), partition)
    {
      filled := partition;
      var msg := MapFront(staging);
      while msg.Some?
        invariant staging.Valid() && msg == MapFront(staging)
        invariant Drained(staging, filled) == Drained(old(staging), partition)
        decreases |staging.all| - staging.gone
      {
        staging := MapPopped(staging);
        filled := MapAppended(filled, msg.value);
        msg := MapFront(staging);
      }
    }

    /** Returns the index of the partition the consumer will read, cast to u16. */
    method RegisterConsumer(id: u16) returns (seat: u16)
      requires ValidTopic(Value())
      modifies this
      ensures Value() == Registered(old(Value()), id)
      ensures IndexOf(groups, id) < |groups| && seat == IndexGiven(groups[IndexOf(groups, id)])
    {
      if IndexOf(groups, id) == |groups| {
        FoundAfterAdding(groups, id);
        groups := groups + [Group(id, [EmptyRing], 0)];
      }
      var i := IndexOf(groups, id);
      IndexAfterSeating(groups, id, i);
      groups := groups[i := Seated(groups[i])];
      seat := IndexGiven(groups[i]);
    }

    method Reload()
      modifies this
      ensures Value() == Reloaded(old(Value()))
    {
      var loaded: seq<Group> := [];
      for i := 0 to |groups|
        invariant groups == old(groups) && staging == old(staging)
        invariant loaded == Reloaded(Value()).groups[..i]
      {
        loaded := loaded + [groups[i].(consumers := |groups[i].partitions|)];
      }
      groups := loaded;
    }

    method PopFront(i: nat, k: nat) returns (r: Option<Payload>)
      requires ValidTopic(Value()) && i < |groups| && k < |groups[i].partitions|
      modifies this
      ensures r == Delivered(old(Value()), i, k) && Value() == Popped(old(Value()), i, k)
    {
      var g := groups[i];
      r := MapFront(g.partitions[k]);
      groups := groups[i := g.(partitions := g.partitions[k := MapPopped(g.partitions[k])])];
    }
  }

  // ---- What is in the queues

  ghost predicate NotFull(r: Ring) {
    |r.all| - r.gone < QUEUE_CAPACITY
  }

  function Times(s: seq<Payload>, x: Payload): nat {
    multiset(s)[x]
  }

  function One(p: Payload, x: Payload): nat {
    if p == x then 1 else 0
  }

  lemma TimesSnoc(s: seq<Payload>, p: Payload, x: Payload)
    ensures Times(s + [p], x) == Times(s, x) + One(p, x)
  {
  }

  lemma TimesCons(s: seq<Payload>, p: Payload, x: Payload)
    ensures Times([p] + s, x) == Times(s, x) + One(p, x)
  {
  }

  /** How often message `x` is in a queue. */
  function In(r: Ring, x: Payload): nat
    requires r.Valid()
  {
    Times(r.all[r.gone..], x)
  }

  ghost predicate AllValid(parts: seq<Ring>) {
    forall i :: 0 <= i < |parts| ==> parts[i].Valid()
  }

  ghost function InAll(parts: seq<Ring>, x: Payload): nat
    requires AllValid(parts)
  {
    if parts == [] then 0 else InAll(parts[..|parts| - 1], x) + In(parts[|parts| - 1], x)
  }

  lemma {:induction false} InAllUpdate(parts: seq<Ring>, k: nat, r: Ring, x: Payload)
    requires AllValid(parts) && k < |parts| && r.Valid()
    ensures AllValid(parts[k := r])
    ensures InAll(parts[k := r], x) == InAll(parts, x) - In(parts[k], x) + In(r, x)
    decreases |parts|
  {
    hide In;
    var n := |parts| - 1;
    if k < n {
      InAllUpdate(parts[..n], k, r, x);
      assert parts[k := r][..n] == parts[..n][k := r];
    } else {
      assert parts[k := r][..n] == parts[..n];
    }
  }

  lemma InAppend(r: Ring, p: Payload, x: Payload)
    requires r.Valid() && |p| <= MAX_MSG_SIZE
    ensures MapAppended(r, p).Valid() && In(MapAppended(r, p), x) == In(r, x) + One(p, x)
  {
    hide Times;
    assert Cut(p) == p;
    assert (r.all + [p])[r.gone..] == r.all[r.gone..] + [p];
    TimesSnoc(r.all[r.gone..], p, x);
  }

  lemma InPop(r: Ring, x: Payload)
    requires r.Valid() && |r.all| - r.gone < QUEUE_CAPACITY
    ensures MapPopped(r).Valid()
    ensures MapFront(r).Some? ==>
      |MapFront(r).value| <= MAX_MSG_SIZE && In(r, x) == In(MapPopped(r), x) + One(MapFront(r).value, x)
    ensures MapFront(r).None? ==> MapPopped(r) == r && r.gone == |r.all|
  {
    hide Times, Latest;
    MapIsFifoBelowCapacity(r);
    if r.gone < |r.all| {
      assert r.all[r.gone..] == [r.all[r.gone]] + r.all[r.gone + 1..];
      TimesCons(r.all[r.gone + 1..], r.all[r.gone], x);
    }
  }

  lemma NothingIn(r: Ring, x: Payload)
    requires r.Valid() && r.gone == |r.all|
    ensures In(r, x) == 0
  {
  }

  /** Draining moves everything, if the staging queue was not full. */
  lemma {:induction false} DrainMovesAll(from: Ring, to: Ring, x: Payload)
    requires from.Valid() && to.Valid() && |from.all| - from.gone < QUEUE_CAPACITY
    ensures var (left, filled) := Drained(from, to);
            left.Valid() && filled.Valid() && left.gone == |left.all| && In(filled, x) == In(to, x) + In(from, x)
    decreases |from.all| - from.gone
  {
    hide In;
    InPop(from, x);
    var front := MapFront(from);
    if front.Some? {
      InAppend(to, front.value, x);
      DrainMovesAll(MapPopped(from), MapAppended(to, front.value), x);
    } else {
      NothingIn(from, x);
    }
  }

  /** Draining moves as many messages as the staging queue shows: all of them exactly when it is
      not full. */
  lemma {:induction false} DrainMovesShown(from: Ring, to: Ring)
    requires from.Valid() && to.Valid()
    ensures |Drained(from, to).1.all| == |to.all| + MapLen(from)
    ensures |Drained(from, to).1.all| == |to.all| + (|from.all| - from.gone) <==> NotFull(from)
    decreases |from.all| - from.gone
  {
    ShownIfNotFull(from);
    hide MapLen, Latest;
    var front := MapFront(from);
    if front.Some? {
      ShowsOneLess(from);
      DrainMovesShown(MapPopped(from), MapAppended(to, front.value));
    }
  }

  lemma ShownIfNotFull(r: Ring)
    requires r.Valid()
    ensures MapLen(r) == |r.all| - r.gone <==> NotFull(r)
  {
  }

  lemma ShowsOneLess(r: Ring)
    requires r.Valid() && MapLen(r) != 0
    ensures MapLen(MapPopped(r)) == MapLen(r) - 1
  {
    NextSlot(|r.all| - r.gone - 1);
  }

  lemma FedGroupHolds(staging: Ring, g: Group, payload: Payload, x: Payload)
    requires staging.Valid() && ValidGroup(g) && |payload| <= MAX_MSG_SIZE
    requires |staging.all| - staging.gone < QUEUE_CAPACITY
    ensures var (left, g') := FedGroup(staging, g, payload);
            left.Valid() && left.gone == |left.all| && ValidGroup(g')
            && InAll(g'.partitions, x) == InAll(g.partitions, x) + In(staging, x) + One(payload, x)
  {
    hide In, InAll, Drained, SmallestOf;
    var k := Smallest(g);
    var (left, filled) := Drained(staging, g.partitions[k]);
    DrainMovesAll(staging, g.partitions[k], x);
    InAppend(filled, payload, x);
    InAllUpdate(g.partitions, k, MapAppended(filled, payload), x);
  }

  /** A produce with groups: the first group still to be fed takes over what was staged, and
      every one of them takes the payload. */
  lemma {:induction false} FedHolds(t: Topic, payload: Payload, i: nat, j: nat, x: Payload)
    requires ValidTopic(t) && i <= |t.groups| && j < |t.groups| && |payload| <= MAX_MSG_SIZE
    requires |t.staging.all| - t.staging.gone < QUEUE_CAPACITY
    ensures var u := Fed(t, payload, i);
            && ValidTopic(u) && |u.groups| == |t.groups|
            && (i < |t.groups| || t.staging.gone == |t.staging.all| ==> u.staging.gone == |u.staging.all|)
            && InAll(u.groups[j].partitions, x) ==
               InAll(t.groups[j].partitions, x)
               + (if j == i then In(t.staging, x) else 0) + (if j >= i then One(payload, x) else 0)
    decreases |t.groups| - i
  {
    hide In, InAll, FedGroup, One;
    if i < |t.groups| {
      FedGroupHolds(t.staging, t.groups[i], payload, x);
      var (left, g) := FedGroup(t.staging, t.groups[i], payload);
      NothingIn(left, x);
      FedHolds(Topic(left, t.groups[i := g]), payload, i + 1, j, x);
    }
  }

  // ---- Runs

  /** The seats of one group: every partition index handed out in the run, and how many of them
      before the last restart; how many partitions that restart found; the indices with a connected
      reader, and those handed out since the restart whose reader has disconnected. */
  datatype Seats = Seats(given: seq<nat>, before: nat, found: nat, readers: set<nat>, gone: set<nat>)

  const NoSeats := Seats([], 0, 0, {}, {})

  /** A topic with the books of its run: what was produced, and per group what it was handed, how
      much had been produced when it was created, and its seats. */
  datatype Books = Books(topic: Topic, produced: seq<Payload>, handed: seq<seq<Payload>>, since: seq<nat>,
                         seats: seq<Seats>)

  datatype Action =
    | Produce(payload: Payload)
    | Ensure(id: u16)             // a consume request creates the group it names
    | Register(id: u16)           // so does a consumer, which also gets a partition
    | Consume(group: nat, partition: nat)
    | Disconnect(group: nat, partition: nat)  // the connection to a consumer ends
    | Restart

  const Opening := Books(Topic(EmptyRing, []), [], [], [], [])

  predicate InPlace(t: Topic, i: nat, k: nat) {
    i < |t.groups| && k < |t.groups[i].partitions|
  }

  function Entered(b: Books, t: Topic): Books {
    if |t.groups| == |b.topic.groups| then b.(topic := t)
    else b.(topic := t, handed := b.handed + [[]], since := b.since + [|b.produced|],
            seats := b.seats + [NoSeats])
  }

  /** The partition index that a consumer just seated in `g` is told, cast to u16. */
  function IndexGiven(g: Group): nat {
    (Max(|g.partitions|, 1) - 1) % 0x1_0000
  }

  function Given(e: Seats, p: nat): Seats {
    e.(given := e.given + [p], readers := e.readers + {p}, gone := e.gone - {p})
  }

  function Left(e: Seats, p: nat): Seats {
    if p in e.readers then e.(readers := e.readers - {p}, gone := e.gone + {p}) else e
  }

  function Emptied(e: Seats, partitions: nat): Seats {
    Seats(e.given, |e.given|, partitions, {}, {})
  }

  /** A consumer of group `id` was seated. */
  function WithReader(b: Books, id: u16): Books {
    var i := IndexOf(b.topic.groups, id);
    if i < |b.topic.groups| && i < |b.seats|
    then b.(seats := b.seats[i := Given(b.seats[i], IndexGiven(b.topic.groups[i]))])
    else b
  }

  function Next(b: Books, a: Action): Books
    requires ValidTopic(b.topic) && |b.handed| == |b.seats| == |b.topic.groups|
  {
    match a
    case Produce(payload) => b.(topic := Produced(b.topic, payload), produced := b.produced + [payload])
    case Ensure(id) => Entered(b, WithGroup(b.topic, id))
    case Register(id) => WithReader(Entered(b, Registered(b.topic, id)), id)
    case Restart =>
      b.(topic := Reloaded(b.topic),
         seats := seq(|b.seats|, i requires 0 <= i < |b.seats| => Emptied(b.seats[i], |b.topic.groups[i].partitions|)))
    case Disconnect(i, p) =>
      if i < |b.seats| then b.(seats := b.seats[i := Left(b.seats[i], p)]) else b
    case Consume(i, k) =>
      if !InPlace(b.topic, i, k) then b
      else
        var r := Delivered(b.topic, i, k);
        b.(topic := Popped(b.topic, i, k),
           handed := if r.Some? then b.handed[i := b.handed[i] + [r.value]] else b.handed)
  }

  ghost predicate Roomy(t: Topic) {
    && NotFull(t.staging)
    && forall i, k :: 0 <= i < |t.groups| && 0 <= k < |t.groups[i].partitions| ==> NotFull(t.groups[i].partitions[k])
  }

  /** What the group is due: everything for the first, everything since its creation for others. */
  function Due(b: Books, i: nat, x: Payload): nat
    requires i < |b.since| && b.since[i] <= |b.produced|
  {
    Times(b.produced[if i == 0 then 0 else b.since[i]..], x)
  }

  /** What it has: queued, delivered, and for the first group also staged. */
  ghost function Has(b: Books, i: nat, x: Payload): nat
    requires ValidTopic(b.topic) && i < |b.topic.groups| == |b.handed|
  {
    InAll(b.topic.groups[i].partitions, x) + Times(b.handed[i], x) + if i == 0 then In(b.topic.staging, x) else 0
  }

  ghost predicate Shaped(b: Books) {
    && ValidTopic(b.topic) && |b.handed| == |b.since| == |b.topic.groups|
    && |b.seats| == |b.topic.groups|
    && forall i :: 0 <= i < |b.since| ==> b.since[i] <= |b.produced|
  }

  /** Nothing lost, nothing invented: every message `x` is there as often as it is due. */
  ghost predicate Balanced(b: Books, x: Payload) {
    && Shaped(b)
    && (b.topic.groups == [] ==> In(b.topic.staging, x) == Times(b.produced, x))
    && forall i :: 0 <= i < |b.topic.groups| ==> Has(b, i, x) == Due(b, i, x)
  }

  lemma ProduceBalances(b: Books, payload: Payload, x: Payload)
    requires Balanced(b, x) && Roomy(b.topic) && |payload| <= MAX_MSG_SIZE
    ensures Balanced(Next(b, Produce(payload)), x)
  {
    hide InAll, In, Fed, Times, One;
    var n := Next(b, Produce(payload));
    if b.topic.groups == [] {
      InAppend(b.topic.staging, payload, x);
      TimesSnoc(b.produced, payload, x);
    } else {
      FedHolds(b.topic, payload, 0, 0, x);
      NothingIn(n.topic.staging, x);
      forall i | 0 <= i < |n.topic.groups| ensures Has(n, i, x) == Due(n, i, x) {
        FedHolds(b.topic, payload, 0, i, x);
        assert Has(b, i, x) == Due(b, i, x);
        DueGrows(b, payload, i, x);
      }
    }
  }

  lemma DueGrows(b: Books, payload: Payload, i: nat, x: Payload)
    requires i < |b.since| && b.since[i] <= |b.produced|
    ensures Times((b.produced + [payload])[if i == 0 then 0 else b.since[i]..], x) == Due(b, i, x) + One(payload, x)
  {
    hide Times;
    var s := if i == 0 then 0 else b.since[i];
    assert (b.produced + [payload])[s..] == b.produced[s..] + [payload];
    TimesSnoc(b.produced[s..], payload, x);
  }

  lemma InAllExtend(parts: seq<Ring>, x: Payload)
    requires AllValid(parts)
    ensures AllValid(parts + [EmptyRing]) && InAll(parts + [EmptyRing], x) == InAll(parts, x)
  {
    assert (parts + [EmptyRing])[..|parts|] == parts;
    NothingIn(EmptyRing, x);
  }

  lemma FreshGroup(id: u16, x: Payload)
    ensures ValidGroup(Group(id, [EmptyRing], 0)) && InAll([EmptyRing], x) == 0
  {
    InAllExtend([], x);
    assert [] + [EmptyRing] == [EmptyRing];
  }

  lemma EnsureBalances(b: Books, id: u16, x: Payload)
    requires Balanced(b, x)
    ensures Balanced(Entered(b, WithGroup(b.topic, id)), x)
  {
    hide InAll, In, Times;
    var n := Entered(b, WithGroup(b.topic, id));
    if IndexOf(b.topic.groups, id) == |b.topic.groups| {
      FreshGroup(id, x);
      forall i | 0 <= i < |n.topic.groups| ensures Has(n, i, x) == Due(n, i, x) {
        if i < |b.topic.groups| {
          assert Has(b, i, x) == Due(b, i, x);
        } else {
          assert n.produced[|b.produced|..] == [] && n.produced[0..] == b.produced;
          TimesNone(x);
        }
      }
    }
  }

  lemma TimesNone(x: Payload)
    ensures Times([], x) == 0
  {
  }

  lemma SeatBalances(b: Books, i: nat, x: Payload)
    requires Balanced(b, x) && i < |b.topic.groups|
    ensures Balanced(b.(topic := b.topic.(groups := b.topic.groups[i := Seated(b.topic.groups[i])])), x)
  {
    hide InAll, In, Times;
    var n := b.(topic := b.topic.(groups := b.topic.groups[i := Seated(b.topic.groups[i])]));
    InAllExtend(b.topic.groups[i].partitions, x);
    forall j | 0 <= j < |n.topic.groups| ensures Has(n, j, x) == Due(n, j, x) {
      assert Has(b, j, x) == Due(b, j, x);
    }
  }

  lemma RegisterBalances(b: Books, id: u16, x: Payload)
    requires Balanced(b, x)
    ensures Balanced(Next(b, Register(id)), x)
  {
    hide Balanced;
    EnsureBalances(b, id, x);
    var u := Entered(b, WithGroup(b.topic, id));
    var i := IndexOf(u.topic.groups, id);
    if i < |u.topic.groups| {
      SeatBalances(u, i, x);
    }
    ReaderBalances(Entered(b, Registered(b.topic, id)), id, x);
  }

  lemma ReaderBalances(b: Books, id: u16, x: Payload)
    requires Balanced(b, x)
    ensures Balanced(WithReader(b, id), x)
  {
    hide InAll, In, Times;
    var n := WithReader(b, id);
    forall j | 0 <= j < |n.topic.groups| ensures Has(n, j, x) == Due(n, j, x) {
      assert Has(b, j, x) == Due(b, j, x);
    }
  }

  lemma ConsumeBalances(b: Books, i: nat, k: nat, x: Payload)
    requires Balanced(b, x) && Roomy(b.topic) && InPlace(b.topic, i, k)
    ensures Balanced(Next(b, Consume(i, k)), x)
  {
    hide InAll, In, Times, MapFront, MapPopped;
    var n := Next(b, Consume(i, k));
    var parts := b.topic.groups[i].partitions;
    assert NotFull(parts[k]);
    InPop(parts[k], x);
    InAllUpdate(parts, k, MapPopped(parts[k]), x);
    var r := MapFront(parts[k]);
    if r.Some? {
      TimesSnoc(b.handed[i], r.value, x);
    }
    forall j | 0 <= j < |n.topic.groups| ensures Has(n, j, x) == Due(n, j, x) {
      assert Has(b, j, x) == Due(b, j, x);
    }
  }

  lemma RestartBalances(b: Books, x: Payload)
    requires Balanced(b, x)
    ensures Balanced(Next(b, Restart), x)
  {
    hide InAll, In, Times;
    var n := Next(b, Restart);
    forall j | 0 <= j < |n.topic.groups| ensures Has(n, j, x) == Due(n, j, x) {
      assert Has(b, j, x) == Due(b, j, x);
    }
  }

  lemma DisconnectBalances(b: Books, i: nat, p: nat, x: Payload)
    requires Balanced(b, x)
    ensures Balanced(Next(b, Disconnect(i, p)), x)
  {
    hide InAll, In, Times;
    var n := Next(b, Disconnect(i, p));
    forall j | 0 <= j < |n.topic.groups| ensures Has(n, j, x) == Due(n, j, x) {
      assert Has(b, j, x) == Due(b, j, x);
    }
  }

  /** The books after each action of a run in which no queue is ever full. */
  ghost predicate IsRun(run: seq<Books>, actions: seq<Action>) {
    && |run| == |actions| + 1 && run[0] == Opening
    && (forall i :: 0 <= i < |run| ==> Roomy(run[i].topic))
    && forall i :: 0 <= i < |actions| ==>
         && (actions[i].Produce? ==> |actions[i].payload| <= MAX_MSG_SIZE)
         && (Shaped(run[i]) ==> run[i + 1] == Next(run[i], actions[i]))
  }

  lemma StepBalances(b: Books, a: Action, x: Payload)
    requires Balanced(b, x) && Roomy(b.topic) && (a.Produce? ==> |a.payload| <= MAX_MSG_SIZE)
    ensures Balanced(Next(b, a), x)
  {
    hide Produced, Registered, WithGroup, Has, Due, Times, In;
    match a
    case Produce(payload) => ProduceBalances(b, payload, x);
    case Ensure(id) => EnsureBalances(b, id, x);
    case Register(id) => RegisterBalances(b, id, x);
    case Restart => RestartBalances(b, x);
    case Disconnect(i, p) => DisconnectBalances(b, i, p, x);
    case Consume(i, k) => if InPlace(b.topic, i, k) { ConsumeBalances(b, i, k, x); }
  }

  /** In every run with payloads of at most 255 bytes and no queue at its capacity, every message
      is staged, queued or delivered for the first group as often as it was produced, and queued
      or delivered for a later group as often as it was produced since that group was created. */
  lemma {:induction false} EveryRunBalances(run: seq<Books>, actions: seq<Action>, i: nat, x: Payload)
    requires IsRun(run, actions) && i < |run|
    ensures Balanced(run[i], x)
  {
    if i > 0 {
      hide Has, Due, In, Times, Next, Roomy, Shaped;
      EveryRunBalances(run, actions, i - 1, x);
      StepBalances(run[i - 1], actions[i - 1], x);
    }
  }

  // ---- Order

  /** Draining keeps the order: what was staged comes after what was queued. */
  lemma {:induction false} DrainKeepsOrder(from: Ring, to: Ring)
    requires from.Valid() && to.Valid() && NotFull(from)
    ensures var (left, filled) := Drained(from, to);
            left.Valid() && filled.Valid() && Contents(left) == [] && Contents(filled) == Contents(to) + Contents(from)
    decreases |from.all| - from.gone
  {
    hide Latest, MapLen;
    MapIsFifoBelowCapacity(from);
    var front := MapFront(from);
    if front.Some? {
      var popped, more := MapPopped(from), MapAppended(to, front.value);
      PopShifts(from);
      AppendShifts(to, front.value);
      DrainKeepsOrder(popped, more);
      assert Contents(to) + [front.value] + Contents(popped) == Contents(to) + ([front.value] + Contents(popped));
    } else {
      assert Contents(to) + [] == Contents(to);
    }
  }

  lemma PopShifts(r: Ring)
    requires r.Valid() && NotFull(r) && MapFront(r).Some?
    ensures MapPopped(r).Valid() && NotFull(MapPopped(r))
    ensures |MapFront(r).value| <= MAX_MSG_SIZE && Contents(r) == [MapFront(r).value] + Contents(MapPopped(r))
  {
    hide Latest;
    MapIsFifoBelowCapacity(r);
  }

  lemma AppendShifts(r: Ring, p: Payload)
    requires r.Valid()
    ensures MapAppended(r, p).Valid() && Contents(MapAppended(r, p)) == Contents(r) + [p[..Min(|p|, 255)]]
    ensures |p| <= 255 ==> Contents(MapAppended(r, p)) == Contents(r) + [p]
  {
    assert |p| <= 255 ==> p[..|p|] == p;
  }

  /** One group's turn in a produce: of its partitions only the first with the fewest messages changes, and
      that one gets what was staged and then the payload, cut at 255 bytes, in this order. */
  lemma FedGroupInOrder(staging: Ring, g: Group, payload: Payload)
    requires staging.Valid() && NotFull(staging) && ValidGroup(g)
    ensures var (left, g') := FedGroup(staging, g, payload);
            var k := Smallest(g);
            && left.Valid() && Contents(left) == [] && ValidGroup(g')
            && g' == g.(partitions := g'.partitions) && |g'.partitions| == |g.partitions|
            && IsSmallest(g.partitions, k)
            && Contents(g'.partitions[k])
               == Contents(g.partitions[k]) + Contents(staging) + [payload[..Min(|payload|, 255)]]
            && forall i :: 0 <= i < |g.partitions| && i != k ==> g'.partitions[i] == g.partitions[i]
  {
    hide Drained, Contents, SmallestOf;
    var k := Smallest(g);
    assert g.partitions[..|g.partitions|] == g.partitions;
    DrainKeepsOrder(staging, g.partitions[k]);
    AppendShifts(Drained(staging, g.partitions[k]).1, payload);
  }

  /** A pop delivers the oldest message of its partition and touches nothing else. */
  lemma PopExactly(t: Topic, i: nat, k: nat)
    requires ValidTopic(t) && InPlace(t, i, k) && NotFull(t.groups[i].partitions[k])
    ensures var u, queued := Popped(t, i, k), Contents(t.groups[i].partitions[k]);
            && Delivered(t, i, k) == (if queued == [] then None else Some(queued[0]))
            && u.staging == t.staging && |u.groups| == |t.groups|
            && |u.groups[i].partitions| == |t.groups[i].partitions|
            && Contents(u.groups[i].partitions[k]) == (if queued == [] then [] else queued[1..])
            && (forall j :: 0 <= j < |t.groups| && j != i ==> u.groups[j] == t.groups[j])
            && forall j :: 0 <= j < |t.groups[i].partitions| && j != k ==>
                 u.groups[i].partitions[j] == t.groups[i].partitions[j]
  {
    hide Latest;
    var r := t.groups[i].partitions[k];
    MapIsFifoBelowCapacity(r);
    if MapFront(r).Some? {
      PopShifts(r);
    }
  }

  /** Only the named group changes when a consumer registers: it is created if need be, and its consumer
      count goes up by one. */
  lemma RegisterExactly(t: Topic, id: u16)
    ensures var u, i := Registered(t, id), IndexOf(t.groups, id);
            && u.staging == t.staging && |u.groups| == Max(|t.groups|, i + 1)
            && (forall j :: 0 <= j < |t.groups| && j != i ==> u.groups[j] == t.groups[j])
            && u.groups[i].id == id
            && u.groups[i].consumers == (if i < |t.groups| then t.groups[i].consumers else 0) + 1
  {
    if IndexOf(t.groups, id) == |t.groups| {
      FoundAfterAdding(t.groups, id);
    }
  }

  // ---- A group with one partition is a queue

  /** What the group was handed, then what is queued, then for the first group what is staged. */
  function Line(b: Books, j: nat): seq<Payload>
    requires j < |b.topic.groups| == |b.handed| && b.topic.groups[j].partitions != []
    requires b.topic.staging.Valid() && b.topic.groups[j].partitions[0].Valid()
  {
    b.handed[j] + Contents(b.topic.groups[j].partitions[0]) + if j == 0 then Contents(b.topic.staging) else []
  }

  ghost predicate GroupInLine(b: Books, j: nat)
    requires Shaped(b) && j < |b.topic.groups|
  {
    |b.topic.groups[j].partitions| == 1 ==> Line(b, j) == b.produced[if j == 0 then 0 else b.since[j]..]
  }

  ghost predicate InLine(b: Books) {
    && Shaped(b)
    && (b.topic.groups == [] ==> Contents(b.topic.staging) == b.produced)
    && forall j :: 0 <= j < |b.topic.groups| ==> GroupInLine(b, j)
  }

  lemma {:induction false} FedInOrder(t: Topic, payload: Payload, i: nat, j: nat)
    requires ValidTopic(t) && i <= |t.groups| && j < |t.groups| && |payload| <= MAX_MSG_SIZE && NotFull(t.staging)
    ensures var u := Fed(t, payload, i);
            && ValidTopic(u) && |u.groups| == |t.groups| && |u.groups[j].partitions| == |t.groups[j].partitions|
            && (i < |t.groups| ==> Contents(u.staging) == [])
            && (|t.groups[j].partitions| == 1 ==>
                  Contents(u.groups[j].partitions[0]) ==
                  if j < i then Contents(t.groups[j].partitions[0])
                  else Contents(t.groups[j].partitions[0]) + (if j == i then Contents(t.staging) else []) + [payload])
    decreases |t.groups| - i
  {
    hide Contents, FedGroup;
    if i < |t.groups| {
      FedGroupInOrder(t.staging, t.groups[i], payload);
      var (left, g) := FedGroup(t.staging, t.groups[i], payload);
      NothingLeft(left);
      FedInOrder(Topic(left, t.groups[i := g]), payload, i + 1, j);
      assert payload[..|payload|] == payload;
      if i + 1 == |t.groups| {
        assert Fed(Topic(left, t.groups[i := g]), payload, i + 1) == Topic(left, t.groups[i := g]);
      }
      assert j > i ==> Contents(t.groups[j].partitions[0]) + [] == Contents(t.groups[j].partitions[0]);
    }
  }

  lemma NothingLeft(r: Ring)
    requires r.Valid() && Contents(r) == []
    ensures NotFull(r)
  {
  }

  lemma ProduceInLine(b: Books, payload: Payload)
    requires InLine(b) && Roomy(b.topic) && |payload| <= MAX_MSG_SIZE
    requires Shaped(Next(b, Produce(payload)))
    ensures InLine(Next(b, Produce(payload)))
  {
    hide Contents, Fed, Roomy;
    assert NotFull(b.topic.staging) by { RoomyStaging(b.topic); }
    var n := Next(b, Produce(payload));
    if b.topic.groups == [] {
      AppendShifts(b.topic.staging, payload);
    } else {
      forall j | 0 <= j < |n.topic.groups| ensures GroupInLine(n, j) {
        FedInOrder(b.topic, payload, 0, j);
        if |n.topic.groups[j].partitions| == 1 {
          assert GroupInLine(b, j);
          OneMoreInLine(b, n, payload, j);
        }
      }
    }
  }

  lemma RoomyStaging(t: Topic)
    requires Roomy(t)
    ensures NotFull(t.staging)
  {
  }

  lemma OneMoreInLine(b: Books, n: Books, payload: Payload, j: nat)
    requires Shaped(b) && Shaped(n) && j < |b.topic.groups| == |n.topic.groups| && GroupInLine(b, j)
    requires |b.topic.groups[j].partitions| == |n.topic.groups[j].partitions| == 1
    requires n.handed == b.handed && n.since == b.since && n.produced == b.produced + [payload]
    requires Contents(n.topic.staging) == []
    requires var was, now := b.topic.groups[j].partitions[0], n.topic.groups[j].partitions[0];
             Contents(now) == Contents(was) + (if j == 0 then Contents(b.topic.staging) else []) + [payload]
    ensures GroupInLine(n, j)
  {
    hide Contents;
    var s := if j == 0 then 0 else b.since[j];
    var queued := Contents(b.topic.groups[j].partitions[0]);
    var staged := if j == 0 then Contents(b.topic.staging) else [];
    assert n.produced[s..] == b.produced[s..] + [payload];
    assert b.handed[j] + (queued + staged + [payload]) + [] == b.handed[j] + queued + staged + [payload];
  }

  lemma EnsureInLine(b: Books, id: u16)
    requires InLine(b) && Shaped(Entered(b, WithGroup(b.topic, id)))
    ensures InLine(Entered(b, WithGroup(b.topic, id)))
  {
    hide Contents;
    var n := Entered(b, WithGroup(b.topic, id));
    forall j | 0 <= j < |n.topic.groups| ensures GroupInLine(n, j) {
      if j < |b.topic.groups| {
        assert GroupInLine(b, j);
      } else {
        NothingQueued();
        assert n.handed[j] == [] && n.since[j] == |b.produced| && b.produced[|b.produced|..] == [];
        assert [] + [] + Contents(b.topic.staging) == Contents(b.topic.staging);
        assert b.produced[0..] == b.produced;
      }
    }
  }

  lemma NothingQueued()
    ensures Contents(EmptyRing) == []
  {
  }

  /** A step that leaves staging, books and the single partitions alone. */
  lemma StillInLine(b: Books, n: Books)
    requires InLine(b) && Shaped(n) && |n.topic.groups| == |b.topic.groups|
    requires n.topic.staging == b.topic.staging && n.produced == b.produced
    requires n.handed == b.handed && n.since == b.since
    requires forall j :: 0 <= j < |b.topic.groups| && |n.topic.groups[j].partitions| == 1 ==>
               |b.topic.groups[j].partitions| == 1 && n.topic.groups[j].partitions[0] == b.topic.groups[j].partitions[0]
    ensures InLine(n)
  {
    hide Contents;
    forall j | 0 <= j < |n.topic.groups| ensures GroupInLine(n, j) {
      assert GroupInLine(b, j);
    }
  }

  lemma ConsumeInLine(b: Books, i: nat, k: nat)
    requires InLine(b) && Roomy(b.topic) && InPlace(b.topic, i, k) && Shaped(Next(b, Consume(i, k)))
    ensures InLine(Next(b, Consume(i, k)))
  {
    hide Contents, Popped, Delivered;
    var n := Next(b, Consume(i, k));
    assert NotFull(b.topic.groups[i].partitions[k]);
    PopExactly(b.topic, i, k);
    forall j | 0 <= j < |n.topic.groups| ensures GroupInLine(n, j) {
      assert GroupInLine(b, j);
      if j == i && |n.topic.groups[j].partitions| == 1 {
        var queued := Contents(b.topic.groups[i].partitions[0]);
        if queued != [] {
          assert queued == [queued[0]] + queued[1..];
          assert b.handed[i] + queued == b.handed[i] + [queued[0]] + queued[1..];
        }
      }
    }
  }

  lemma RegisterInLine(b: Books, id: u16)
    requires InLine(b) && Balanced(b, []) && Shaped(Next(b, Register(id)))
    ensures InLine(Next(b, Register(id)))
  {
    hide Contents, IndexOf, InLine, Balanced, WithReader;
    var u := Entered(b, WithGroup(b.topic, id));
    BalancedIsShaped(b);
    EnsureBalances(b, id, []);
    assert Shaped(u) by { BalancedIsShaped(u); }
    EnsureInLine(b, id);
    var n := Next(b, Register(id));
    var i := IndexOf(u.topic.groups, id);
    var t := Entered(b, Registered(b.topic, id));
    ReaderKeepsBooks(t, id);
    if i < |u.topic.groups| {
      assert t == u.(topic := u.topic.(groups := u.topic.groups[i := Seated(u.topic.groups[i])]));
    } else {
      assert t == u;
    }
    StillInLine(u, n);
  }

  lemma BalancedIsShaped(b: Books)
    requires Balanced(b, [])
    ensures Shaped(b)
  {
  }

  lemma ReaderKeepsBooks(b: Books, id: u16)
    ensures WithReader(b, id) == b.(seats := WithReader(b, id).seats)
  {
  }

  lemma StepInLine(b: Books, a: Action)
    requires InLine(b) && Balanced(b, []) && Roomy(b.topic) && (a.Produce? ==> |a.payload| <= MAX_MSG_SIZE)
    ensures InLine(Next(b, a))
  {
    hide InLine, Balanced, Roomy;
    BalancedIsShaped(b);
    StepBalances(b, a, []);
    var n := Next(b, a);
    BalancedIsShaped(n);
    match a
    case Produce(payload) => ProduceInLine(b, payload);
    case Ensure(id) => EnsureInLine(b, id);
    case Register(id) => RegisterInLine(b, id);
    case Restart => StillInLine(b, n);
    case Disconnect(i, p) => StillInLine(b, n);
    case Consume(i, k) => if InPlace(b.topic, i, k) { ConsumeInLine(b, i, k); }
  }

  lemma {:induction false} EveryRunInLine(run: seq<Books>, actions: seq<Action>, i: nat)
    requires IsRun(run, actions) && i < |run|
    ensures InLine(run[i])
  {
    if i > 0 {
      hide Next, Roomy, InLine, Balanced;
      EveryRunInLine(run, actions, i - 1);
      EveryRunBalances(run, actions, i - 1, []);
      BalancedIsShaped(run[i - 1]);
      StepInLine(run[i - 1], actions[i - 1]);
    }
  }

  /** In every run a group with one partition is a queue: what it was handed, then what is queued, then for
      the first group what is staged, is exactly what was produced for it, in the order of production. */
  lemma OnePartitionIsFifo(run: seq<Books>, actions: seq<Action>, i: nat, j: nat)
    requires IsRun(run, actions) && i < |run|
    requires j < |run[i].topic.groups| && |run[i].topic.groups[j].partitions| == 1
    ensures var b := run[i];
            && Shaped(b)
            && b.handed[j] + Contents(b.topic.groups[j].partitions[0])
               + (if j == 0 then Contents(b.topic.staging) else [])
               == b.produced[if j == 0 then 0 else b.since[j]..]
  {
    hide IsRun, Contents;
    EveryRunInLine(run, actions, i);
    assert GroupInLine(run[i], j);
  }

  // ---- Who reads what

  /** Feeding changes what is in the queues and nothing else. */
  predicate SameShape(g: Group, g': Group) {
    g.id == g'.id && |g.partitions| == |g'.partitions| && g.consumers == g'.consumers
  }

  lemma {:induction false} FedShape(t: Topic, payload: Payload, i: nat, j: nat)
    requires ValidTopic(t) && i <= |t.groups| && j < |t.groups|
    ensures |Fed(t, payload, i).groups| == |t.groups| && SameShape(t.groups[j], Fed(t, payload, i).groups[j])
    decreases |t.groups| - i
  {
    if i < |t.groups| {
      FedGroupValid(t.staging, t.groups[i], payload);
      var (left, g) := FedGroup(t.staging, t.groups[i], payload);
      FedShape(Topic(left, t.groups[i := g]), payload, i + 1, j);
    }
  }

  /** As many consumers as a u16 can number. */
  const MOST_CONSUMERS: nat := 0x1_0000

  ghost predicate Increasing(s: seq<nat>) {
    forall i, j :: 0 <= i < j < |s| ==> s[i] < s[j]
  }

  /** Up to that many consumers: indices are handed out in increasing order, those since the last
      restart run from what it found to the consumer count, and a partition has a reader exactly
      when it was handed out since then and its reader has not disconnected. */
  ghost predicate InOrder(g: Group, e: Seats) {
    && e.found <= g.consumers && e.before <= |e.given|
    && Increasing(e.given) && (forall p :: p in e.given ==> p < g.consumers)
    && (forall p :: p in e.given[e.before..] <==> e.found <= p < g.consumers)
    && (forall p :: p in e.readers <==> p in e.given[e.before..] && p !in e.gone)
  }

  ghost predicate Seating(g: Group, e: Seats) {
    SeatsTaken(g) && (g.consumers <= MOST_CONSUMERS ==> InOrder(g, e))
  }

  ghost predicate AllSeated(b: Books) {
    && |b.seats| == |b.topic.groups|
    && forall j :: 0 <= j < |b.topic.groups| ==> Seating(b.topic.groups[j], b.seats[j])
  }

  lemma {:induction false} GivenInOrder(g: Group, e: Seats)
    requires Seating(g, e)
    ensures Seating(Seated(g), Given(e, IndexGiven(Seated(g))))
  {
    SeatIsOwn(g);
    if g.consumers < MOST_CONSUMERS {
      assert IndexGiven(Seated(g)) == g.consumers;
      OneMoreInOrder(g, e);
    }
  }

  lemma OneMoreInOrder(g: Group, e: Seats)
    requires InOrder(g, e)
    ensures InOrder(Seated(g), Given(e, g.consumers))
  {
    var c := g.consumers;
    var more := Given(e, c);
    var was, now := e.given[e.before..], more.given[e.before..];
    assert now == was + [c];
    assert forall p :: p in now <==> p in was || p == c;
    assert Increasing(more.given) by {
      forall i, j | 0 <= i < j < |more.given| ensures more.given[i] < more.given[j] {
        assert more.given[i] in e.given;
      }
    }
    assert forall p :: p in more.given ==> p in e.given || p == c;
  }

  lemma LeftInOrder(g: Group, e: Seats, p: nat)
    requires Seating(g, e)
    ensures Seating(g, Left(e, p))
  {
  }

  lemma EmptiedInOrder(g: Group, e: Seats)
    requires Seating(g, e)
    ensures Seating(Loaded(g), Emptied(e, |g.partitions|))
  {
    assert e.given[|e.given|..] == [];
  }

  lemma ProduceSeats(b: Books, payload: Payload)
    requires Shaped(b) && AllSeated(b)
    ensures AllSeated(Next(b, Produce(payload)))
  {
    hide Fed;
    if b.topic.groups != [] {
      FedShape(b.topic, payload, 0, 0);
      var n := Next(b, Produce(payload));
      forall j | 0 <= j < |n.topic.groups| ensures Seating(n.topic.groups[j], n.seats[j]) {
        FedShape(b.topic, payload, 0, j);
        SameSeating(b.topic.groups[j], n.topic.groups[j], b.seats[j]);
      }
    }
  }

  lemma EnsureSeats(b: Books, id: u16)
    requires AllSeated(b)
    ensures var n := Entered(b, WithGroup(b.topic, id));
            AllSeated(n) && IndexOf(n.topic.groups, id) < |n.topic.groups|
  {
    if IndexOf(b.topic.groups, id) == |b.topic.groups| {
      FoundAfterAdding(b.topic.groups, id);
    }
    var n := Entered(b, WithGroup(b.topic, id));
    forall j | 0 <= j < |n.topic.groups| ensures Seating(n.topic.groups[j], n.seats[j]) {
      if j < |b.topic.groups| {
        assert Seating(b.topic.groups[j], b.seats[j]);
      }
    }
  }

  lemma RegisterSeats(b: Books, id: u16)
    requires Shaped(b) && AllSeated(b)
    ensures AllSeated(Next(b, Register(id)))
  {
    hide Seating, IndexOf, Seated, IndexGiven, Given;
    EnsureSeats(b, id);
    var u := Entered(b, WithGroup(b.topic, id));
    var i := IndexOf(u.topic.groups, id);
    IndexAfterSeating(u.topic.groups, id, i);
    var t := Entered(b, Registered(b.topic, id));
    assert t == u.(topic := u.topic.(groups := u.topic.groups[i := Seated(u.topic.groups[i])]));
    GivenInOrder(u.topic.groups[i], u.seats[i]);
  }

  lemma StepSeats(b: Books, a: Action)
    requires Shaped(b) && AllSeated(b)
    ensures AllSeated(Next(b, a))
  {
    hide Seating, Left, Emptied;
    match a
    case Produce(payload) => ProduceSeats(b, payload);
    case Ensure(id) => EnsureSeats(b, id);
    case Register(id) => RegisterSeats(b, id);
    case Restart =>
      forall j | 0 <= j < |b.seats|
        ensures Seating(Loaded(b.topic.groups[j]), Emptied(b.seats[j], |b.topic.groups[j].partitions|))
      {
        EmptiedInOrder(b.topic.groups[j], b.seats[j]);
      }
    case Disconnect(i, p) => if i < |b.seats| { LeftInOrder(b.topic.groups[i], b.seats[i], p); }
    case Consume(i, k) =>
      if InPlace(b.topic, i, k) {
        PoppedSeats(b, i, k);
      }
  }

  lemma PoppedSeats(b: Books, i: nat, k: nat)
    requires Shaped(b) && AllSeated(b) && InPlace(b.topic, i, k)
    ensures AllSeated(Next(b, Consume(i, k)))
  {
    hide InOrder;
    var n := Next(b, Consume(i, k));
    forall j | 0 <= j < |n.topic.groups| ensures Seating(n.topic.groups[j], n.seats[j]) {
      assert Seating(b.topic.groups[j], b.seats[j]);
      SameSeating(b.topic.groups[j], n.topic.groups[j], b.seats[j]);
    }
  }

  lemma SameSeating(g: Group, g': Group, e: Seats)
    requires Seating(g, e) && SameShape(g, g')
    ensures Seating(g', e)
  {
  }

  lemma {:induction false} EveryRunSeated(run: seq<Books>, actions: seq<Action>, i: nat)
    requires IsRun(run, actions) && i < |run|
    ensures AllSeated(run[i])
  {
    if i > 0 {
      hide Next, Roomy, AllSeated, Shaped;
      EveryRunSeated(run, actions, i - 1);
      ShapedAlways(run, actions, i - 1);
      StepSeats(run[i - 1], actions[i - 1]);
    }
  }

  /** In every run, disconnects and restarts included, as long as a group has had no more consumers
      than a u16 can number: no partition index is ever handed out twice, and a partition has a
      connected reader exactly when it was handed out since the last restart and its reader has not
      disconnected. The indices since the restart are those from what it found to the consumer count. */
  lemma NoPartitionIsGivenTwice(run: seq<Books>, actions: seq<Action>, i: nat, j: nat)
    requires IsRun(run, actions) && i < |run| && j < |run[i].topic.groups|
    requires run[i].topic.groups[j].consumers <= MOST_CONSUMERS
    ensures |run[i].seats| == |run[i].topic.groups|
    ensures var g, e := run[i].topic.groups[j], run[i].seats[j];
            && Increasing(e.given) && e.before <= |e.given|
            && (forall p :: p in e.readers <==> p in e.given[e.before..] && p !in e.gone)
            && (forall p :: p in e.given[e.before..] <==> e.found <= p < g.consumers)
  {
    hide IsRun, Increasing;
    EveryRunSeated(run, actions, i);
    assert Seating(run[i].topic.groups[j], run[i].seats[j]);
  }

  /** In every run the next consumer of a group gets a new partition, and is told its index exactly
      when it is not the 65537th or later one; the 65537th is told index 0. */
  lemma NextConsumerIndex(run: seq<Books>, actions: seq<Action>, i: nat, j: nat)
    requires IsRun(run, actions) && i < |run| && j < |run[i].topic.groups|
    ensures var g := run[i].topic.groups[j];
            && g.partitions <= Seated(g).partitions && |Seated(g).partitions| - 1 == g.consumers
            && (IndexGiven(Seated(g)) == g.consumers <==> g.consumers < MOST_CONSUMERS)
            && (g.consumers == MOST_CONSUMERS ==> IndexGiven(Seated(g)) == 0)
  {
    hide IsRun, InOrder;
    EveryRunSeated(run, actions, i);
    assert Seating(run[i].topic.groups[j], run[i].seats[j]);
    SeatIsOwn(run[i].topic.groups[j]);
  }

  /** What a restart found never shrinks while the consumers can be numbered. */
  lemma StepFound(b: Books, a: Action, j: nat)
    requires Shaped(b) && AllSeated(b) && j < |b.topic.groups| && b.topic.groups[j].consumers <= MOST_CONSUMERS
    ensures j < |Next(b, a).seats| && b.seats[j].found <= Next(b, a).seats[j].found
    ensures a.Restart? ==> Next(b, a).seats[j].found == |b.topic.groups[j].partitions|
  {
    hide Fed, Increasing;
    assert Seating(b.topic.groups[j], b.seats[j]);
  }

  lemma ConsumersGrow(b: Books, a: Action, j: nat)
    requires Shaped(b) && AllSeated(b) && j < |b.topic.groups|
    ensures j < |Next(b, a).topic.groups| && b.topic.groups[j].consumers <= Next(b, a).topic.groups[j].consumers
  {
    hide Fed, InOrder, IndexOf, WithReader, Delivered, MapPopped;
    assert SeatsTaken(b.topic.groups[j]) by { assert Seating(b.topic.groups[j], b.seats[j]); }
    if a.Produce? && b.topic.groups != [] {
      FedShape(b.topic, a.payload, 0, j);
    } else if a.Register? {
      ReaderKeepsTopic(Entered(b, Registered(b.topic, a.id)), a.id);
    }
  }

  lemma ReaderKeepsTopic(b: Books, id: u16)
    ensures WithReader(b, id).topic == b.topic
  {
  }

  lemma {:induction false} FoundGrows(run: seq<Books>, actions: seq<Action>, r: nat, i: nat, j: nat)
    requires IsRun(run, actions) && r <= i < |run| && j < |run[r].topic.groups|
    ensures j < |run[i].topic.groups| && run[r].topic.groups[j].consumers <= run[i].topic.groups[j].consumers
    ensures |run[r].seats| == |run[r].topic.groups| && |run[i].seats| == |run[i].topic.groups|
    ensures run[i].topic.groups[j].consumers <= MOST_CONSUMERS ==> run[r].seats[j].found <= run[i].seats[j].found
    decreases i
  {
    hide Next, Roomy, Shaped, Seating;
    EveryRunSeated(run, actions, i);
    EveryRunSeated(run, actions, r);
    if r < i {
      FoundGrows(run, actions, r, i - 1, j);
      EveryRunSeated(run, actions, i - 1);
      ShapedAlways(run, actions, i - 1);
      ConsumersGrow(run[i - 1], actions[i - 1], j);
      if run[i].topic.groups[j].consumers <= MOST_CONSUMERS {
        StepFound(run[i - 1], actions[i - 1], j);
      }
    }
  }

  /** A restart takes the readers of all partitions away for good: while the consumers can be
      numbered, no consumer that connects afterwards ever reads a partition that existed before,
      whatever is or will be queued there. */
  lemma RestartOrphansPartitions(run: seq<Books>, actions: seq<Action>, r: nat, i: nat, j: nat, p: nat)
    requires IsRun(run, actions) && r < i < |run| && actions[r].Restart?
    requires j < |run[r].topic.groups| && p < |run[r].topic.groups[j].partitions|
    ensures j < |run[i].topic.groups| == |run[i].seats|
    ensures run[i].topic.groups[j].consumers <= MOST_CONSUMERS ==> p !in run[i].seats[j].readers
  {
    hide Next, Roomy, Shaped, AllSeated, Increasing;
    FoundGrows(run, actions, r, i, j);
    GroupStays(run, actions, r, j);
    FoundGrows(run, actions, r + 1, i, j);
    if run[i].topic.groups[j].consumers <= MOST_CONSUMERS {
      EveryRunSeated(run, actions, r);
      ShapedAlways(run, actions, r);
      StepFound(run[r], actions[r], j);
      NoPartitionIsGivenTwice(run, actions, i, j);
    }
  }

  lemma GroupStays(run: seq<Books>, actions: seq<Action>, r: nat, j: nat)
    requires IsRun(run, actions) && r + 1 < |run| && actions[r].Restart? && j < |run[r].topic.groups|
    ensures j < |run[r + 1].topic.groups|
  {
    hide Roomy;
    ShapedAlways(run, actions, r);
  }

  lemma ShapedAlways(run: seq<Books>, actions: seq<Action>, i: nat)
    requires IsRun(run, actions) && i < |run|
    ensures Shaped(run[i])
  {
    hide IsRun, Shaped, Has, Due;
    EveryRunBalances(run, actions, i, []);
  }

  lemma {:induction false} StagedWasProduced(run: seq<Books>, actions: seq<Action>, i: nat)
    requires IsRun(run, actions) && i < |run|
    ensures |run[i].topic.staging.all| <= |run[i].produced|
  {
    if i > 0 {
      hide Roomy, Next, Shaped;
      StagedWasProduced(run, actions, i - 1);
      ShapedAlways(run, actions, i - 1);
      StagingGrows(run[i - 1], actions[i - 1]);
    }
  }

  /** A produce always answers with the offset of its record in the log: never more is staged than
      was produced, and the log holds at least that. */
  lemma AnswerIsLogOffset(run: seq<Books>, actions: seq<Action>, i: nat, logOffset: nat)
    requires IsRun(run, actions) && i < |run| && logOffset >= |run[i].produced|
    ensures run[i].topic.staging.Valid() && Answered(run[i].topic, logOffset) == logOffset
  {
    hide IsRun;
    StagedWasProduced(run, actions, i);
    ShapedAlways(run, actions, i);
  }

  lemma StagingGrows(b: Books, a: Action)
    requires Shaped(b)
    ensures |Next(b, a).topic.staging.all| <= |b.topic.staging.all| + (|Next(b, a).produced| - |b.produced|)
    ensures |Next(b, a).produced| >= |b.produced|
  {
    if a.Produce? && b.topic.groups != [] {
      FedStaging(b.topic, a.payload, 0);
    }
  }

  lemma {:induction false} FedStaging(t: Topic, payload: Payload, i: nat)
    requires ValidTopic(t) && i <= |t.groups|
    ensures Fed(t, payload, i).staging.all == t.staging.all
    decreases |t.groups| - i
  {
    if i < |t.groups| {
      FedGroupValid(t.staging, t.groups[i], payload);
      var (left, g) := FedGroup(t.staging, t.groups[i], payload);
      DrainKeepsAll(t.staging, t.groups[i].partitions[Smallest(t.groups[i])]);
      FedStaging(Topic(left, t.groups[i := g]), payload, i + 1);
    }
  }

  lemma {:induction false} DrainKeepsAll(from: Ring, to: Ring)
    requires from.Valid()
    ensures Drained(from, to).0.all == from.all
    decreases |from.all| - from.gone
  {
    if MapFront(from).Some? {
      DrainKeepsAll(MapPopped(from), MapAppended(to, MapFront(from).value));
    }
  }
}
