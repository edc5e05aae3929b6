/** The two ring buffers: the memory-mapped queue of the legacy push path, which tells full
    from empty by nothing, and the in-memory queue, which evicts. */
module Rings {
  import opened Bytes

  const MAX_MSG_SIZE: nat := 255
  const QUEUE_CAPACITY: nat := 10_000
  const BUFFER_BYTES: nat := 2_550_000

  type Payload = seq<byte>

  /** Payloads are cut at 255 bytes. */
  function Cut(p: Payload): (r: Payload)
    ensures |r| <= MAX_MSG_SIZE
  {
    p[..Min(|p|, MAX_MSG_SIZE)]
  }

  /** Of the first `n` appends, the last one that went to slot `j`. */
  function Latest(j: nat, n: nat): (i: nat)
    requires j < QUEUE_CAPACITY && j < n
    ensures j <= i < n && i % QUEUE_CAPACITY == j
  {
    if (n - 1) % QUEUE_CAPACITY == j then n - 1 else Latest(j, n - 1)
  }

  /** Slot of the next append or pop after `n` of them. */
  lemma NextSlot(n: nat)
    ensures (n + 1) % QUEUE_CAPACITY == if n % QUEUE_CAPACITY == QUEUE_CAPACITY - 1 then 0 else n % QUEUE_CAPACITY + 1
  {
  }

  lemma Bump(n: nat)
    ensures (n % QUEUE_CAPACITY + 1) % QUEUE_CAPACITY == (n + 1) % QUEUE_CAPACITY
  {
    NextSlot(n);
  }

  lemma NextPosition(n: nat)
    ensures (MAX_MSG_SIZE * (n % QUEUE_CAPACITY) + MAX_MSG_SIZE) % BUFFER_BYTES
            == MAX_MSG_SIZE * ((n + 1) % QUEUE_CAPACITY)
  {
    NextSlot(n);
  }

  /** An append is still in its slot as long as fewer than a full turn came after it. */
  lemma {:induction false} NotOverwritten(i: nat, n: nat)
    requires i < n <= i + QUEUE_CAPACITY
    ensures i % QUEUE_CAPACITY < n && Latest(i % QUEUE_CAPACITY, n) == i
    decreases n
  {
    if i < n - 1 {
      NotOverwritten(i, n - 1);
      var d := n - 1 - i;
      assert (i + d) % QUEUE_CAPACITY != i % QUEUE_CAPACITY by { Turn(i, d); }
    }
  }

  lemma Turn(i: nat, d: nat)
    requires 0 < d < QUEUE_CAPACITY
    ensures (i + d) % QUEUE_CAPACITY != i % QUEUE_CAPACITY
  {
    var q, r := i / QUEUE_CAPACITY, i % QUEUE_CAPACITY;
    if r + d < QUEUE_CAPACITY {
      assert (i + d) % QUEUE_CAPACITY == r + d;
    } else {
      assert (i + d) % QUEUE_CAPACITY == r + d - QUEUE_CAPACITY;
    }
  }

  /** The distance between two ring positions is the count difference modulo the capacity. */
  lemma Distance(popped: nat, n: nat)
    requires popped <= n
    ensures var a, b := popped % QUEUE_CAPACITY, n % QUEUE_CAPACITY;
            (n - popped) % QUEUE_CAPACITY == if b >= a then b - a else QUEUE_CAPACITY - a + b
  {
    var d := n - popped;
    var a, e := popped % QUEUE_CAPACITY, d % QUEUE_CAPACITY;
    assert n == popped + d;
    if a + e < QUEUE_CAPACITY {
      assert n % QUEUE_CAPACITY == a + e;
    } else {
      assert n % QUEUE_CAPACITY == a + e - QUEUE_CAPACITY;
    }
  }

  // ---- Values

  /** Everything appended (after cutting) and how many have left. */
  datatype Ring = Ring(all: seq<Payload>, gone: nat)
  {
    ghost predicate Valid() {
      gone <= |all| && forall i :: 0 <= i < |all| ==> |all[i]| <= MAX_MSG_SIZE
    }
  }

  // The memory-mapped queue.

  function MapLen(r: Ring): nat
    requires r.gone <= |r.all|
  {
    (|r.all| - r.gone) % QUEUE_CAPACITY
  }

  function MapAppended(r: Ring, p: Payload): Ring {
    r.(all := r.all + [Cut(p)])
  }

  function MapFront(r: Ring): Option<Payload>
    requires r.gone <= |r.all|
  {
    if MapLen(r) == 0 then None else Some(r.all[Latest(r.gone % QUEUE_CAPACITY, |r.all|)])
  }

  function MapPopped(r: Ring): Ring
    requires r.gone <= |r.all|
  {
    if MapLen(r) == 0 then r else r.(gone := r.gone + 1)
  }

  /** The queue is an exact FIFO while fewer than 10000 messages are in it; with 10000 it looks
      empty. */
  lemma MapIsFifoBelowCapacity(r: Ring)
    requires r.gone <= |r.all|
    ensures |r.all| - r.gone < QUEUE_CAPACITY ==>
      MapLen(r) == |r.all| - r.gone
      && MapFront(r) == if r.gone == |r.all| then None else Some(r.all[r.gone])
    ensures |r.all| - r.gone == QUEUE_CAPACITY ==> MapLen(r) == 0 && MapFront(r) == None
  {
    hide Latest;
    if r.gone < |r.all| <= r.gone + QUEUE_CAPACITY {
      NotOverwritten(r.gone, |r.all|);
    }
  }

  /** Beyond 10000 the front is not the oldest message but one from a later turn. */
  lemma MapBeyondCapacity(r: Ring)
    requires |r.all| > r.gone + QUEUE_CAPACITY && MapLen(r) != 0
    ensures exists i :: r.gone + QUEUE_CAPACITY <= i < |r.all| && MapFront(r) == Some(r.all[i])
  {
    hide Latest;
    var j, m := r.gone % QUEUE_CAPACITY, r.gone + QUEUE_CAPACITY;
    assert m % QUEUE_CAPACITY == j;
    NotOverwritten(m, m + 1);
    LatestGrows(j, m + 1, |r.all|);
    assert MapFront(r) == Some(r.all[Latest(j, |r.all|)]);
  }

  lemma {:induction false} LatestGrows(j: nat, m: nat, n: nat)
    requires j < QUEUE_CAPACITY && j < m <= n
    ensures Latest(j, m) <= Latest(j, n)
    decreases n
  {
    if m < n && (n - 1) % QUEUE_CAPACITY != j {
      LatestGrows(j, m, n - 1);
    }
  }

  // The evicting queue.

  function QueueAppended(r: Ring, p: Payload): Ring
    requires r.gone <= |r.all|
  {
    Ring(r.all + [Cut(p)], if |r.all| - r.gone == QUEUE_CAPACITY then r.gone + 1 else r.gone)
  }

  function QueueFront(r: Ring): Option<Payload>
    requires r.gone <= |r.all|
  {
    if r.gone == |r.all| then None else Some(r.all[r.gone])
  }

  function QueuePopped(r: Ring): Ring
    requires r.gone <= |r.all|
  {
    if r.gone == |r.all| then r else r.(gone := r.gone + 1)
  }

  /** What the evicting queue holds: the newest 10000 of what was there and the new payload. */
  function Contents(r: Ring): seq<Payload>
    requires r.gone <= |r.all|
  {
    r.all[r.gone..]
  }

  lemma QueueKeepsNewest(r: Ring, p: Payload)
    requires r.gone <= |r.all| <= r.gone + QUEUE_CAPACITY
    ensures var grown := Contents(r) + [Cut(p)];
            Contents(QueueAppended(r, p)) == if |grown| > QUEUE_CAPACITY then grown[1..] else grown
    ensures |Contents(QueueAppended(r, p))| <= QUEUE_CAPACITY
    ensures Contents(QueuePopped(r)) == if Contents(r) == [] then [] else Contents(r)[1..]
    ensures QueueFront(r) == if Contents(r) == [] then None else Some(Contents(r)[0])
  {
  }

  // ---- Both on the same operations

  datatype Op = Append(payload: Payload) | Pop

  /** What a caller sees of one operation: the message popped, and the length afterwards. */
  datatype Seen = Seen(popped: Option<Payload>, length: nat)

  function MapRun(ops: seq<Op>): (r: Ring)
    ensures r.Valid()
  {
    if ops == [] then Ring([], 0)
    else
      var r := MapRun(ops[..|ops| - 1]);
      match ops[|ops| - 1]
      case Append(p) => MapAppended(r, p)
      case Pop => MapPopped(r)
  }

  function QueueRun(ops: seq<Op>): (r: Ring)
    ensures r.Valid() && |r.all| <= r.gone + QUEUE_CAPACITY
  {
    if ops == [] then Ring([], 0)
    else
      var r := QueueRun(ops[..|ops| - 1]);
      match ops[|ops| - 1]
      case Append(p) => QueueAppended(r, p)
      case Pop => QueuePopped(r)
  }

  function MapSees(ops: seq<Op>): Seen
    requires ops != []
  {
    Seen(if ops[|ops| - 1].Pop? then MapFront(MapRun(ops[..|ops| - 1])) else None, MapLen(MapRun(ops)))
  }

  function QueueSees(ops: seq<Op>): Seen
    requires ops != []
  {
    var r := QueueRun(ops);
    Seen(if ops[|ops| - 1].Pop? then QueueFront(QueueRun(ops[..|ops| - 1])) else None, |r.all| - r.gone)
  }

  /** Agreement on everything seen so far. */
  ghost predicate Agree(ops: seq<Op>) {
    forall n :: 0 < n <= |ops| ==> MapSees(ops[..n]) == QueueSees(ops[..n])
  }

  /** The memory-mapped queue never holds 10000 messages along the way. */
  ghost predicate NeverFull(ops: seq<Op>) {
    forall n :: 0 <= n <= |ops| ==> |MapRun(ops[..n]).all| - MapRun(ops[..n]).gone < QUEUE_CAPACITY
  }

  lemma {:induction false} SameWhileNotFull(ops: seq<Op>)
    requires NeverFull(ops)
    ensures MapRun(ops) == QueueRun(ops)
    decreases |ops|
  {
    if ops != [] {
      var n := |ops| - 1;
      assert NeverFull(ops[..n]) by {
        forall m | 0 <= m <= n ensures ops[..n][..m] == ops[..m] {
        }
      }
      SameWhileNotFull(ops[..n]);
      MapIsFifoBelowCapacity(MapRun(ops[..n]));
      assert ops[..n + 1] == ops;
      assert |MapRun(ops[..n]).all| - MapRun(ops[..n]).gone < QUEUE_CAPACITY;
    }
  }

  lemma SeesSame(ops: seq<Op>)
    requires ops != [] && NeverFull(ops)
    ensures MapSees(ops) == QueueSees(ops)
  {
    var n := |ops| - 1;
    SameWhileNotFull(ops);
    assert NeverFull(ops[..n]) by {
      forall m | 0 <= m <= n ensures ops[..n][..m] == ops[..m] {
      }
    }
    SameWhileNotFull(ops[..n]);
    assert ops[..n + 1] == ops;
    MapIsFifoBelowCapacity(MapRun(ops));
    MapIsFifoBelowCapacity(MapRun(ops[..n]));
  }

  /** The first moment the memory-mapped queue holds 10000 messages. */
  lemma {:induction false} FirstFull(ops: seq<Op>, n: nat) returns (m: nat)
    requires n <= |ops| && |MapRun(ops[..n]).all| - MapRun(ops[..n]).gone >= QUEUE_CAPACITY
    ensures 0 < m <= n && NeverFull(ops[..m - 1])
    ensures |MapRun(ops[..m]).all| - MapRun(ops[..m]).gone >= QUEUE_CAPACITY
    decreases n
  {
    assert n > 0;
    if k :| 0 <= k < n && |MapRun(ops[..k]).all| - MapRun(ops[..k]).gone >= QUEUE_CAPACITY {
      m := FirstFull(ops, k);
    } else {
      m := n;
      var before := ops[..n - 1];
      forall k | 0 <= k <= n - 1 ensures |MapRun(before[..k]).all| - MapRun(before[..k]).gone < QUEUE_CAPACITY {
        assert before[..k] == ops[..k];
      }
    }
  }

  lemma FullDiffers(ops: seq<Op>, m: nat)
    requires 0 < m <= |ops| && NeverFull(ops[..m - 1])
    requires |MapRun(ops[..m]).all| - MapRun(ops[..m]).gone >= QUEUE_CAPACITY
    ensures MapSees(ops[..m]) != QueueSees(ops[..m])
  {
    var before := ops[..m - 1];
    SameWhileNotFull(before);
    assert ops[..m][..m - 1] == before;
    assert before[..m - 1] == before;
    assert |MapRun(before).all| - MapRun(before).gone < QUEUE_CAPACITY;
    MapIsFifoBelowCapacity(MapRun(ops[..m]));
  }

  /** On every sequence of operations the two queues show the same pops and lengths exactly as
      long as the memory-mapped one never holds 10000 messages. */
  lemma AgreeExactlyUntilFull(ops: seq<Op>)
    ensures Agree(ops) <==> NeverFull(ops)
  {
    hide MapSees, QueueSees, MapRun, QueueRun;
    if NeverFull(ops) {
      forall n | 0 < n <= |ops| ensures MapSees(ops[..n]) == QueueSees(ops[..n]) {
        assert NeverFull(ops[..n]) by {
          forall k | 0 <= k <= n ensures ops[..n][..k] == ops[..k] {
          }
        }
        SeesSame(ops[..n]);
      }
    } else {
      var n :| 0 <= n <= |ops| && |MapRun(ops[..n]).all| - MapRun(ops[..n]).gone >= QUEUE_CAPACITY;
      var m := FirstFull(ops, n);
      FullDiffers(ops, m);
    }
  }

  // ---- The buffers

  /** Slot `j` of a buffer holds `p`. */
  predicate Holds(buffer: seq<byte>, size: byte, j: nat, p: Payload) {
    && MAX_MSG_SIZE * j + |p| <= |buffer|
    && size == |p|
    && buffer[MAX_MSG_SIZE * j..MAX_MSG_SIZE * j + |p|] == p
  }

  /** Where the size byte of slot `j` is: beside its data (`spread`), or in a table of its own. */
  function SizeAt(spread: bool, j: nat): nat {
    if spread then MAX_MSG_SIZE * j else j
  }

  /** Every slot in use holds the last append that went there. */
  ghost predicate SlotsOk(buffer: seq<byte>, sizes: seq<byte>, spread: bool, all: seq<Payload>) {
    && |buffer| == BUFFER_BYTES
    && |sizes| == SizeAt(spread, QUEUE_CAPACITY)
    && forall j :: 0 <= j < QUEUE_CAPACITY && j < |all| ==>
         Holds(buffer, sizes[SizeAt(spread, j)], j, all[Latest(j, |all|)])
  }

  /** Writing at slot `t` leaves the other slots alone. */
  lemma OtherSlots(before: seq<byte>, after: seq<byte>, t: nat, j: nat, size: byte, p: Payload)
    requires |before| == |after| && j != t && |p| <= MAX_MSG_SIZE
    requires forall x :: 0 <= x < |before| && !(MAX_MSG_SIZE * t <= x < MAX_MSG_SIZE * t + MAX_MSG_SIZE) ==>
            after[x] == before[x]
    requires Holds(before, size, j, p)
    ensures Holds(after, size, j, p)
  {
    var lo, hi := MAX_MSG_SIZE * j, MAX_MSG_SIZE * j + |p|;
    assert j < t ==> hi <= MAX_MSG_SIZE * t;
    assert j > t ==> MAX_MSG_SIZE * t + MAX_MSG_SIZE <= lo;
    assert after[lo..hi] == before[lo..hi];
  }

  lemma SlotWritten(before: seq<byte>, after: seq<byte>, sizes: seq<byte>, spread: bool, all: seq<Payload>, p: Payload)
    requires SlotsOk(before, sizes, spread, all) && |p| <= MAX_MSG_SIZE && |after| == |before|
    requires forall i :: 0 <= i < |all| ==> |all[i]| <= MAX_MSG_SIZE
    requires var t := |all| % QUEUE_CAPACITY;
             && Holds(after, |p|, t, p)
             && forall x :: 0 <= x < |before| && !(MAX_MSG_SIZE * t <= x < MAX_MSG_SIZE * t + MAX_MSG_SIZE) ==>
               after[x] == before[x]
    ensures SlotsOk(after, sizes[SizeAt(spread, |all| % QUEUE_CAPACITY) := |p|], spread, all + [p])
  {
    hide Holds, Latest;
    var sizes' := sizes[SizeAt(spread, |all| % QUEUE_CAPACITY) := |p|];
    forall j | 0 <= j < QUEUE_CAPACITY && j < |all| + 1
      ensures Holds(after, sizes'[SizeAt(spread, j)], j, (all + [p])[Latest(j, |all| + 1)])
    {
      LatestStep(j, |all|);
      if j != |all| % QUEUE_CAPACITY {
        OtherSlots(before, after, |all| % QUEUE_CAPACITY, j, sizes[SizeAt(spread, j)], all[Latest(j, |all|)]);
      }
    }
  }

  lemma LatestStep(j: nat, n: nat)
    requires j < QUEUE_CAPACITY && j < n + 1
    ensures j == n % QUEUE_CAPACITY ==> Latest(j, n + 1) == n
    ensures j != n % QUEUE_CAPACITY ==> j < n && Latest(j, n + 1) == Latest(j, n)
  {
  }

  class MmapQueue {
    var head: u32
    var tail: u32
    const buffer: array<byte>
    const sizes: array<byte>
    ghost var ring: Ring

    /** Head and tail are in-range multiples of 255, at the pops and appends modulo 10000. */
    ghost predicate Valid()
      reads this, buffer, sizes
    {
      && ring.Valid() && buffer != sizes && SlotsOk(buffer[..], sizes[..], true, ring.all)
      && head == MAX_MSG_SIZE * (ring.gone % QUEUE_CAPACITY)
      && tail == MAX_MSG_SIZE * (|ring.all| % QUEUE_CAPACITY)
    }

    constructor ()
      ensures Valid() && ring == Ring([], 0) && fresh(buffer) && fresh(sizes)
    {
      head, tail := 0, 0;
      buffer := new byte[BUFFER_BYTES];
      sizes := new byte[BUFFER_BYTES];
      ring := Ring([], 0);
    }

    method LiveLen() returns (n: nat)
      requires Valid()
      ensures n == MapLen(ring)
    {
      hide SlotsOk;
      Distance(ring.gone, |ring.all|);
      if tail >= head {
        return (tail - head) / MAX_MSG_SIZE;
      }
      return (BUFFER_BYTES - head + tail) / MAX_MSG_SIZE;
    }

    method Append(payload: Payload) returns (offset: nat)
      requires Valid()
      modifies this, buffer, sizes
      ensures Valid() && ring == MapAppended(old(ring), payload)
      ensures offset == MapLen(old(ring))
    {
      hide SlotsOk;
      offset := LiveLen();
      var len := Min(|payload|, MAX_MSG_SIZE);
      SlotLengths(buffer[..], sizes[..], true, ring.all);
      Write(buffer, ring.all, sizes[..], true, tail, payload[..len]);
      sizes[tail] := len;
      assert sizes[..] == old(sizes[..])[tail := len];
      NextPosition(|ring.all|);
      tail := (tail + MAX_MSG_SIZE) % BUFFER_BYTES;
      ring := MapAppended(ring, payload);
    }

    method PopFront() returns (r: Option<Payload>)
      requires Valid()
      modifies this`head, this`ring
      ensures Valid() && ring == MapPopped(old(ring)) && r == MapFront(old(ring))
    {
      hide SlotsOk, Latest;
      Distance(ring.gone, |ring.all|);
      SlotLengths(buffer[..], sizes[..], true, ring.all);
      if head == tail {
        return None;
      }
      ReadSlot(buffer[..], sizes[..], true, ring.all, ring.gone % QUEUE_CAPACITY);
      var start := head;
      var len: nat := sizes[start];
      r := Some(buffer[start..start + len]);
      assert buffer[..][start..start + len] == buffer[start..start + len];
      NextPosition(ring.gone);
      head := (head + MAX_MSG_SIZE) % BUFFER_BYTES;
      ring := MapPopped(ring);
    }
  }

  lemma SlotLengths(buffer: seq<byte>, sizes: seq<byte>, spread: bool, all: seq<Payload>)
    requires SlotsOk(buffer, sizes, spread, all)
    ensures |buffer| == BUFFER_BYTES && |sizes| == SizeAt(spread, QUEUE_CAPACITY)
  {
  }

  /** What is read back from a slot in use. */
  lemma ReadSlot(buffer: seq<byte>, sizes: seq<byte>, spread: bool, all: seq<Payload>, j: nat)
    requires SlotsOk(buffer, sizes, spread, all) && j < QUEUE_CAPACITY && j < |all|
    ensures var at, len := MAX_MSG_SIZE * j, sizes[SizeAt(spread, j)];
            at + len <= |buffer| && buffer[at..at + len] == all[Latest(j, |all|)]
  {
    assert Holds(buffer, sizes[SizeAt(spread, j)], j, all[Latest(j, |all|)]);
  }

  /** Copies a payload into the slot of the next append. */
  method Write(buffer: array<byte>, ghost all: seq<Payload>, ghost sizes: seq<byte>, ghost spread: bool, start: nat,
               p: Payload)
    requires SlotsOk(buffer[..], sizes, spread, all) && |p| <= MAX_MSG_SIZE
    requires forall i :: 0 <= i < |all| ==> |all[i]| <= MAX_MSG_SIZE
    requires start == MAX_MSG_SIZE * (|all| % QUEUE_CAPACITY)
    modifies buffer
    ensures SlotsOk(buffer[..], sizes[SizeAt(spread, |all| % QUEUE_CAPACITY) := |p|], spread, all + [p])
  {
    hide SlotsOk;
    SlotLengths(buffer[..], sizes, spread, all);
    forall i | 0 <= i < |p| {
      buffer[start + i] := p[i];
    }
    assert buffer[start..start + |p|] == p;
    SlotWritten(old(buffer[..]), buffer[..], sizes, spread, all, p);
  }

  /** The in-memory queue. */
  class Queue {
    var head: nat
    var tail: nat
    var baseOffset: nat
    var nextOffset: nat
    const buffer: array<byte>
    const sizes: array<byte>
    ghost var ring: Ring

    ghost predicate Valid()
      reads this, buffer, sizes
    {
      && ring.Valid() && |ring.all| <= ring.gone + QUEUE_CAPACITY
      && buffer != sizes && SlotsOk(buffer[..], sizes[..], false, ring.all)
      && baseOffset == ring.gone && nextOffset == |ring.all|
      && head == ring.gone % QUEUE_CAPACITY && tail == |ring.all| % QUEUE_CAPACITY
    }

    constructor ()
      ensures Valid() && ring == Ring([], 0) && fresh(buffer) && fresh(sizes)
    {
      head, tail, baseOffset, nextOffset := 0, 0, 0, 0;
      buffer := new byte[BUFFER_BYTES];
      sizes := new byte[QUEUE_CAPACITY];
      ring := Ring([], 0);
    }

    method Append(payload: Payload) returns (offset: nat)
      requires Valid()
      modifies this, buffer, sizes
      ensures Valid() && ring == QueueAppended(old(ring), payload)
      ensures offset == |old(ring.all)|
    {
      hide SlotsOk;
      Bump(ring.gone);
      Bump(|ring.all|);
      if nextOffset - baseOffset == QUEUE_CAPACITY {
        head := (head + 1) % QUEUE_CAPACITY;
        baseOffset := baseOffset + 1;
      }
      var len := Min(|payload|, MAX_MSG_SIZE);
      SlotLengths(buffer[..], sizes[..], false, ring.all);
      Write(buffer, ring.all, sizes[..], false, tail * MAX_MSG_SIZE, payload[..len]);
      sizes[tail] := len;
      assert sizes[..] == old(sizes[..])[tail := len];
      tail := (tail + 1) % QUEUE_CAPACITY;
      offset := nextOffset;
      nextOffset := nextOffset + 1;
      ring := QueueAppended(ring, payload);
    }

    method ReadAt(offset: nat) returns (r: Option<Payload>)
      requires Valid()
      ensures r == if ring.gone <= offset < |ring.all| then Some(ring.all[offset]) else None
    {
      if offset >= nextOffset || offset < baseOffset {
        return None;
      }
      hide SlotsOk, Latest;
      var slot := offset % QUEUE_CAPACITY;
      NotOverwritten(offset, nextOffset);
      SlotLengths(buffer[..], sizes[..], false, ring.all);
      ReadSlot(buffer[..], sizes[..], false, ring.all, slot);
      var len: nat := sizes[slot];
      var start := slot * MAX_MSG_SIZE;
      assert buffer[..][start..start + len] == buffer[start..start + len];
      return Some(buffer[start..start + len]);
    }

    method PopFront() returns (r: Option<Payload>)
      requires Valid()
      modifies this
      ensures Valid() && ring == QueuePopped(old(ring)) && r == QueueFront(old(ring))
    {
      if baseOffset >= nextOffset {
        return None;
      }
      hide SlotsOk;
      Bump(ring.gone);
      r := ReadAt(baseOffset);
      head := (head + 1) % QUEUE_CAPACITY;
      baseOffset := baseOffset + 1;
      ring := QueuePopped(ring);
    }
  }
}
