/** The range assigner: sorted members get consecutive runs of partitions. */
module RangeAssigner {
  import opened Bytes

  type MemberId = u64

  predicate Increasing(ids: seq<MemberId>) {
    forall i, j :: 0 <= i < j < |ids| ==> ids[i] < ids[j]
  }

  function Elements(ids: seq<MemberId>): set<MemberId> {
    set id | id in ids
  }

  /** `ids` is the set `s` in increasing order. */
  predicate Sorts(ids: seq<MemberId>, s: set<MemberId>) {
    Increasing(ids) && Elements(ids) == s
  }

  lemma NoElements(ids: seq<MemberId>)
    ensures Elements(ids) == {} <==> ids == []
  {
    if ids != [] {
      assert ids[0] in Elements(ids);
    }
  }

  /** There is only one such sequence, so the order in which a table was iterated cannot matter. */
  lemma {:induction false} SortIsUnique(a: seq<MemberId>, b: seq<MemberId>, s: set<MemberId>)
    requires Sorts(a, s) && Sorts(b, s)
    ensures a == b
    decreases |a|
  {
    NoElements(a);
    NoElements(b);
    if a != [] {
      assert a[|a| - 1] in Elements(b) && b != [] by {
        assert a[|a| - 1] in Elements(a);
      }
      var m, n := |a| - 1, |b| - 1;
      assert b[n] in Elements(a) by {
        assert b[n] in Elements(b);
      }
      assert a[m] == b[n];
      DropLast(a);
      DropLast(b);
      SortIsUnique(a[..m], b[..n], s - {a[m]});
      assert a == a[..m] + [a[m]] && b == b[..n] + [b[n]];
    }
  }

  lemma DropLast(a: seq<MemberId>)
    requires Increasing(a) && a != []
    ensures Sorts(a[..|a| - 1], Elements(a) - {a[|a| - 1]})
  {
    assert a == a[..|a| - 1] + [a[|a| - 1]];
  }

  /** Puts `x` in its place unless it is already there. */
  function Insert(ids: seq<MemberId>, x: MemberId): seq<MemberId> {
    if ids == [] || x < ids[0] then [x] + ids
    else if x == ids[0] then ids
    else [ids[0]] + Insert(ids[1..], x)
  }

  lemma Cons(x: MemberId, ids: seq<MemberId>)
    requires Increasing(ids) && forall y :: y in Elements(ids) ==> x < y
    ensures Sorts([x] + ids, {x} + Elements(ids))
  {
    forall i, j | 0 <= i < j < |[x] + ids| ensures ([x] + ids)[i] < ([x] + ids)[j] {
      assert ([x] + ids)[j] == ids[j - 1];
      assert ids[j - 1] in Elements(ids);
    }
  }

  lemma Uncons(ids: seq<MemberId>)
    requires Increasing(ids) && ids != []
    ensures Increasing(ids[1..]) && Elements(ids) == {ids[0]} + Elements(ids[1..])
    ensures forall y :: y in Elements(ids[1..]) ==> ids[0] < y
  {
    assert ids == [ids[0]] + ids[1..];
  }

  lemma {:induction false} InsertSorts(ids: seq<MemberId>, x: MemberId)
    requires Increasing(ids)
    ensures Sorts(Insert(ids, x), Elements(ids) + {x})
    decreases |ids|
  {
    hide Increasing, Elements;
    if ids == [] {
      NoElements(ids);
      Cons(x, ids);
    } else {
      Uncons(ids);
      if x < ids[0] {
        Cons(x, ids);
      } else if x > ids[0] {
        InsertSorts(ids[1..], x);
        Cons(ids[0], Insert(ids[1..], x));
      }
    }
  }

  /** Sort and drop duplicates. */
  method SortDedup(ids: seq<MemberId>) returns (r: seq<MemberId>)
    ensures Sorts(r, Elements(ids))
  {
    r := [];
    for i := 0 to |ids|
      invariant Sorts(r, Elements(ids[..i]))
    {
      assert ids[..i + 1] == ids[..i] + [ids[i]];
      InsertSorts(r, ids[i]);
      r := Insert(r, ids[i]);
    }
    assert ids[..|ids|] == ids;
  }

  // ---- Shares

  /** How many partitions the `i`-th of `n` members gets. */
  function Size(count: u16, n: nat, i: nat): nat
    requires n > 0
  {
    count / n + if i < count % n then 1 else 0
  }

  /** The first partition of the `i`-th member. */
  function First(count: u16, n: nat, i: nat): nat
    requires n > 0
  {
    if i == 0 then 0 else First(count, n, i - 1) + Size(count, n, i - 1)
  }

  lemma {:induction false} FirstClosed(count: u16, n: nat, i: nat)
    requires n > 0
    ensures First(count, n, i) == i * (count / n) + Min(i, count % n)
  {
    if i > 0 {
      FirstClosed(count, n, i - 1);
      assert (i - 1) * (count / n) + count / n == i * (count / n);
    }
  }

  /** The shares end exactly at the partition count. */
  lemma SharesEnd(count: u16, n: nat)
    requires n > 0
    ensures First(count, n, n) == count
  {
    FirstClosed(count, n, n);
    assert n * (count / n) + count % n == count;
  }

  lemma {:induction false} FirstGrows(count: u16, n: nat, i: nat, j: nat)
    requires n > 0 && i <= j
    ensures First(count, n, i) <= First(count, n, j)
    decreases j
  {
    if i < j {
      FirstGrows(count, n, i, j - 1);
    }
  }

  lemma ShareBound(count: u16, n: nat, i: nat)
    requires i < n
    ensures First(count, n, i) <= First(count, n, i + 1) <= count
  {
    FirstGrows(count, n, i + 1, n);
    SharesEnd(count, n);
  }

  /** The partitions `a`, `a + 1`, up to but not including `b`. */
  function Interval(a: nat, b: nat): (r: seq<u16>)
    requires a <= b <= U16_MAX
    ensures |r| == b - a && forall k :: 0 <= k < |r| ==> r[k] == a + k
  {
    seq(b - a, k requires 0 <= k < b - a => (a + k) as u16)
  }

  lemma IntervalHas(a: nat, b: nat, p: u16)
    requires a <= b <= U16_MAX
    ensures p in Interval(a, b) <==> a <= p < b
  {
    if a <= p < b {
      assert Interval(a, b)[p - a] == p;
    }
  }

  function Share(count: u16, n: nat, i: nat): seq<u16>
    requires i < n
  {
    ShareBound(count, n, i);
    Interval(First(count, n, i), First(count, n, i + 1))
  }

  lemma ShareHas(count: u16, n: nat, i: nat, p: u16)
    requires i < n
    ensures p in Share(count, n, i) <==> First(count, n, i) <= p < First(count, n, i + 1)
  {
    ShareBound(count, n, i);
    IntervalHas(First(count, n, i), First(count, n, i + 1), p);
  }

  /** The `i`-th member's range in closed form: everyone gets `count / n` partitions, and the first
      `count % n` members one more. */
  lemma ShareExactly(count: u16, n: nat, i: nat, p: u16)
    requires i < n
    ensures p in Share(count, n, i) <==>
              i * (count / n) + Min(i, count % n) <= p < (i + 1) * (count / n) + Min(i + 1, count % n)
  {
    hide Share, First;
    ShareHas(count, n, i, p);
    FirstClosed(count, n, i);
    FirstClosed(count, n, i + 1);
  }

  function Below(s: set<MemberId>, k: MemberId): set<MemberId> {
    set e | e in s && e < k
  }

  /** How many ids of the set are smaller. */
  function Rank(s: set<MemberId>, k: MemberId): nat {
    |Below(s, k)|
  }

  lemma {:induction false} CountElements(ids: seq<MemberId>)
    requires Increasing(ids)
    ensures |Elements(ids)| == |ids|
    decreases |ids|
  {
    if ids != [] {
      var n := |ids| - 1;
      DropLast(ids);
      CountElements(ids[..n]);
      assert ids[n] in Elements(ids);
    }
  }

  /** In a sorted list the place of an id is its rank. */
  lemma PlaceIsRank(ids: seq<MemberId>, s: set<MemberId>, i: nat)
    requires Sorts(ids, s) && i < |ids|
    ensures Rank(s, ids[i]) == i && |s| == |ids|
  {
    CountElements(ids[..i]);
    CountElements(ids);
    forall e: MemberId ensures e in Elements(ids[..i]) <==> e in s && e < ids[i] {
      if e in s && e < ids[i] {
        assert e in Elements(ids);
        var j :| 0 <= j < |ids| && ids[j] == e;
        assert ids[..i][j] == e;
      }
      if e in Elements(ids[..i]) {
        assert e in Elements(ids);
      }
    }
    assert Below(s, ids[i]) == Elements(ids[..i]);
  }

  /** Who holds partition `p`. */
  lemma {:induction false} OwnerOf(count: u16, n: nat, m: nat, p: u16) returns (i: nat)
    requires 0 < n && m <= n && p < First(count, n, m)
    ensures i < m && p in Share(count, n, i)
    decreases m
  {
    if p < First(count, n, m - 1) {
      i := OwnerOf(count, n, m - 1, p);
    } else {
      i := m - 1;
      ShareHas(count, n, i, p);
    }
  }

  lemma SharesDisjoint(count: u16, n: nat, i: nat, j: nat, p: u16)
    requires i < n && j < n && p in Share(count, n, i) && p in Share(count, n, j)
    ensures i == j
  {
    hide Share, First;
    ShareHas(count, n, i, p);
    ShareHas(count, n, j, p);
    if i < j {
      FirstGrows(count, n, i + 1, j);
    } else if j < i {
      FirstGrows(count, n, j + 1, i);
    }
  }

  predicate Owned(count: u16, n: nat, p: u16) {
    exists i :: 0 <= i < n && p in Share(count, n, i)
  }

  /** Members in id order hold consecutive ranges that partition `0..count`, with sizes
      differing by at most one. */
  lemma SharesPartition(count: u16, n: nat)
    requires n > 0
    ensures forall p: u16 :: Owned(count, n, p) <==> p < count
    ensures forall i, j, p: u16 :: 0 <= i < n && 0 <= j < n && p in Share(count, n, i) && p in Share(count, n, j) ==>
            i == j
    ensures forall i, j :: 0 <= i < n && 0 <= j < n ==> |Share(count, n, i)| <= |Share(count, n, j)| + 1
  {
    hide Share;
    forall p: u16 ensures Owned(count, n, p) <==> p < count {
      if p < count {
        SharesEnd(count, n);
        var i := OwnerOf(count, n, n, p);
      } else if Owned(count, n, p) {
        var i :| 0 <= i < n && p in Share(count, n, i);
        ShareHas(count, n, i, p);
        ShareBound(count, n, i);
      }
    }
    forall i, j, p: u16 | 0 <= i < n && 0 <= j < n && p in Share(count, n, i) && p in Share(count, n, j)
      ensures i == j {
      SharesDisjoint(count, n, i, j, p);
    }
    forall i, j | 0 <= i < n && 0 <= j < n ensures |Share(count, n, i)| <= |Share(count, n, j)| + 1 {
      ShareSize(count, n, i);
      ShareSize(count, n, j);
    }
  }

  lemma ShareSize(count: u16, n: nat, i: nat)
    requires i < n
    ensures |Share(count, n, i)| == Size(count, n, i)
  {
    ShareBound(count, n, i);
  }

  /** The assignment of the first `m` members. */
  function SharesTo(count: u16, ids: seq<MemberId>, m: nat): map<MemberId, seq<u16>>
    requires m <= |ids|
  {
    if m == 0 then map[] else SharesTo(count, ids, m - 1)[ids[m - 1] := Share(count, |ids|, m - 1)]
  }

  lemma {:induction false} SharesToAt(count: u16, ids: seq<MemberId>, m: nat, i: nat)
    requires Increasing(ids) && i < m <= |ids|
    ensures ids[i] in SharesTo(count, ids, m) && SharesTo(count, ids, m)[ids[i]] == Share(count, |ids|, i)
    decreases m
  {
    hide Share;
    if i < m - 1 {
      SharesToAt(count, ids, m - 1, i);
    }
  }

  lemma {:induction false} SharesToKeys(count: u16, ids: seq<MemberId>, m: nat)
    requires m <= |ids|
    ensures SharesTo(count, ids, m).Keys == Elements(ids[..m])
    decreases m
  {
    hide Share;
    if m > 0 {
      SharesToKeys(count, ids, m - 1);
      assert ids[..m] == ids[..m - 1] + [ids[m - 1]];
    }
  }

  /** The assignment for members `ids`. */
  function Shares(count: u16, ids: seq<MemberId>): map<MemberId, seq<u16>> {
    if count == 0 then map[] else SharesTo(count, ids, |ids|)
  }

  function SatInc(p: u16): u16 {
    if p == U16_MAX then U16_MAX else p + 1
  }

  /** One member's partitions; the running counter never saturates. */
  method TakeShare(partition: u16, size: nat, count: u16) returns (parts: seq<u16>, next: u16)
    requires partition + size <= count
    ensures next == partition + size && parts == Interval(partition, next)
  {
    parts, next := [], partition;
    for k := 0 to size
      invariant next == partition + k && parts == Interval(partition, next)
    {
      parts := parts + [next];
      next := SatInc(next);
    }
  }

  method AssignRanges(count: u16, ids: seq<MemberId>) returns (out: map<MemberId, seq<u16>>)
    requires Increasing(ids)
    ensures out == Shares(count, ids)
  {
    out := map[];
    var n := |ids|;
    if n == 0 || count == 0 {
      return;
    }
    hide Share, First;
    var base, extra := count / n, count % n;
    var partition := 0;
    FirstIsZero(count, n);
    for i := 0 to n
      invariant partition == First(count, n, i)
      invariant out == SharesTo(count, ids, i)
    {
      ShareIs(count, n, i);
      var size := base + if i < extra then 1 else 0;
      var parts;
      parts, partition := TakeShare(partition, size, count);
      out := out[ids[i] := parts];
    }
  }

  lemma FirstIsZero(count: u16, n: nat)
    requires n > 0
    ensures First(count, n, 0) == 0
  {
  }

  lemma ShareIs(count: u16, n: nat, i: nat)
    requires i < n
    ensures First(count, n, i) + Size(count, n, i) == First(count, n, i + 1) <= count
    ensures Share(count, n, i) == Interval(First(count, n, i), First(count, n, i + 1))
  {
    ShareBound(count, n, i);
  }
}
