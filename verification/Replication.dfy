/** Leader to follower replication of one record: the ack count of one call. */
module Replication {
  import opened Bytes

  type BrokerId = u16

  /** A replica counts when it is the leader itself, or has a known address and answered Ok. */
  predicate Acks(id: BrokerId, local: BrokerId, known: set<BrokerId>, ok: bool) {
    id == local || (id in known && ok)
  }

  function AckCount(list: seq<BrokerId>, local: BrokerId, known: set<BrokerId>, ok: seq<bool>): nat
    requires |ok| == |list|
  {
    if list == [] then 0
    else
      var n := |list| - 1;
      AckCount(list[..n], local, known, ok[..n]) + if Acks(list[n], local, known, ok[n]) then 1 else 0
  }

  /** The distinct replicas behind the count. */
  function Ackers(list: seq<BrokerId>, local: BrokerId, known: set<BrokerId>, ok: seq<bool>): set<BrokerId>
    requires |ok| == |list|
  {
    set i | 0 <= i < |list| && Acks(list[i], local, known, ok[i]) :: list[i]
  }

  method ReplicateToFollowers(list: seq<BrokerId>, local: BrokerId, known: set<BrokerId>, ok: seq<bool>)
    returns (acks: nat)
    requires |ok| == |list|
    ensures acks == AckCount(list, local, known, ok)
  {
    acks := 0;
    for i := 0 to |list|
      invariant acks == AckCount(list[..i], local, known, ok[..i])
    {
      assert list[..i + 1][..i] == list[..i] && ok[..i + 1][..i] == ok[..i];
      var id := list[i];
      if id == local {
        acks := acks + 1;
        continue;
      }
      if id !in known {
        continue;
      }
      if ok[i] {
        acks := acks + 1;
      }
    }
    assert list[..|list|] == list && ok[..|list|] == ok;
  }

  /** The places of the list that count: the broker itself, and every other one with a known address
      that answered Ok. */
  function Counted(list: seq<BrokerId>, local: BrokerId, known: set<BrokerId>, ok: seq<bool>): set<nat>
    requires |ok| == |list|
  {
    set i | 0 <= i < |list| && (list[i] == local || (list[i] in known && ok[i]))
  }

  lemma {:induction false} AckCountExactly(list: seq<BrokerId>, local: BrokerId, known: set<BrokerId>, ok: seq<bool>)
    requires |ok| == |list|
    ensures AckCount(list, local, known, ok) == |Counted(list, local, known, ok)|
    decreases |list|
  {
    if list != [] {
      var n := |list| - 1;
      AckCountExactly(list[..n], local, known, ok[..n]);
      var before := Counted(list[..n], local, known, ok[..n]);
      assert Counted(list, local, known, ok) == before + if Acks(list[n], local, known, ok[n]) then {n} else {} by {
        forall i | 0 <= i < n ensures i in Counted(list, local, known, ok) <==> i in before {
          assert list[..n][i] == list[i] && ok[..n][i] == ok[i];
        }
      }
    }
  }

  predicate Distinct(list: seq<BrokerId>) {
    forall i, j :: 0 <= i < j < |list| ==> list[i] != list[j]
  }

  lemma AckersStep(list: seq<BrokerId>, local: BrokerId, known: set<BrokerId>, ok: seq<bool>)
    requires |ok| == |list| > 0
    ensures var n := |list| - 1;
            Ackers(list, local, known, ok) ==
            Ackers(list[..n], local, known, ok[..n]) + if Acks(list[n], local, known, ok[n]) then {list[n]} else {}
  {
    var n := |list| - 1;
    forall id | id in Ackers(list[..n], local, known, ok[..n]) ensures id in Ackers(list, local, known, ok) {
      var i :| 0 <= i < n && list[..n][i] == id && Acks(list[..n][i], local, known, ok[..n][i]);
      assert Acks(list[i], local, known, ok[i]);
    }
    forall id | id in Ackers(list, local, known, ok)
      ensures id in Ackers(list[..n], local, known, ok[..n]) || (id == list[n] && Acks(list[n], local, known, ok[n]))
    {
      var i :| 0 <= i < |list| && list[i] == id && Acks(list[i], local, known, ok[i]);
      if i < n {
        assert Acks(list[..n][i], local, known, ok[..n][i]);
      }
    }
  }

  lemma {:induction false} CountBoundsAckers(list: seq<BrokerId>, local: BrokerId, known: set<BrokerId>, ok: seq<bool>)
    requires |ok| == |list|
    ensures |Ackers(list, local, known, ok)| <= AckCount(list, local, known, ok)
    ensures Distinct(list) ==> |Ackers(list, local, known, ok)| == AckCount(list, local, known, ok)
    decreases |list|
  {
    if list != [] {
      var n := |list| - 1;
      CountBoundsAckers(list[..n], local, known, ok[..n]);
      AckersStep(list, local, known, ok);
      if Distinct(list) {
        assert list[n] !in Ackers(list[..n], local, known, ok[..n]);
      }
    }
  }

  lemma {:induction false} RepeatOvercounts(list: seq<BrokerId>, i: nat, j: nat, ok: seq<bool>)
    requires i < j < |list| == |ok| && list[i] == list[j]
    ensures AckCount(list, list[i], {}, ok) >= 2 && Ackers(list, list[i], {}, ok) == {list[i]}
    decreases |list|
  {
    var n := |list| - 1;
    var id := list[i];
    if j < n {
      RepeatOvercounts(list[..n], i, j, ok[..n]);
    } else {
      CountsLocal(list[..n], i, ok[..n]);
    }
    assert id in Ackers(list, id, {}, ok) by {
      assert Acks(list[i], id, {}, ok[i]);
    }
  }

  lemma {:induction false} CountsLocal(list: seq<BrokerId>, i: nat, ok: seq<bool>)
    requires i < |list| == |ok|
    ensures AckCount(list, list[i], {}, ok) >= 1
    decreases |list|
  {
    if i < |list| - 1 {
      CountsLocal(list[..|list| - 1], i, ok[..|list| - 1]);
    }
  }

  /** The count equals the number of distinct acking replicas, whatever the answers, exactly when
      the replica list names no broker twice. */
  lemma CountIsExactWhenDistinct(list: seq<BrokerId>)
    ensures Distinct(list) <==>
      forall local, known, ok: seq<bool> | |ok| == |list| ::
        AckCount(list, local, known, ok) == |Ackers(list, local, known, ok)|
  {
    if Distinct(list) {
      forall local, known, ok: seq<bool> | |ok| == |list|
        ensures AckCount(list, local, known, ok) == |Ackers(list, local, known, ok)|
      {
        CountBoundsAckers(list, local, known, ok);
      }
    } else {
      var i, j :| 0 <= i < j < |list| && list[i] == list[j];
      var ok := seq(|list|, _ => false);
      RepeatOvercounts(list, i, j, ok);
      assert AckCount(list, list[i], {}, ok) != |Ackers(list, list[i], {}, ok)|;
    }
  }
}
