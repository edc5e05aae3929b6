/** What holds in every run of a consumer group, and when a rebalance reaches everyone. */
module CoordinatorRuns {
  import opened Bytes
  import opened RangeAssigner
  import opened Coordinator

  datatype Action =
    | Join(id: MemberId, now: u64)
    | Beat(id: MemberId, generation: u32, expireAt: u64, rebalanceAt: u64, beatAt: u64, timeout: u64)

  ghost function Step(g: Group, a: Action, count: u16): Group {
    match a
    case Join(id, now) => Joined(g, id, count, now)
    case Beat(id, generation, expireAt, rebalanceAt, beatAt, timeout) =>
      Beaten(Swept(g, count, expireAt, rebalanceAt, timeout), id, generation, beatAt).0
  }

  ghost function Run(actions: seq<Action>, count: u16): Group {
    if actions == [] then NewGroup()
    else Step(Run(actions[..|actions| - 1], count), actions[|actions| - 1], count)
  }

  // ---- What an assignment gives

  /** Table keys are the members' own ids. */
  predicate Keyed(members: map<MemberId, Member>) {
    forall k :: k in members ==> members[k].id == k
  }

  lemma EligibleIsKnown(members: map<MemberId, Member>, generation: u32)
    requires Keyed(members)
    ensures Eligible(members, generation) <= members.Keys
    ensures forall k :: k in members && Current(members[k], generation) ==> k in Eligible(members, generation)
    ensures CurrentIds(members, generation) == {} ==> forall k :: k in members ==> !Current(members[k], generation)
  {
    forall k | k in members && Current(members[k], generation) ensures k in CurrentIds(members, generation) {
      assert members[k].id == k;
    }
  }

  lemma PlaceOf(ids: seq<MemberId>, s: set<MemberId>, k: MemberId) returns (i: nat)
    requires Sorts(ids, s) && k in s
    ensures i < |ids| && ids[i] == k
  {
    assert k in Elements(ids);
    i :| 0 <= i < |ids| && ids[i] == k;
  }

  lemma AssignedAt(count: u16, members: map<MemberId, Member>, generation: u32, i: nat)
    requires count > 0 && i < |InOrder(Eligible(members, generation))|
    ensures var ids := InOrder(Eligible(members, generation));
            ids[i] in Assigned(count, members, generation)
            && Assigned(count, members, generation)[ids[i]] == Share(count, |ids|, i)
  {
    var ids := InOrder(Eligible(members, generation));
    SharesToAt(count, ids, |ids|, i);
  }

  /** No partition goes to two members. */
  lemma AssignedDisjoint(count: u16, members: map<MemberId, Member>, generation: u32, j: MemberId, k: MemberId, p: u16)
    requires count > 0
    requires var a := Assigned(count, members, generation); j in a && k in a && p in a[j] && p in a[k]
    ensures j == k
  {
    hide Assigned, Share, Eligible;
    AssignedKeys(count, members, generation);
    var ids := InOrder(Eligible(members, generation));
    var x := PlaceOf(ids, Eligible(members, generation), j);
    var y := PlaceOf(ids, Eligible(members, generation), k);
    AssignedAt(count, members, generation, x);
    AssignedAt(count, members, generation, y);
    SharesDisjoint(count, |ids|, x, y, p);
  }

  lemma AssignedInRange(count: u16, members: map<MemberId, Member>, generation: u32, k: MemberId, p: u16)
    requires count > 0
    requires var a := Assigned(count, members, generation); k in a && p in a[k]
    ensures p < count
  {
    hide Assigned, Share, Eligible, First;
    AssignedKeys(count, members, generation);
    var ids := InOrder(Eligible(members, generation));
    var x := PlaceOf(ids, Eligible(members, generation), k);
    AssignedAt(count, members, generation, x);
    ShareHas(count, |ids|, x, p);
    ShareBound(count, |ids|, x);
  }

  /** Every partition goes to someone, if anyone is eligible. */
  lemma AssignedCovers(count: u16, members: map<MemberId, Member>, generation: u32, p: u16) returns (k: MemberId)
    requires p < count && Eligible(members, generation) != {}
    ensures var a := Assigned(count, members, generation); k in a && p in a[k]
  {
    hide Assigned, Share, Eligible, First;
    var ids := InOrder(Eligible(members, generation));
    NoElements(ids);
    SharesEnd(count, |ids|);
    var i := OwnerOf(count, |ids|, |ids|, p);
    AssignedAt(count, members, generation, i);
    k := ids[i];
  }

  /** Who takes part: the members of the generation and those without partitions, or everyone when
      there are none of either. */
  lemma EligibleExactly(members: map<MemberId, Member>, generation: u32, k: MemberId)
    requires Keyed(members)
    ensures k in Eligible(members, generation) <==>
              && k in members
              && (|| members[k].generation == generation || members[k].parts == []
                  || forall j :: j in members ==> members[j].generation != generation && members[j].parts != [])
  {
    EligibleIsKnown(members, generation);
    if k in CurrentIds(members, generation) {
      var j :| j in members && Current(members[j], generation) && members[j].id == k;
    }
  }

  /** The whole assignment in closed form: with `n` eligible members, the one with `i` smaller ids among
      them gets `count / n` partitions, or one more if `i < count % n`, right after those of the others. */
  lemma AssignedExactly(count: u16, members: map<MemberId, Member>, generation: u32, k: MemberId, p: u16)
    requires count > 0
    ensures var e, a := Eligible(members, generation), Assigned(count, members, generation);
            && (k in a <==> k in e)
            && (k in a ==>
                  var i, n := Rank(e, k), |e|;
                  n > 0 && (p in a[k] <==>
                    i * (count / n) + Min(i, count % n) <= p < (i + 1) * (count / n) + Min(i + 1, count % n)))
  {
    hide Assigned, Eligible, Share, Rank;
    AssignedKeys(count, members, generation);
    var e := Eligible(members, generation);
    if k in e {
      var ids := InOrder(e);
      var i := PlaceOf(ids, e, k);
      PlaceIsRank(ids, e, i);
      AssignedAt(count, members, generation, i);
      ShareExactly(count, |ids|, i, p);
    }
  }

  // ---- Each request in full

  function Bumped(generation: u32): u32 {
    if generation < U32_MAX then generation + 1 else U32_MAX
  }

  /** A join opens the next generation. The joiner is in it from now on; so is every other member that
      took part in the assignment; anyone else keeps everything. */
  lemma JoinExactly(g: Group, id: MemberId, count: u16, now: u64, k: MemberId)
    requires Keyed(g.members) && count > 0
    ensures var t := Joined(g, id, count, now);
            && t.generation == Bumped(g.generation) && !t.pending
            && (k in t.members <==> k in g.members || k == id)
            && (k == id || (k in g.members && (g.members[k].generation == t.generation || g.members[k].parts == [])) ==>
                  t.members[k].id == k && t.members[k].generation == t.generation && t.members[k].lastSeen == now)
            && (k in g.members && k != id && g.members[k].generation != t.generation && g.members[k].parts != [] ==>
                  t.members[k] == g.members[k])
  {
    hide Assigned, Eligible;
    var generation := NextGeneration(g.generation);
    var members := g.members[id := Member(id, generation, [], now)];
    AssignedKeys(count, members, generation);
    EligibleExactly(members, generation, k);
    assert members[id].generation == generation;
  }

  /** A heartbeat: an unknown member is told 1, a known one with another generation 2, both with the
      rebalance flag and without any change; otherwise 0 with the pending flag, and only this member's
      time moves. */
  lemma BeatExactly(g: Group, id: MemberId, generation: u32, now: u64)
    ensures var (t, code, flag) := Beaten(g, id, generation, now);
            && (code == 0 <==> id in g.members && g.members[id].generation == generation)
            && (code == 1 <==> id !in g.members) && code <= 2
            && (code != 0 ==> flag && t == g)
            && (code == 0 ==>
                  && flag == g.pending && t == g.(members := t.members) && t.members.Keys == g.members.Keys
                  && forall k :: k in g.members ==>
                       t.members[k] == if k == id then g.members[k].(lastSeen := now) else g.members[k])
  {
  }

  /** Expiry removes exactly the members last seen more than the timeout ago; the others keep everything.
      The generation moves and a rebalance is pending exactly when someone was removed. */
  lemma ExpireExactly(g: Group, now: u64, timeout: u64)
    ensures var e := Expired(g, now, timeout);
            && (forall k :: k in e.members <==> k in g.members && now <= g.members[k].lastSeen + timeout)
            && (forall k :: k in e.members ==> e.members[k] == g.members[k])
            && ((forall k :: k in g.members ==> now <= g.members[k].lastSeen + timeout) ==> e == g)
            && ((exists k :: k in g.members && now > g.members[k].lastSeen + timeout) ==>
                  e.generation == Bumped(g.generation) && e.pending)
  {
    var e := Expired(g, now, timeout);
    if k :| k in g.members && now > g.members[k].lastSeen + timeout {
      assert k !in e.members;
    }
  }

  /** A rebalance moves the time of those who take part and gives them their ranges; nobody's stamp
      changes, and nobody else changes at all. */
  lemma RebalanceExactly(g: Group, count: u16, now: u64, k: MemberId)
    requires count > 0
    ensures var t, e := Rebalanced(g, count, now), Eligible(g.members, g.generation);
            && t.generation == g.generation && !t.pending && t.members.Keys == g.members.Keys
            && (k in g.members && k !in e ==> t.members[k] == g.members[k])
            && (k in g.members && k in e ==>
                  && t.members[k].lastSeen == now && t.members[k].generation == g.members[k].generation
                  && t.members[k].id == g.members[k].id
                  && k in Assigned(count, g.members, g.generation)
                  && t.members[k].parts == Assigned(count, g.members, g.generation)[k])
  {
    hide Assigned, Eligible;
    AssignedKeys(count, g.members, g.generation);
  }

  /** A heartbeat request first removes exactly the stale members, and rebalances exactly then. */
  lemma SweepExactly(g: Group, count: u16, expireAt: u64, rebalanceAt: u64, timeout: u64)
    ensures var s := Swept(g, count, expireAt, rebalanceAt, timeout);
            && (forall k :: k in s.members <==> k in g.members && expireAt <= g.members[k].lastSeen + timeout)
            && ((forall k :: k in g.members ==> expireAt <= g.members[k].lastSeen + timeout) ==> s == g)
            && ((exists k :: k in g.members && expireAt > g.members[k].lastSeen + timeout) ==>
                  s == Rebalanced(Expired(g, expireAt, timeout), count, rebalanceAt))
  {
    hide Assigned;
    ExpireExactly(g, expireAt, timeout);
    if k :| k in g.members && expireAt > g.members[k].lastSeen + timeout {
      assert Expired(g, expireAt, timeout).members != g.members;
    }
  }

  // ---- The invariant

  /** The members of the group's current generation. */
  ghost predicate Holder(g: Group, k: MemberId) {
    k in g.members && g.members[k].generation == g.generation
  }

  ghost predicate DisjointHolders(g: Group) {
    forall j, k, p: u16 :: Holder(g, j) && Holder(g, k) && p in g.members[j].parts && p in g.members[k].parts ==> j == k
  }

  /** Stamps never run ahead of the group, keys are ids, ranges stay within the topic, current
      members hold disjoint ranges, and no rebalance is left pending between requests. */
  ghost predicate Ok(g: Group, count: u16) {
    && Keyed(g.members) && !g.pending
    && (forall k :: k in g.members ==> g.members[k].generation <= g.generation)
    && (forall k, p: u16 :: k in g.members && p in g.members[k].parts ==> p < count)
    && DisjointHolders(g)
  }

  lemma JoinOk(g: Group, id: MemberId, count: u16, now: u64)
    requires Ok(g, count) && count > 0
    ensures Ok(Joined(g, id, count, now), count)
  {
    hide Assigned, DisjointHolders, Eligible;
    var generation := NextGeneration(g.generation);
    var members := g.members[id := Member(id, generation, [], now)];
    var parts := Assigned(count, members, generation);
    var t := Joined(g, id, count, now);
    forall k, p: u16 | k in t.members && p in t.members[k].parts ensures p < count {
      if k in parts {
        AssignedInRange(count, members, generation, k, p);
      }
    }
    JoinDisjoint(g, id, count, now);
  }

  lemma JoinDisjoint(g: Group, id: MemberId, count: u16, now: u64)
    requires Keyed(g.members) && count > 0
    ensures DisjointHolders(Joined(g, id, count, now))
  {
    hide Assigned;
    var generation := NextGeneration(g.generation);
    var members := g.members[id := Member(id, generation, [], now)];
    var parts := Assigned(count, members, generation);
    var t := Joined(g, id, count, now);
    AssignedKeys(count, members, generation);
    EligibleIsKnown(members, generation);
    forall j, k, p: u16 | Holder(t, j) && Holder(t, k) && p in t.members[j].parts && p in t.members[k].parts
      ensures j == k {
      assert j in parts && k in parts;
      AssignedDisjoint(count, members, generation, j, k, p);
    }
  }

  /** Right after a join the current members cover all partitions, each exactly once. */
  lemma JoinCovers(g: Group, id: MemberId, count: u16, now: u64, p: u16) returns (k: MemberId)
    requires Ok(g, count) && p < count
    ensures var t := Joined(g, id, count, now);
            && Holder(t, k) && p in t.members[k].parts
            && forall j :: Holder(t, j) && p in t.members[j].parts ==> j == k
  {
    hide Assigned;
    var generation := NextGeneration(g.generation);
    var members := g.members[id := Member(id, generation, [], now)];
    EligibleIsKnown(members, generation);
    assert Current(members[id], generation);
    k := AssignedCovers(count, members, generation, p);
    AssignedKeys(count, members, generation);
    JoinOk(g, id, count, now);
  }

  lemma BeatOk(g: Group, id: MemberId, generation: u32, now: u64, count: u16)
    requires Ok(g, count)
    ensures Ok(Beaten(g, id, generation, now).0, count)
  {
    var t := Beaten(g, id, generation, now).0;
    assert forall k :: Holder(t, k) <==> Holder(g, k);
  }

  /** Expiry leaves a sub-table; the flag is set until the rebalance that follows. */
  ghost predicate ExpiredFrom(e: Group, g: Group) {
    && e.generation == NextGeneration(g.generation)
    && forall k :: k in e.members ==> k in g.members && e.members[k] == g.members[k]
  }

  lemma RebalanceOk(e: Group, g: Group, count: u16, now: u64)
    requires Ok(g, count) && count > 0 && ExpiredFrom(e, g)
    ensures Ok(Rebalanced(e, count, now), count)
  {
    hide Assigned;
    var parts := Assigned(count, e.members, e.generation);
    var t := Rebalanced(e, count, now);
    AssignedKeys(count, e.members, e.generation);
    EligibleIsKnown(e.members, e.generation);
    forall k, p: u16 | k in t.members && p in t.members[k].parts ensures p < count {
      if k in parts {
        AssignedInRange(count, e.members, e.generation, k, p);
      }
    }
    forall j, k, p: u16 | Holder(t, j) && Holder(t, k) && p in t.members[j].parts && p in t.members[k].parts
      ensures j == k {
      assert Current(e.members[j], e.generation) && Current(e.members[k], e.generation);
      AssignedDisjoint(count, e.members, e.generation, j, k, p);
    }
  }

  lemma StepOk(g: Group, a: Action, count: u16)
    requires Ok(g, count) && count > 0
    ensures Ok(Step(g, a, count), count)
  {
    hide Ok, Joined, Rebalanced, Beaten;
    match a
    case Join(id, now) => JoinOk(g, id, count, now);
    case Beat(id, generation, expireAt, rebalanceAt, beatAt, timeout) =>
      var e := Expired(g, expireAt, timeout);
      if e.members != g.members {
        RebalanceOk(e, g, count, rebalanceAt);
      }
      BeatOk(Swept(g, count, expireAt, rebalanceAt, timeout), id, generation, beatAt, count);
  }

  /** In every run the members stamped with the group's current generation hold pairwise
      disjoint partitions of the topic. */
  lemma {:induction false} EveryRunOk(actions: seq<Action>, count: u16)
    requires count > 0
    ensures Ok(Run(actions, count), count)
    decreases |actions|
  {
    if actions != [] {
      hide Ok, Step;
      EveryRunOk(actions[..|actions| - 1], count);
      StepOk(Run(actions[..|actions| - 1], count), actions[|actions| - 1], count);
    }
  }

  /** A heartbeat answered with code 0 never carries the rebalance flag: no pending rebalance
      outlives the request that caused it. */
  lemma AliveMeansNoRebalanceFlag(actions: seq<Action>, count: u16, a: Action)
    requires count > 0 && a.Beat?
    ensures var s := Swept(Run(actions, count), count, a.expireAt, a.rebalanceAt, a.timeout);
            var (_, code, flag) := Beaten(s, a.id, a.generation, a.beatAt);
            flag <==> code != 0
  {
    EveryRunOk(actions, count);
  }

  // ---- When a rebalance reaches everyone

  /** All members of the group, whatever their stamp, split the topic without overlap or gap. */
  ghost predicate Split(g: Group, count: u16) {
    && (forall p: u16 :: p < count ==> HeldBySomeone(g, p))
    && (forall j, k, p: u16 ::
          j in g.members && k in g.members && p in g.members[j].parts && p in g.members[k].parts ==> j == k)
  }

  ghost predicate HeldBySomeone(g: Group, p: u16) {
    exists k :: k in g.members && p in g.members[k].parts
  }

  /** All or none of the survivors pass the assigner's filter. */
  predicate Uniform(g: Group) {
    || (forall k :: k in g.members ==> Current(g.members[k], g.generation))
    || (forall k :: k in g.members ==> !Current(g.members[k], g.generation))
  }

  lemma UniformSplits(e: Group, g: Group, count: u16, now: u64)
    requires Ok(g, count) && count > 0 && ExpiredFrom(e, g) && e.members != map[] && Uniform(e)
    ensures Split(Rebalanced(e, count, now), count)
  {
    hide Assigned;
    var t := Rebalanced(e, count, now);
    var parts := Assigned(count, e.members, e.generation);
    EligibleIsKnown(e.members, e.generation);
    AssignedKeys(count, e.members, e.generation);
    assert Eligible(e.members, e.generation) == e.members.Keys;
    assert e.members.Keys != {} by { var k :| k in e.members; }
    forall p: u16 | p < count ensures HeldBySomeone(t, p) {
      var k := AssignedCovers(count, e.members, e.generation, p);
      assert k in t.members && p in t.members[k].parts;
    }
    forall j, k, p: u16 | j in t.members && k in t.members && p in t.members[j].parts && p in t.members[k].parts
      ensures j == k {
      AssignedDisjoint(count, e.members, e.generation, j, k, p);
    }
  }

  lemma MixedOverlaps(e: Group, g: Group, count: u16, now: u64)
    requires Ok(g, count) && count > 0 && ExpiredFrom(e, g) && !Uniform(e)
    ensures !Split(Rebalanced(e, count, now), count)
  {
    hide Assigned;
    var t := Rebalanced(e, count, now);
    var parts := Assigned(count, e.members, e.generation);
    EligibleIsKnown(e.members, e.generation);
    AssignedKeys(count, e.members, e.generation);
    var c :| c in e.members && Current(e.members[c], e.generation);
    var k :| k in e.members && !Current(e.members[k], e.generation);
    assert k !in Eligible(e.members, e.generation) by {
      assert c in CurrentIds(e.members, e.generation) by { assert e.members[c].id == c; }
    }
    var p := e.members[k].parts[0];
    assert p in t.members[k].parts && p < count;
    var j := AssignedCovers(count, e.members, e.generation, p);
    assert p in t.members[j].parts && j != k;
  }

  /** After expiry removed someone, the rebalance splits all partitions over all survivors, with
      no overlap and no gap, exactly when someone survived and the survivors are all current
      (or empty-handed) or all not. */
  lemma RebalanceSplitsWhenUniform(actions: seq<Action>, count: u16, expireAt: u64, rebalanceAt: u64, timeout: u64)
    requires count > 0
    requires Expired(Run(actions, count), expireAt, timeout).members != Run(actions, count).members
    ensures var e := Expired(Run(actions, count), expireAt, timeout);
            Split(Rebalanced(e, count, rebalanceAt), count) <==> e.members != map[] && Uniform(e)
  {
    hide Ok, Rebalanced, Uniform;
    EveryRunOk(actions, count);
    var g := Run(actions, count);
    var e := Expired(g, expireAt, timeout);
    if e.members == map[] {
      NobodyHolds(e, count, rebalanceAt);
    } else if Uniform(e) {
      UniformSplits(e, g, count, rebalanceAt);
    } else {
      MixedOverlaps(e, g, count, rebalanceAt);
    }
  }

  lemma NobodyHolds(e: Group, count: u16, now: u64)
    requires e.members == map[] && count > 0
    ensures !Split(Rebalanced(e, count, now), count)
  {
    assert !HeldBySomeone(Rebalanced(e, count, now), 0);
  }

  /** Below the generation limit the survivors' stamps are all old, so the condition reads: no
      survivor is empty-handed, or all are. */
  lemma UniformBelowLimit(actions: seq<Action>, count: u16, expireAt: u64, timeout: u64)
    requires count > 0 && Run(actions, count).generation < U32_MAX
    requires Expired(Run(actions, count), expireAt, timeout).members != Run(actions, count).members
    ensures var e := Expired(Run(actions, count), expireAt, timeout);
            Uniform(e) <==> (forall k :: k in e.members ==> e.members[k].parts == [])
                            || (forall k :: k in e.members ==> e.members[k].parts != [])
  {
    hide Run;
    EveryRunOk(actions, count);
  }

  /** Disjointness over all members is not kept: a second join leaves the first member its whole
      range and gives the same range to the newcomer. */
  lemma SecondJoinOverlaps(count: u16, t0: u64, t1: u64)
    requires count > 0
    ensures var g := Run([Join(1, t0), Join(2, t1)], count);
            1 in g.members && 2 in g.members && 0 in g.members[1].parts && 0 in g.members[2].parts
  {
    hide Assigned;
    var a, b := Join(1, t0), Join(2, t1);
    assert [a, b][..1] == [a] && [a][..0] == [];
    var g0 := NewGroup();
    var g1 := Joined(g0, 1, count, t0);
    var g2 := Joined(g1, 2, count, t1);
    assert Run([a], count) == g1 && Run([a, b], count) == g2;
    EveryRunOk([], count);
    EveryRunOk([a], count);
    var j := JoinCovers(g0, 1, count, t0, 0);
    assert j == 1;
    var m2 := g1.members[2 := Member(2, 3, [], t1)];
    EligibleIsKnown(m2, 3);
    AssignedKeys(count, m2, 3);
    assert 1 !in Eligible(m2, 3) by {
      assert Current(m2[2], 3) && m2[2].id == 2;
      assert 2 in CurrentIds(m2, 3);
      assert !Current(m2[1], 3);
    }
    var k := JoinCovers(g1, 2, count, t1, 0);
    assert k == 2;
  }

  /** In every run, right after a join, every partition has exactly one current holder. */
  lemma EveryJoinCovers(actions: seq<Action>, count: u16, id: MemberId, now: u64, p: u16) returns (k: MemberId)
    requires p < count
    ensures var t := Run(actions + [Join(id, now)], count);
            && Holder(t, k) && p in t.members[k].parts
            && forall j :: Holder(t, j) && p in t.members[j].parts ==> j == k
  {
    hide Ok, Joined;
    EveryRunOk(actions, count);
    k := JoinCovers(Run(actions, count), id, count, now, p);
    assert (actions + [Join(id, now)])[..|actions|] == actions;
  }

  /** The group is past generation `g0`, and so is member `id`'s stamp if it is there. */
  ghost predicate Past(g: Group, id: MemberId, g0: u32) {
    g.generation > g0 && (id in g.members ==> g.members[id].generation > g0)
  }

  lemma SweepPast(g: Group, count: u16, expireAt: u64, rebalanceAt: u64, timeout: u64, id: MemberId, g0: u32)
    requires Past(g, id, g0)
    ensures Past(Swept(g, count, expireAt, rebalanceAt, timeout), id, g0)
  {
    hide Assigned;
  }

  lemma StepPast(g: Group, a: Action, count: u16, id: MemberId, g0: u32)
    requires Past(g, id, g0)
    ensures Past(Step(g, a, count), id, g0)
  {
    hide Assigned, Swept;
    if a.Beat? {
      SweepPast(g, count, a.expireAt, a.rebalanceAt, a.timeout, id, g0);
    }
  }

  lemma {:induction false} RunPast(before: seq<Action>, id: MemberId, now: u64, later: seq<Action>, count: u16)
    requires Run(before, count).generation < U32_MAX
    ensures Past(Run(before + [Join(id, now)] + later, count), id, Run(before, count).generation)
    decreases |later|
  {
    hide Step;
    var joined := before + [Join(id, now)];
    assert joined[..|before|] == before;
    if later == [] {
      assert joined + later == joined;
      JoinPast(Run(before, count), id, count, now);
    } else {
      var n := |later| - 1;
      RunPast(before, id, now, later[..n], count);
      assert (joined + later)[..|joined| + n] == joined + later[..n];
      StepPast(Run(joined + later[..n], count), later[n], count, id, Run(before, count).generation);
    }
  }

  lemma JoinPast(g: Group, id: MemberId, count: u16, now: u64)
    requires g.generation < U32_MAX
    ensures Past(Step(g, Join(id, now), count), id, g.generation)
  {
    hide Assigned;
  }

  /** After a member has joined again, at any later moment of any run, every heartbeat with a stamp from
      before is refused and changes nothing. */
  lemma OldStampsAreRefused(before: seq<Action>, id: MemberId, now: u64, later: seq<Action>, count: u16, a: Action)
    requires Run(before, count).generation < U32_MAX
    requires a.Beat? && a.id == id && a.generation <= Run(before, count).generation
    ensures var s := Swept(Run(before + [Join(id, now)] + later, count), count, a.expireAt, a.rebalanceAt, a.timeout);
            var (t, code, flag) := Beaten(s, a.id, a.generation, a.beatAt);
            code != 0 && flag && t == s
  {
    hide Run, Swept;
    RunPast(before, id, now, later, count);
    var g := Run(before + [Join(id, now)] + later, count);
    SweepPast(g, count, a.expireAt, a.rebalanceAt, a.timeout, id, Run(before, count).generation);
  }

  /** An accepted heartbeat keeps a member in the group for one whole session timeout. */
  lemma AcceptedBeatSurvives(g: Group, id: MemberId, generation: u32, at: u64, now: u64, timeout: u64)
    requires Beaten(g, id, generation, at).1 == 0 && now <= at + timeout
    ensures id in Expired(Beaten(g, id, generation, at).0, now, timeout).members
  {
  }
}
