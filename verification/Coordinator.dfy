/** The consumer-group coordinator: joins, heartbeats, expiry and rebalancing of one group. */
module Coordinator {
  import opened Bytes
  import opened RangeAssigner

  datatype Member = Member(id: MemberId, generation: u32, parts: seq<u16>, lastSeen: u64)

  datatype Group = Group(generation: u32, members: map<MemberId, Member>, pending: bool)

  function NewGroup(): Group {
    Group(1, map[], false)
  }

  function NextGeneration(g: u32): u32 {
    if g == U32_MAX then U32_MAX else g + 1
  }

  /** Members of the given generation, and members that hold nothing. */
  predicate Current(m: Member, generation: u32) {
    m.generation == generation || m.parts == []
  }

  function CurrentIds(members: map<MemberId, Member>, generation: u32): set<MemberId> {
    set k | k in members && Current(members[k], generation) :: members[k].id
  }

  /** Who takes part in an assignment: the current members, or everyone when there are none. */
  function Eligible(members: map<MemberId, Member>, generation: u32): set<MemberId> {
    var ids := CurrentIds(members, generation);
    if ids == {} then members.Keys else ids
  }

  /** A set in increasing order. */
  ghost function InOrder(s: set<MemberId>): (ids: seq<MemberId>)
    ensures Sorts(ids, s)
  {
    if s == {} then [] else
    var x :| x in s;
    InsertSorts(InOrder(s - {x}), x);
    assert s - {x} + {x} == s;
    Insert(InOrder(s - {x}), x)
  }

  ghost function Assigned(count: u16, members: map<MemberId, Member>, generation: u32): map<MemberId, seq<u16>> {
    Shares(count, InOrder(Eligible(members, generation)))
  }

  /** Members named in the assignment take their range over; a join also stamps them. */
  function Stamped(members: map<MemberId, Member>, parts: map<MemberId, seq<u16>>, now: u64,
                   generation: u32): map<MemberId, Member>
  {
    map k | k in members ::
      if k in parts then members[k].(parts := parts[k], lastSeen := now, generation := generation) else members[k]
  }

  function Refreshed(members: map<MemberId, Member>, parts: map<MemberId, seq<u16>>, now: u64): map<MemberId, Member> {
    map k | k in members ::
      if k in parts then members[k].(parts := parts[k], lastSeen := now) else members[k]
  }

  /** The smallest positive id not in use. */
  predicate IsNextId(members: map<MemberId, Member>, id: MemberId) {
    id >= 1 && id !in members && forall j: MemberId :: 1 <= j < id ==> j in members
  }

  ghost function Joined(g: Group, id: MemberId, count: u16, now: u64): Group {
    var generation := NextGeneration(g.generation);
    var members := g.members[id := Member(id, generation, [], now)];
    Group(generation, Stamped(members, Assigned(count, members, generation), now, generation), false)
  }

  predicate Stale(m: Member, now: u64, timeout: u64) {
    Max(now - m.lastSeen, 0) > timeout
  }

  function Expired(g: Group, now: u64, timeout: u64): Group {
    var members := map k | k in g.members && !Stale(g.members[k], now, timeout) :: g.members[k];
    if members == g.members then g else Group(NextGeneration(g.generation), members, true)
  }

  ghost function Rebalanced(g: Group, count: u16, now: u64): Group {
    Group(g.generation, Refreshed(g.members, Assigned(count, g.members, g.generation), now), false)
  }

  /** Expiry, and a rebalance when it removed someone. */
  ghost function Swept(g: Group, count: u16, expireAt: u64, rebalanceAt: u64, timeout: u64): Group {
    var e := Expired(g, expireAt, timeout);
    if e.members == g.members then e else Rebalanced(e, count, rebalanceAt)
  }

  /** Code 1: unknown member; 2: generation mismatch; 0: alive, with the rebalance flag. */
  function Beaten(g: Group, id: MemberId, generation: u32, now: u64): (Group, byte, bool) {
    if id !in g.members then (g, 1, true)
    else if g.members[id].generation != generation then (g, 2, true)
    else (g.(members := g.members[id := g.members[id].(lastSeen := now)]), 0, g.pending)
  }

  // ---- The coordinator's own code

  lemma {:induction false} UsedIds(keys: set<MemberId>, id: MemberId)
    requires id >= 1 && forall j: MemberId :: 1 <= j < id ==> j in keys
    ensures id - 1 <= |keys|
    decreases id
  {
    if id > 1 {
      UsedIds(keys - {id - 1}, id - 1);
      assert keys == keys - {id - 1} + {id - 1};
    }
  }

  class GroupState {
    var generation: u32
    var members: map<MemberId, Member>
    var rebalancePending: bool

    function Value(): Group
      reads this
    {
      Group(generation, members, rebalancePending)
    }

    constructor ()
      ensures Value() == NewGroup()
    {
      generation, members, rebalancePending := 1, map[], false;
    }

    method NextMemberId() returns (id: MemberId)
      requires |members| < U64_MAX
      ensures IsNextId(members, id)
    {
      id := 1;
      while id in members
        invariant id >= 1 && forall j: MemberId :: 1 <= j < id ==> j in members
        decreases U64_MAX - id
      {
        assert id < U64_MAX by {
          UsedIds(members.Keys - {id}, id);
          assert members.Keys == members.Keys - {id} + {id};
        }
        id := id + 1;
      }
    }

    /** Collects the ids of the members that pass the filter, in iteration order. */
    method CollectCurrent() returns (ids: seq<MemberId>)
      ensures Elements(ids) == CurrentIds(members, generation)
    {
      ids := [];
      var left := members.Keys;
      ghost var done: map<MemberId, Member> := map[];
      while left != {}
        invariant left <= members.Keys && done == members - left
        invariant Elements(ids) == CurrentIds(done, generation)
        decreases left
      {
        var k :| k in left;
        left := left - {k};
        ghost var before := done;
        done := members - left;
        CurrentStep(before, k, members[k], done, generation);
        if Current(members[k], generation) {
          assert Elements(ids + [members[k].id]) == Elements(ids) + {members[k].id};
          ids := ids + [members[k].id];
        }
      }
      assert done == members;
    }

    method CollectAll() returns (ids: seq<MemberId>)
      ensures Elements(ids) == members.Keys
    {
      ids := [];
      var left := members.Keys;
      while left != {}
        invariant left <= members.Keys && Elements(ids) == members.Keys - left
        decreases left
      {
        var k :| k in left;
        left := left - {k};
        assert Elements(ids + [k]) == Elements(ids) + {k};
        ids := ids + [k];
      }
    }

    /** Whatever the iteration order of the member table, the result is the range assignment of
        the eligible members. */
    method RangeAssign(count: u16) returns (out: map<MemberId, seq<u16>>)
      ensures out == Assigned(count, members, generation)
    {
      hide Elements, CurrentIds, Shares;
      var ids := CollectCurrent();
      NoElements(ids);
      if ids == [] {
        ids := CollectAll();
      }
      var sorted := SortDedup(ids);
      SortIsUnique(sorted, InOrder(Eligible(members, generation)), Eligible(members, generation));
      out := AssignRanges(count, sorted);
    }

    method Join(memberId: MemberId, count: u16, now: u64)
      returns (id: MemberId, stamp: u32, parts: seq<u16>)
      requires |members| < U64_MAX
      modifies this
      ensures if memberId == 0 then IsNextId(old(members), id) else id == memberId
      ensures Value() == Joined(old(Value()), id, count, now)
      ensures stamp == generation
      ensures id in members && parts == members[id].parts
    {
      if memberId == 0 {
        id := NextMemberId();
      } else {
        id := memberId;
      }
      generation := NextGeneration(generation);
      rebalancePending := true;
      members := members[id := Member(id, generation, [], now)];
      var assignments := RangeAssign(count);
      ghost var before := members;
      members := Install(members, assignments, now, Some(generation));
      rebalancePending := false;
      parts := if id in assignments then assignments[id] else [];
      stamp := generation;
      if count > 0 {
        JoinerIsEligible(before, id, generation, count);
      }
    }

    method Heartbeat(id: MemberId, generationSeen: u32, now: u64) returns (code: byte, rebalance: bool)
      modifies this`members
      ensures (Value(), code, rebalance) == Beaten(old(Value()), id, generationSeen, now)
    {
      if id !in members {
        return 1, true;
      }
      var member := members[id];
      if member.generation != generationSeen {
        return 2, true;
      }
      members := members[id := member.(lastSeen := now)];
      return 0, rebalancePending;
    }

    method ExpireStaleMembers(now: u64, timeout: u64) returns (expired: bool)
      modifies this
      ensures Value() == Expired(old(Value()), now, timeout)
      ensures expired <==> members != old(members)
    {
      var stale := set k | k in members && Stale(members[k], now, timeout);
      ghost var keep := map k | k in members && !Stale(members[k], now, timeout) :: members[k];
      assert keep == members - stale;
      if stale == {} {
        assert keep == members;
        return false;
      }
      var k :| k in stale;
      assert k in members && k !in keep;
      members := members - stale;
      generation := NextGeneration(generation);
      rebalancePending := true;
      return true;
    }

    /** A heartbeat request: expire first, rebalance if anyone left, then answer. */
    method GroupHeartbeat(count: u16, id: MemberId, generationSeen: u32, expireAt: u64, rebalanceAt: u64,
                          beatAt: u64, timeout: u64)
      returns (code: byte, rebalance: bool)
      modifies this
      ensures (Value(), code, rebalance) ==
              Beaten(Swept(old(Value()), count, expireAt, rebalanceAt, timeout), id, generationSeen, beatAt)
    {
      var expired := ExpireStaleMembers(expireAt, timeout);
      if expired {
        var assignments := Rebalance(count, rebalanceAt);
      }
      code, rebalance := Heartbeat(id, generationSeen, beatAt);
    }

    method Rebalance(count: u16, now: u64) returns (assignments: map<MemberId, seq<u16>>)
      modifies this
      ensures Value() == Rebalanced(old(Value()), count, now)
      ensures assignments == Assigned(count, old(members), generation)
    {
      assignments := RangeAssign(count);
      members := Install(members, assignments, now, None);
      rebalancePending := false;
    }
  }

  /** Writes an assignment into the member table, one entry after the other. */
  method Install(members: map<MemberId, Member>, parts: map<MemberId, seq<u16>>, now: u64, stamp: Option<u32>)
    returns (out: map<MemberId, Member>)
    ensures out == match stamp {
                     case Some(g) => Stamped(members, parts, now, g)
                     case None => Refreshed(members, parts, now)
                   }
  {
    out := members;
    var left := parts.Keys;
    while left != {}
      invariant left <= parts.Keys && out.Keys == members.Keys
      invariant forall k :: k in members ==>
        out[k] == if k in parts && k !in left then
                    members[k].(parts := parts[k], lastSeen := now,
                                generation := if stamp.Some? then stamp.value else members[k].generation)
                  else members[k]
      decreases left
    {
      var k :| k in left;
      left := left - {k};
      if k in out {
        out := out[k := out[k].(parts := parts[k], lastSeen := now,
                                generation := if stamp.Some? then stamp.value else out[k].generation)];
      }
    }
  }

  lemma CurrentStep(before: map<MemberId, Member>, k: MemberId, m: Member, after: map<MemberId, Member>,
                    generation: u32)
    requires k !in before && after == before[k := m]
    ensures CurrentIds(after, generation)
            == CurrentIds(before, generation) + if Current(m, generation) then {m.id} else {}
  {
    forall id | id in CurrentIds(before, generation) ensures id in CurrentIds(after, generation) {
      var j :| j in before && Current(before[j], generation) && before[j].id == id;
      assert after[j] == before[j];
    }
    assert after[k] == m;
    if Current(m, generation) {
      assert m.id in CurrentIds(after, generation);
    }
  }

  lemma JoinerIsEligible(members: map<MemberId, Member>, id: MemberId, generation: u32, count: u16)
    requires id in members && members[id].generation == generation && members[id].id == id && count > 0
    ensures id in Assigned(count, members, generation)
  {
    assert id in CurrentIds(members, generation);
    AssignedKeys(count, members, generation);
  }

  lemma AssignedKeys(count: u16, members: map<MemberId, Member>, generation: u32)
    requires count > 0
    ensures Assigned(count, members, generation).Keys == Eligible(members, generation)
  {
    var ids := InOrder(Eligible(members, generation));
    SharesToKeys(count, ids, |ids|);
    assert ids[..|ids|] == ids;
  }
}
