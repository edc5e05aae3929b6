/** Every run of one replicated partition under a fixed leader. Replicate requests that were
    ever sent may arrive any number of times, in any order, at any later moment, or never. */
module ReplicationRuns {
  import opened Bytes
  import opened PartitionLogs
  import opened LogStore
  import opened Hosts
  import opened Replication
  import Messages
  import RequestWire

  datatype Message = Message(offset: u64, payload: Payload)

  /** A replication call in progress: who is still to be asked, the count so far, who is behind it, and
      which of the brokers asked so far answered Ok. */
  datatype Call = Call(message: Message, todo: seq<BrokerId>, acks: nat, acked: set<BrokerId>, answers: seq<bool>)

  datatype State = State(replicas: map<BrokerId, Replica>, sent: set<Message>, calls: seq<Call>)

  /** Who leads, the assignment's replica list, the brokers with a known address, the payload
      limit, and which partition this is. */
  datatype Setup = Setup(leader: BrokerId, list: seq<BrokerId>, known: set<BrokerId>, limit: nat,
                         topicId: u16, partitionId: u16)

  datatype Action =
    | Produce(payload: Payload)                        // append at the leader, then replicate
    | Retry(offset: u64, payload: Payload)             // an idempotent retry replicates the request's bytes
    | Ask(call: nat, delivered: bool, answered: bool)  // one turn of the replication loop
    | Deliver(at: BrokerId, message: Message)          // a request arriving late or again
    | Restart(at: BrokerId)
    | Register(at: BrokerId)                           // the topic enters the broker's topic list

  predicate Dialled(u: Setup, id: BrokerId) {
    id != u.leader && id in u.known
  }

  predicate Enabled(u: Setup, s: State, a: Action) {
    && u.leader in s.replicas
    && match a
       case Produce(payload) => |s.replicas[u.leader].h| < U64_MAX
       case Retry(offset, payload) => offset < |s.replicas[u.leader].h| && |payload| <= u.limit
       case Ask(k, delivered, answered) =>
         k < |s.calls| && s.calls[k].todo != [] && (Dialled(u, s.calls[k].todo[0]) ==> s.calls[k].todo[0] in s.replicas)
       case Deliver(at, m) => at in s.replicas && m in s.sent
       case Restart(at) => at in s.replicas
       case Register(at) => at in s.replicas
  }

  function Opened(u: Setup, m: Message): Call {
    Call(m, u.list, 0, {}, [])
  }

  /** The call after its next replica, which did or did not count, and did or did not answer Ok. */
  function Advanced(c: Call, counted: bool, ok: bool): Call
    requires c.todo != []
  {
    if counted then Call(c.message, c.todo[1..], c.acks + 1, c.acked + {c.todo[0]}, c.answers + [ok])
    else c.(todo := c.todo[1..], answers := c.answers + [ok])
  }

  /** The request survives its frame. */
  predicate Arrives(u: Setup, m: Message) {
    RequestWire.Replicated(u.topicId, u.partitionId, m.offset, m.payload).Ok?
  }

  /** A broker after a replicate request was sent to it and not lost. */
  function Reached(u: Setup, id: BrokerId, r: Replica, m: Message): (Replica, Outcome<()>) {
    if Arrives(u, m) then Applied(r, id in u.list, m.offset, m.payload) else (r, Err)
  }

  function Asked(u: Setup, s: State, k: nat, delivered: bool, answered: bool): State
    requires Enabled(u, s, Ask(k, delivered, answered))
  {
    var c := s.calls[k];
    var id := c.todo[0];
    if !Dialled(u, id) then s.(calls := s.calls[k := Advanced(c, id == u.leader, false)])
    else
      var (replica, r) := Reached(u, id, s.replicas[id], c.message);
      State(if delivered then s.replicas[id := replica] else s.replicas,
            s.sent + {c.message},
            s.calls[k := Advanced(c, delivered && answered && r.Ok?, delivered && answered && r.Ok?)])
  }

  function Next(u: Setup, s: State, a: Action): State
    requires Enabled(u, s, a)
  {
    match a
    case Produce(payload) =>
      var (replica, r) := Produced(s.replicas[u.leader], payload, u.limit);
      var t := s.(replicas := s.replicas[u.leader := replica]);
      if r.Ok? then t.(calls := s.calls + [Opened(u, Message(r.value, payload))]) else t
    case Retry(offset, payload) =>
      s.(calls := s.calls + [Opened(u, Message(offset, payload))])
    case Ask(k, delivered, answered) => Asked(u, s, k, delivered, answered)
    case Deliver(at, m) =>
      s.(replicas := s.replicas[at := Reached(u, at, s.replicas[at], m).0])
    case Restart(at) =>
      var t := s.(replicas := s.replicas[at := Restarted(s.replicas[at])]);
      if at == u.leader then t.(calls := []) else t
    case Register(at) =>
      s.(replicas := s.replicas[at := s.replicas[at].(listed := true)])
  }

  predicate Keeps(r: Replica) {
    r.Reloads() || r.h == []
  }

  /** A payload that the segment can hold; a retry with the bytes of the first attempt; a restart
      of the leader that loses nothing (of a follower, any restart); no listing of a broker whose
      log and segment differ, unless it would not reload them anyway. */
  ghost predicate Tame(u: Setup, s: State, a: Action)
    requires Enabled(u, s, a)
  {
    match a
    case Produce(payload) => !Drifts(payload, u.limit)
    case Retry(offset, payload) => payload == s.replicas[u.leader].h[offset]
    case Restart(at) => at == u.leader ==> Keeps(s.replicas[at])
    case Register(at) => s.replicas[at].inRange ==> InStep(s.replicas[at])
    case _ => true
  }

  /** Whatever arrives in a frame fits the segment, under any limit. */
  lemma FramedProduceIsTame(u: Setup, s: State, producer: u64, sequence: u64, payload: Payload)
    requires Enabled(u, s, Produce(payload))
    requires || RequestWire.Arrives(Messages.Produce(u.topicId, u.partitionId, payload))
             || RequestWire.Arrives(Messages.IdempotentProduce(u.topicId, u.partitionId, producer, sequence, payload))
    ensures Tame(u, s, Produce(payload))
  {
    hide RequestWire.Arrives;
    if RequestWire.Arrives(Messages.Produce(u.topicId, u.partitionId, payload)) {
      RequestWire.FramesBoundPayloads(Messages.Produce(u.topicId, u.partitionId, payload));
    } else {
      RequestWire.FramesBoundPayloads(Messages.IdempotentProduce(u.topicId, u.partitionId, producer, sequence,
          payload));
    }
  }

  predicate Init(u: Setup, s: State) {
    && u.leader in s.replicas && s.sent == {} && s.calls == []
    && forall b :: b in s.replicas ==> s.replicas[b].h == [] && s.replicas[b].file == []
  }

  ghost predicate IsRun(u: Setup, run: seq<State>, actions: seq<Action>) {
    && |run| == |actions| + 1 && Init(u, run[0])
    && forall i :: 0 <= i < |actions| ==>
         Enabled(u, run[i], actions[i]) && Tame(u, run[i], actions[i]) && run[i + 1] == Next(u, run[i], actions[i])
  }

  // ---- Logs

  predicate Holds(h: seq<Payload>, m: Message) {
    m.offset < |h| && h[m.offset] == m.payload
  }

  /** The leader's log and segment agree, every log is a prefix of the leader's, and whatever a
      restart would reload agrees with its log. */
  ghost predicate Prefixes(leader: BrokerId, replicas: map<BrokerId, Replica>) {
    && leader in replicas && InStep(replicas[leader])
    && forall b :: b in replicas ==>
         replicas[b].h <= replicas[leader].h && (replicas[b].Reloads() ==> InStep(replicas[b]))
  }

  /** Every request ever sent, or still to be sent, carries the leader's record at its offset. */
  ghost predicate Truthful(h: seq<Payload>, s: State) {
    && (forall m :: m in s.sent ==> Holds(h, m))
    && (forall k :: 0 <= k < |s.calls| ==> Holds(h, s.calls[k].message))
  }

  ghost predicate LogsOk(u: Setup, s: State) {
    Prefixes(u.leader, s.replicas) && Truthful(s.replicas[u.leader].h, s)
  }

  /** A replicated record that agrees with the leader keeps the follower a prefix, and an Ok
      answer means the follower holds it. */
  lemma ApplyKeepsPrefix(r: Replica, isReplica: bool, m: Message, leader: seq<Payload>)
    requires r.h <= leader && Storable(leader) && Holds(leader, m)
    ensures var (r', ok) := Applied(r, isReplica, m.offset, m.payload);
            && r.h <= r'.h <= leader && (ok.Ok? ==> Holds(r'.h, m))
            && (InStep(r) ==> InStep(r')) && r'.Reloads() == r.Reloads()
  {
    hide FileOf, RecordBytes;
    if isReplica && m.offset == |r.h| && InStep(r) {
      ExtendedInStep(r, m.payload);
    }
  }

  lemma ReachKeepsPrefix(u: Setup, id: BrokerId, r: Replica, m: Message, leader: seq<Payload>)
    requires r.h <= leader && Storable(leader) && Holds(leader, m)
    ensures var (r', ok) := Reached(u, id, r, m);
            && r.h <= r'.h <= leader && (ok.Ok? ==> Holds(r'.h, m))
            && (InStep(r) ==> InStep(r')) && r'.Reloads() == r.Reloads()
  {
    hide Applied, InStep, Arrives;
    ApplyKeepsPrefix(r, id in u.list, m, leader);
  }

  /** Replacing one follower's log by a prefix of the leader's, or the leader's by itself. */
  lemma ReplaceLog(leader: BrokerId, replicas: map<BrokerId, Replica>, b: BrokerId, r: Replica)
    requires Prefixes(leader, replicas) && b in replicas && r.h <= replicas[leader].h
    requires r.Reloads() || b == leader ==> InStep(r)
    requires b == leader ==> r.h == replicas[leader].h
    ensures Prefixes(leader, replicas[b := r]) && replicas[b := r][leader].h == replicas[leader].h
  {
    hide InStep;
  }

  lemma ReachedLog(u: Setup, s: State, b: BrokerId, m: Message)
    requires LogsOk(u, s) && b in s.replicas && Holds(s.replicas[u.leader].h, m)
    ensures var (r, ok) := Reached(u, b, s.replicas[b], m);
            && Prefixes(u.leader, s.replicas[b := r])
            && s.replicas[b := r][u.leader].h == s.replicas[u.leader].h
            && s.replicas[b].h <= r.h && (ok.Ok? ==> Holds(r.h, m))
  {
    hide InStep, Reached;
    LeaderInStep(u, s, b);
    ReachKeepsPrefix(u, b, s.replicas[b], m, s.replicas[u.leader].h);
    ReplaceLog(u.leader, s.replicas, b, Reached(u, b, s.replicas[b], m).0);
  }

  lemma LeaderInStep(u: Setup, s: State, b: BrokerId)
    requires LogsOk(u, s) && b in s.replicas
    ensures Storable(s.replicas[u.leader].h) && InStep(s.replicas[u.leader])
    ensures s.replicas[b].h <= s.replicas[u.leader].h && (s.replicas[b].Reloads() ==> InStep(s.replicas[b]))
  {
  }

  lemma ProduceKeepsLogs(u: Setup, s: State, payload: Payload)
    requires LogsOk(u, s) && Enabled(u, s, Produce(payload))
    ensures LogsOk(u, Next(u, s, Produce(payload))) <==> !Drifts(payload, u.limit)
  {
    hide FileOf, RecordBytes, InStep;
    ProduceInStep(s.replicas[u.leader], payload, u.limit);
  }

  lemma AskKeepsLogs(u: Setup, s: State, k: nat, delivered: bool, answered: bool)
    requires LogsOk(u, s) && Enabled(u, s, Ask(k, delivered, answered))
    ensures LogsOk(u, Asked(u, s, k, delivered, answered))
  {
    hide Reached, Prefixes;
    var m, id := s.calls[k].message, s.calls[k].todo[0];
    if Dialled(u, id) {
      ReachedLog(u, s, id, m);
    }
  }

  lemma DeliverKeepsLogs(u: Setup, s: State, at: BrokerId, m: Message)
    requires LogsOk(u, s) && Enabled(u, s, Deliver(at, m))
    ensures LogsOk(u, Next(u, s, Deliver(at, m)))
  {
    hide Reached, Prefixes;
    ReachedLog(u, s, at, m);
  }

  lemma RestartKeepsLogs(u: Setup, s: State, at: BrokerId)
    requires LogsOk(u, s) && Enabled(u, s, Restart(at))
    ensures LogsOk(u, Next(u, s, Restart(at))) <==> Tame(u, s, Restart(at))
  {
    hide Recovered, Prefixes, InStep;
    LeaderInStep(u, s, at);
    var r := s.replicas[at];
    if InStep(r) {
      RestartKeepsRecords(r);
    }
    if Tame(u, s, Restart(at)) {
      ReplaceLog(u.leader, s.replicas, at, Restarted(r));
    } else {
      NotInStep(u, Next(u, s, Restart(at)), at);
    }
  }

  lemma RegisterKeepsLogs(u: Setup, s: State, at: BrokerId)
    requires LogsOk(u, s) && Enabled(u, s, Register(at))
    ensures LogsOk(u, Next(u, s, Register(at))) <==> Tame(u, s, Register(at))
  {
    hide Prefixes, InStep;
    LeaderInStep(u, s, at);
    var r := s.replicas[at].(listed := true);
    ListedInStep(s.replicas[at]);
    if Tame(u, s, Register(at)) {
      ReplaceLog(u.leader, s.replicas, at, r);
    } else {
      NotInStep(u, Next(u, s, Register(at)), at);
    }
  }

  /** The leader, or a broker that would reload, with a segment that differs from its log. */
  lemma NotInStep(u: Setup, s: State, b: BrokerId)
    requires b in s.replicas && !InStep(s.replicas[b]) && (b == u.leader || s.replicas[b].Reloads())
    ensures !LogsOk(u, s)
  {
  }

  lemma ListedInStep(r: Replica)
    ensures InStep(r.(listed := true)) <==> InStep(r)
  {
  }

  /** One step keeps all of this exactly when it is tame. */
  lemma StepKeepsLogs(u: Setup, s: State, a: Action)
    requires LogsOk(u, s) && Enabled(u, s, a)
    ensures LogsOk(u, Next(u, s, a)) <==> Tame(u, s, a)
  {
    hide Reached, Produced, Asked, Restarted, Prefixes, InStep;
    match a
    case Produce(payload) => ProduceKeepsLogs(u, s, payload);
    case Retry(offset, payload) =>
      assert Next(u, s, a).calls[|s.calls|].message == Message(offset, payload);
    case Ask(k, delivered, answered) => AskKeepsLogs(u, s, k, delivered, answered);
    case Deliver(at, m) => DeliverKeepsLogs(u, s, at, m);
    case Restart(at) => RestartKeepsLogs(u, s, at);
    case Register(at) => RegisterKeepsLogs(u, s, at);
  }

  lemma InitLogs(u: Setup, s: State)
    requires Init(u, s)
    ensures LogsOk(u, s)
  {
  }

  lemma {:induction false} LogsAlwaysOk(u: Setup, run: seq<State>, actions: seq<Action>, i: nat)
    requires IsRun(u, run, actions) && i < |run|
    ensures LogsOk(u, run[i])
  {
    hide LogsOk, Next, Enabled, Tame, Init;
    if i == 0 {
      InitLogs(u, run[0]);
    } else {
      LogsAlwaysOk(u, run, actions, i - 1);
      StepKeepsLogs(u, run[i - 1], actions[i - 1]);
    }
  }

  /** In every reachable state each follower's history is a prefix of the leader's. */
  lemma FollowersArePrefixes(u: Setup, run: seq<State>, actions: seq<Action>, i: nat, b: BrokerId)
    requires IsRun(u, run, actions) && i < |run| && b in run[i].replicas
    ensures u.leader in run[i].replicas && run[i].replicas[b].h <= run[i].replicas[u.leader].h
  {
    hide IsRun, InStep;
    LogsAlwaysOk(u, run, actions, i);
  }

  /** Whatever a replica returns for a fetch is the leader's record at that offset. */
  lemma FetchedRecordIsLeaders(u: Setup, run: seq<State>, actions: seq<Action>, i: nat, b: BrokerId,
                               maxRecords: Option<nat>, from: nat, maxBytes: nat, k: nat)
    requires IsRun(u, run, actions) && i < |run| && b in run[i].replicas
    requires k < |Fetched(LogOf(run[i].replicas[b].h, maxRecords), from, maxBytes)|
    ensures u.leader in run[i].replicas
    ensures var r := Fetched(LogOf(run[i].replicas[b].h, maxRecords), from, maxBytes)[k];
            && from <= r.offset < |run[i].replicas[u.leader].h|
            && run[i].replicas[u.leader].h[r.offset] == r.payload
  {
    hide IsRun;
    FollowersArePrefixes(u, run, actions, i, b);
    var log := LogOf(run[i].replicas[b].h, maxRecords);
    assert Fetched(log, from, maxBytes)[k] == Tail(log, from)[k];
  }

  // ---- Histories only grow

  /** A restart of `b` that drops its records. */
  predicate Forgets(s: State, a: Action, b: BrokerId)
    requires b in s.replicas
  {
    a == Restart(b) && !Keeps(s.replicas[b])
  }

  /** One step takes no record from broker `b` exactly when it is not such a restart. */
  lemma StepGrowsExactly(u: Setup, s: State, a: Action, b: BrokerId)
    requires LogsOk(u, s) && Enabled(u, s, a) && b in s.replicas
    ensures b in Next(u, s, a).replicas
    ensures s.replicas[b].h <= Next(u, s, a).replicas[b].h <==> !Forgets(s, a, b)
  {
    hide FileOf, RecordBytes, Recovered, Arrives;
    if a.Restart? && s.replicas[a.at].Reloads() {
      RestartKeepsRecords(s.replicas[a.at]);
    }
  }

  /** Broker `b` drops its records at some step from `i` on and before `j`. */
  ghost predicate Forgot(run: seq<State>, actions: seq<Action>, i: nat, j: nat, b: BrokerId)
    requires j <= |run| && j <= |actions|
  {
    exists x :: i <= x < j && b in run[x].replicas && Forgets(run[x], actions[x], b)
  }

  /** A broker that does not forget never loses a record, whatever other brokers do. */
  lemma {:induction false} HistoriesGrow(u: Setup, run: seq<State>, actions: seq<Action>, i: nat, j: nat, b: BrokerId)
    requires IsRun(u, run, actions) && i <= j < |run| && b in run[i].replicas
    requires !Forgot(run, actions, i, j, b)
    ensures b in run[j].replicas && run[i].replicas[b].h <= run[j].replicas[b].h
    decreases j
  {
    hide LogsOk, Next, Enabled, Tame, Init, Forgets;
    if i < j {
      HistoriesGrow(u, run, actions, i, j - 1, b);
      LogsAlwaysOk(u, run, actions, j - 1);
      StepGrowsExactly(u, run[j - 1], actions[j - 1], b);
    }
  }

  /** The leader of a run never forgets. */
  lemma LeaderGrows(u: Setup, run: seq<State>, actions: seq<Action>, i: nat, j: nat)
    requires IsRun(u, run, actions) && i <= j < |run|
    ensures u.leader in run[i].replicas && u.leader in run[j].replicas
    ensures run[i].replicas[u.leader].h <= run[j].replicas[u.leader].h
  {
    LogsAlwaysOk(u, run, actions, i);
    hide LogsOk, Next, Init;
    HistoriesGrow(u, run, actions, i, j, u.leader);
  }

  // ---- Acknowledgements

  /** The count is the number of brokers that acknowledged, each of them in the part of the replica
      list that has been asked. */
  ghost predicate CallOk(u: Setup, c: Call) {
    && c.acks == |c.acked|
    && |c.todo| <= |u.list| && c.todo == u.list[|u.list| - |c.todo|..]
    && (forall id :: id in c.acked ==> id in u.list[..|u.list| - |c.todo|])
  }

  ghost predicate CallsOk(u: Setup, s: State) {
    forall k :: 0 <= k < |s.calls| ==> CallOk(u, s.calls[k])
  }

  /** Taking the next replica off the list, counted or not. */
  lemma CallAdvances(u: Setup, c: Call, counted: bool, ok: bool)
    requires Distinct(u.list) && CallOk(u, c) && c.todo != []
    ensures CallOk(u, Advanced(c, counted, ok))
  {
    var n := |u.list| - |c.todo|;
    assert c.todo[0] == u.list[n];
    assert u.list[..n + 1] == u.list[..n] + [u.list[n]];
    assert u.list[n] !in u.list[..n];
  }

  /** The count so far is the ack count of the brokers asked so far and their answers. */
  ghost predicate CallCounts(u: Setup, c: Call) {
    && |c.todo| + |c.answers| == |u.list| && c.todo == u.list[|c.answers|..]
    && c.acks == AckCount(u.list[..|c.answers|], u.leader, u.known, c.answers)
  }

  lemma CountAdvances(u: Setup, c: Call, counted: bool, ok: bool)
    requires CallCounts(u, c) && c.todo != []
    requires counted <==> c.todo[0] == u.leader || (c.todo[0] in u.known && ok)
    ensures CallCounts(u, Advanced(c, counted, ok))
  {
    var n := |c.answers|;
    assert c.todo[0] == u.list[n];
    assert u.list[..n + 1][..n] == u.list[..n] && (c.answers + [ok])[..n] == c.answers;
  }

  /** A step leaves a call as it was, opens it, or takes its next replica off the list. */
  lemma CallStep(u: Setup, s: State, a: Action, k: nat) returns (counted: bool, ok: bool)
    requires LogsOk(u, s) && Enabled(u, s, a) && k < |Next(u, s, a).calls|
    ensures var c := Next(u, s, a).calls[k];
            if k < |s.calls| then
              || c == s.calls[k]
              || (&& s.calls[k].todo != [] && c == Advanced(s.calls[k], counted, ok)
                  && (counted <==> s.calls[k].todo[0] == u.leader || (s.calls[k].todo[0] in u.known && ok)))
            else c == Opened(u, c.message)
  {
    hide LogsOk, Reached, Produced, Restarted, Advanced;
    if a.Ask? && a.call == k {
      var id, m := s.calls[k].todo[0], s.calls[k].message;
      ok := Dialled(u, id) && a.delivered && a.answered && Reached(u, id, s.replicas[id], m).1.Ok?;
      counted := id == u.leader || ok;
    } else {
      counted, ok := false, false;
    }
  }

  /** One turn of the loop counts the broker exactly when it is the leader itself, or has a known address,
      received the request and got its answer back, is in the replica list, holds a record at that offset
      or lacks just this one, and the payload has at most 239 bytes. */
  lemma AskCountsExactly(u: Setup, s: State, k: nat, delivered: bool, answered: bool)
    requires Enabled(u, s, Ask(k, delivered, answered))
    ensures var c, c' := s.calls[k], Next(u, s, Ask(k, delivered, answered)).calls[k];
            var id := c.todo[0];
            var counted := id == u.leader
                           || (&& id in u.known && delivered && answered && id in u.list
                               && c.message.offset <= |s.replicas[id].h| && |c.message.payload| <= LONGEST_REPLICATED);
            && c'.acks == c.acks + (if counted then 1 else 0)
            && c'.acked == c.acked + (if counted then {id} else {})
            && c'.todo == c.todo[1..] && c'.message == c.message
  {
    hide RequestWire.Replicated;
    var c := s.calls[k];
    var id := c.todo[0];
    RequestWire.ReplicateArrivesExactly(u.topicId, u.partitionId, c.message.offset, c.message.payload);
    if Dialled(u, id) {
      AppliedExactly(s.replicas[id], id in u.list, c.message.offset, c.message.payload);
    }
  }

  /** Whoever a step adds to the acknowledgements of a call holds the record after it. */
  lemma CountedHolds(u: Setup, s: State, a: Action, k: nat, id: BrokerId)
    requires LogsOk(u, s) && Enabled(u, s, a)
    requires k < |Next(u, s, a).calls| && id in Next(u, s, a).calls[k].acked
    requires k >= |s.calls| || id !in s.calls[k].acked
    ensures var t := Next(u, s, a);
            id in t.replicas && Holds(t.replicas[id].h, t.calls[k].message)
  {
    hide LogsOk, Reached, Produced, Restarted, Holds;
    assert a == Ask(k, a.delivered, a.answered) && s.calls[k].todo[0] == id;
    assert LogsOk(u, s) && Holds(s.replicas[u.leader].h, s.calls[k].message) by { CallTruthful(u, s, k); }
    if Dialled(u, id) {
      ReachedLog(u, s, id, s.calls[k].message);
    }
  }

  lemma CallTruthful(u: Setup, s: State, k: nat)
    requires LogsOk(u, s) && k < |s.calls|
    ensures Holds(s.replicas[u.leader].h, s.calls[k].message)
  {
  }

  lemma StepKeepsCalls(u: Setup, s: State, a: Action)
    requires Distinct(u.list) && LogsOk(u, s) && CallsOk(u, s) && Enabled(u, s, a)
    ensures CallsOk(u, Next(u, s, a))
  {
    hide LogsOk, Next, Enabled, CallOk;
    var t := Next(u, s, a);
    forall k | 0 <= k < |t.calls| ensures CallOk(u, t.calls[k]) {
      var counted, ok := CallStep(u, s, a, k);
      if k >= |s.calls| {
        OpenedOk(u, t.calls[k].message);
      } else if t.calls[k] != s.calls[k] {
        CallAdvances(u, s.calls[k], counted, ok);
      }
    }
  }

  lemma OpenedOk(u: Setup, m: Message)
    ensures CallOk(u, Opened(u, m))
  {
  }

  lemma {:induction false} CallsAlwaysOk(u: Setup, run: seq<State>, actions: seq<Action>, i: nat)
    requires Distinct(u.list) && IsRun(u, run, actions) && i < |run|
    ensures CallsOk(u, run[i])
  {
    hide LogsOk, Next, Enabled, Tame;
    if i > 0 {
      CallsAlwaysOk(u, run, actions, i - 1);
      LogsAlwaysOk(u, run, actions, i - 1);
      StepKeepsCalls(u, run[i - 1], actions[i - 1]);
    }
  }

  lemma {:induction false} CallAlwaysCounts(u: Setup, run: seq<State>, actions: seq<Action>, i: nat, k: nat)
    requires IsRun(u, run, actions) && i < |run| && k < |run[i].calls|
    ensures CallCounts(u, run[i].calls[k])
    decreases i
  {
    hide LogsOk, Next, Enabled, Tame, CallCounts;
    LogsAlwaysOk(u, run, actions, i - 1);
    var counted, ok := CallStep(u, run[i - 1], actions[i - 1], k);
    if k >= |run[i - 1].calls| {
      OpenedCounts(u, run[i].calls[k].message);
    } else {
      CallAlwaysCounts(u, run, actions, i - 1, k);
      if run[i].calls[k] != run[i - 1].calls[k] {
        CountAdvances(u, run[i - 1].calls[k], counted, ok);
      }
    }
  }

  lemma OpenedCounts(u: Setup, m: Message)
    ensures CallCounts(u, Opened(u, m))
  {
  }

  /** In every run a finished call has counted exactly what the replication loop counts for its answers:
      the leader itself and every addressable replica of the list that answered Ok. */
  lemma FinishedCallCounts(u: Setup, run: seq<State>, actions: seq<Action>, i: nat, k: nat)
    requires IsRun(u, run, actions) && i < |run| && k < |run[i].calls| && run[i].calls[k].todo == []
    ensures var c := run[i].calls[k];
            && |c.answers| == |u.list| && c.acks == AckCount(u.list, u.leader, u.known, c.answers)
            && c.acks == |Counted(u.list, u.leader, u.known, c.answers)|
  {
    hide IsRun;
    CallAlwaysCounts(u, run, actions, i, k);
    assert u.list[..|u.list|] == u.list;
    AckCountExactly(u.list, u.leader, u.known, run[i].calls[k].answers);
  }

  /** Broker `id` holds the record at step `t`, and at every later one unless it has forgotten since. */
  ghost predicate HeldFrom(run: seq<State>, actions: seq<Action>, id: BrokerId, m: Message, t: nat)
    requires |run| == |actions| + 1
  {
    && t < |run| && id in run[t].replicas && Holds(run[t].replicas[id].h, m)
    && forall j :: t <= j < |run| && !Forgot(run, actions, t, j, id) ==>
         id in run[j].replicas && Holds(run[j].replicas[id].h, m)
  }

  lemma HeldSince(u: Setup, run: seq<State>, actions: seq<Action>, id: BrokerId, m: Message, t: nat)
    requires IsRun(u, run, actions) && t < |run| && id in run[t].replicas && Holds(run[t].replicas[id].h, m)
    ensures HeldFrom(run, actions, id, m, t)
  {
    hide Next, Init, Forgot;
    forall j | t <= j < |run| && !Forgot(run, actions, t, j, id)
      ensures id in run[j].replicas && Holds(run[j].replicas[id].h, m)
    {
      HistoriesGrow(u, run, actions, t, j, id);
    }
  }

  /** The step at which an acknowledging broker was counted. */
  lemma {:induction false} CountedAt(u: Setup, run: seq<State>, actions: seq<Action>, i: nat, k: nat, id: BrokerId)
    returns (t: nat)
    requires IsRun(u, run, actions) && i < |run| && k < |run[i].calls| && id in run[i].calls[k].acked
    ensures t <= i && id in run[t].replicas && Holds(run[t].replicas[id].h, run[i].calls[k].message)
    decreases i
  {
    hide LogsOk, Next, Enabled, Tame;
    LogsAlwaysOk(u, run, actions, i - 1);
    var counted, ok := CallStep(u, run[i - 1], actions[i - 1], k);
    if k < |run[i - 1].calls| && id in run[i - 1].calls[k].acked {
      t := CountedAt(u, run, actions, i - 1, k, id);
    } else {
      CountedHolds(u, run[i - 1], actions[i - 1], k, id);
      t := i;
    }
  }

  /** In every run, with any follower restarts: an ack count of `k` counts `k` distinct brokers of
      the replica list. Each of them held that very payload at that offset when it was counted, and
      holds it at every later step unless it has itself forgotten its log since. */
  lemma AcksMeanHeld(u: Setup, run: seq<State>, actions: seq<Action>, i: nat, k: nat)
    requires Distinct(u.list) && IsRun(u, run, actions) && i < |run| && k < |run[i].calls|
    ensures var c := run[i].calls[k];
            && c.acks == |c.acked|
            && forall id :: id in c.acked ==>
                 id in u.list && exists t: nat :: t <= i && HeldFrom(run, actions, id, c.message, t)
  {
    hide Next, Enabled, Tame, Init, HeldFrom;
    CallsAlwaysOk(u, run, actions, i);
    var c := run[i].calls[k];
    assert CallOk(u, c);
    forall id | id in c.acked
      ensures id in u.list && exists t: nat :: t <= i && HeldFrom(run, actions, id, c.message, t)
    {
      var t := CountedAt(u, run, actions, i, k, id);
      HeldSince(u, run, actions, id, c.message, t);
    }
  }

  // ---- Records too long for a replicate frame

  const LONGEST_REPLICATED: nat := 239

  ghost predicate Short(h: seq<Payload>) {
    forall k :: 0 <= k < |h| ==> |h[k]| <= LONGEST_REPLICATED
  }

  ghost predicate FollowersShort(u: Setup, s: State) {
    forall b :: b in s.replicas && b != u.leader ==> Short(s.replicas[b].h)
  }

  /** A delivered request extends the broker's log exactly when the broker is in the replica list,
      lacks just this record, and the payload has at most 239 bytes. */
  lemma ReachExtendsExactly(u: Setup, id: BrokerId, r: Replica, m: Message)
    ensures var r' := Reached(u, id, r, m).0;
            && (r'.h == r.h + [m.payload] <==> id in u.list && m.offset == |r.h| && |m.payload| <= LONGEST_REPLICATED)
            && (r'.h == r.h || r'.h == r.h + [m.payload])
  {
    hide RequestWire.Replicated;
    RequestWire.ReplicateArrivesExactly(u.topicId, u.partitionId, m.offset, m.payload);
    assert r.h != r.h + [m.payload];
  }

  lemma ReachedShort(u: Setup, id: BrokerId, r: Replica, m: Message)
    requires Short(r.h)
    ensures Short(Reached(u, id, r, m).0.h)
  {
    hide Reached;
    ReachExtendsExactly(u, id, r, m);
  }

  lemma StepKeepsShort(u: Setup, s: State, a: Action)
    requires LogsOk(u, s) && FollowersShort(u, s) && Enabled(u, s, a)
    ensures FollowersShort(u, Next(u, s, a))
  {
    hide Reached, Recovered, Produced, InStep, Short, Truthful, FileOf;
    match a
    case Ask(k, _, _) =>
      var id := s.calls[k].todo[0];
      if Dialled(u, id) {
        ReachedShort(u, id, s.replicas[id], s.calls[k].message);
      }
    case Deliver(at, m) => if at != u.leader { ReachedShort(u, at, s.replicas[at], m); }
    case Restart(at) =>
      if s.replicas[at].Reloads() {
        RestartKeepsRecords(s.replicas[at]);
      }
      NothingIsShort();
    case _ =>
  }

  lemma NothingIsShort()
    ensures Short([])
  {
  }

  lemma {:induction false} FollowersAlwaysShort(u: Setup, run: seq<State>, actions: seq<Action>, i: nat)
    requires IsRun(u, run, actions) && i < |run|
    ensures FollowersShort(u, run[i])
  {
    if i > 0 {
      hide LogsOk, Next, Enabled, Tame, FollowersShort;
      FollowersAlwaysShort(u, run, actions, i - 1);
      LogsAlwaysOk(u, run, actions, i - 1);
      StepKeepsShort(u, run[i - 1], actions[i - 1]);
    }
  }

  /** The leader never sends a record again, and a version 1 frame carries 239 payload bytes: no
      follower ever grows past the leader's first longer record. */
  lemma LongRecordStopsFollowers(u: Setup, run: seq<State>, actions: seq<Action>, i: nat, b: BrokerId, o: nat)
    requires IsRun(u, run, actions) && i < |run| && b in run[i].replicas && b != u.leader
    requires u.leader in run[i].replicas && o < |run[i].replicas[u.leader].h|
    requires |run[i].replicas[u.leader].h[o]| > LONGEST_REPLICATED
    ensures |run[i].replicas[b].h| <= o
  {
    hide IsRun;
    FollowersArePrefixes(u, run, actions, i, b);
    FollowersAlwaysShort(u, run, actions, i);
    ShortPrefix(run[i].replicas[b].h, run[i].replicas[u.leader].h, o);
  }

  lemma ShortPrefix(h: seq<Payload>, leader: seq<Payload>, o: nat)
    requires Short(h) && h <= leader && o < |leader| && |leader[o]| > LONGEST_REPLICATED
    ensures |h| <= o
  {
  }

  /** From that record on, no produce is acknowledged by anyone but the leader. */
  lemma LongRecordEndsAcks(u: Setup, run: seq<State>, actions: seq<Action>, i: nat, o: nat, k: nat)
    requires Distinct(u.list) && IsRun(u, run, actions) && i < |run|
    requires u.leader in run[i].replicas && o < |run[i].replicas[u.leader].h|
    requires |run[i].replicas[u.leader].h[o]| > LONGEST_REPLICATED
    requires k < |run[i].calls| && run[i].calls[k].message.offset >= o
    ensures run[i].calls[k].acked <= {u.leader} && run[i].calls[k].acks <= 1
  {
    hide IsRun;
    CallsAlwaysOk(u, run, actions, i);
    var c := run[i].calls[k];
    assert CallOk(u, c);
    forall id | id in c.acked ensures id == u.leader {
      var t := CountedAt(u, run, actions, i, k, id);
      LeaderGrows(u, run, actions, t, i);
      if id != u.leader {
        FollowersArePrefixes(u, run, actions, t, id);
        FollowersAlwaysShort(u, run, actions, t);
        ShortPrefix(run[t].replicas[id].h, run[i].replicas[u.leader].h, o);
        assert false;
      }
    }
    AtMostOne(c.acked, u.leader);
  }

  lemma AtMostOne(s: set<BrokerId>, x: BrokerId)
    requires s <= {x}
    ensures |s| <= 1
  {
    if s != {} {
      assert s == {x};
    }
  }

  // ---- Runs that leave the conditions

  /** A leader and one follower, both empty, the follower first in the replica list. */
  predicate Pair(u: Setup, f: BrokerId) {
    u.leader != f && u.list != [] && u.list[0] == f && f in u.known
  }

  function Both(u: Setup, f: BrokerId, inRange: bool): State {
    State(map[u.leader := Empty(inRange), f := Empty(true)], {}, [])
  }

  ghost predicate Histories(u: Setup, f: BrokerId, t: Option<State>, leader: seq<Payload>, follower: seq<Payload>) {
    && t.Some? && u.leader in t.value.replicas && f in t.value.replicas
    && t.value.replicas[u.leader].h == leader && t.value.replicas[f].h == follower
  }

  /** The state after these actions, if each is possible in its turn. */
  function After(u: Setup, s: State, actions: seq<Action>): Option<State>
    decreases |actions|
  {
    if actions == [] then Some(s)
    else if !Enabled(u, s, actions[0]) then None
    else After(u, Next(u, s, actions[0]), actions[1..])
  }

  lemma ShortArrives(u: Setup, m: Message)
    requires |m.payload| <= LONGEST_REPLICATED
    ensures Arrives(u, m)
  {
    RequestWire.ReplicateArrivesExactly(u.topicId, u.partitionId, m.offset, m.payload);
  }

  /** A retry that carries other bytes than the first attempt reaches a follower that lacks the
      offset: the two brokers hold different records there. */
  lemma RetryWithOtherBytesForks(u: Setup, f: BrokerId, x: Payload, y: Payload)
    requires Pair(u, f) && |x| <= Min(u.limit, U16_MAX) && |y| <= Min(u.limit, LONGEST_REPLICATED)
    ensures Histories(u, f, After(u, Both(u, f, true), [Produce(x), Retry(0, y), Ask(1, true, true)]), [x], [y])
  {
    hide RecordBytes, Arrives, After;
    var a1, a2, a3 := Produce(x), Retry(0, y), Ask(1, true, true);
    var s0 := Both(u, f, true);
    var s1 := Next(u, s0, a1);
    var s2 := Next(u, s1, a2);
    ShortArrives(u, Message(0, y));
    var s3 := Next(u, s2, a3);
    AfterThree(u, s0, a1, a2, a3);
    assert s3.replicas[f].h == [] + [y] && s3.replicas[u.leader].h == [] + [x];
  }

  lemma AfterThree(u: Setup, s: State, a: Action, b: Action, c: Action)
    requires Enabled(u, s, a) && Enabled(u, Next(u, s, a), b) && Enabled(u, Next(u, Next(u, s, a), b), c)
    ensures After(u, s, [a, b, c]) == Some(Next(u, Next(u, Next(u, s, a), b), c))
  {
    hide Enabled, Next;
    assert [a, b, c][1..] == [b, c] && [b, c][1..] == [c] && [c][1..] == [];
    assert After(u, Next(u, Next(u, s, a), b), [c]) == Some(Next(u, Next(u, Next(u, s, a), b), c));
  }

  /** A follower that restarts without reloading after it was counted: the call still counts it, and
      it holds nothing. */
  lemma AckerForgets(u: Setup, f: BrokerId, x: Payload)
    requires Pair(u, f) && |x| <= Min(u.limit, LONGEST_REPLICATED)
    ensures var t := After(u, Both(u, f, true), [Produce(x), Ask(0, true, true), Restart(f)]);
            && Histories(u, f, t, [x], [])
            && |t.value.calls| == 1 && t.value.calls[0].acks == 1 && t.value.calls[0].acked == {f}
  {
    hide RecordBytes, Arrives, After, Recovered;
    var a1, a2, a3 := Produce(x), Ask(0, true, true), Restart(f);
    var s0 := Both(u, f, true);
    var s1 := Next(u, s0, a1);
    ShortArrives(u, Message(0, x));
    var s2 := Next(u, s1, a2);
    var s3 := Next(u, s2, a3);
    AfterThree(u, s0, a1, a2, a3);
    assert s3.replicas[u.leader].h == [] + [x];
  }

  /** A leader that restarts without reloading: the follower is ahead of it. */
  lemma LeaderForgets(u: Setup, f: BrokerId, x: Payload)
    requires Pair(u, f) && |x| <= Min(u.limit, LONGEST_REPLICATED)
    ensures Histories(u, f, After(u, Both(u, f, false), [Produce(x), Ask(0, true, true), Restart(u.leader)]), [], [x])
  {
    hide RecordBytes, Arrives, After, Recovered;
    var a1, a2, a3 := Produce(x), Ask(0, true, true), Restart(u.leader);
    var s0 := Both(u, f, false);
    var s1 := Next(u, s0, a1);
    ShortArrives(u, Message(0, x));
    var s2 := Next(u, s1, a2);
    var s3 := Next(u, s2, a3);
    AfterThree(u, s0, a1, a2, a3);
    assert s3.replicas[f].h == [] + [x];
  }

  /** At the level of one broker: a follower whose topic is not listed forgets its log at a
      restart, takes offset 0 again, and after being listed reloads a history with the first
      record twice. */
  lemma LossyRestartForks(x: Payload, y: Payload)
    requires |x| <= U16_MAX && |y| <= U16_MAX
    ensures var r0 := Replica([x, y], FileOf([x, y]), false, true);
            var r1 := Restarted(r0);
            var (r2, ok) := Applied(r1, true, 0, x);
            var r3 := Restarted(r2.(listed := true));
            r1.h == [] && ok.Ok? && r2.h == [x] && r3.h == [x, y, x]
  {
    var more := RecordBytes(Record(0, x));
    RecoveredWholeRecords([x, y], more);
    RecoveredOne(Record(0, x), []);
    assert more + [] == more;
  }

  lemma AfterFour(u: Setup, s: State, a: Action, b: Action, c: Action, d: Action)
    requires Enabled(u, s, a) && Enabled(u, Next(u, s, a), b) && Enabled(u, Next(u, Next(u, s, a), b), c)
    requires Enabled(u, Next(u, Next(u, Next(u, s, a), b), c), d)
    ensures After(u, s, [a, b, c, d]) == Some(Next(u, Next(u, Next(u, Next(u, s, a), b), c), d))
  {
    hide Enabled, Next;
    assert [a, b, c, d][1..] == [b, c, d];
    AfterThree(u, Next(u, s, a), b, c, d);
  }

  lemma {:induction false} AfterAppend(u: Setup, s: State, xs: seq<Action>, ys: seq<Action>)
    requires After(u, s, xs).Some?
    ensures After(u, s, xs + ys) == After(u, After(u, s, xs).value, ys)
    decreases |xs|
  {
    hide Enabled, Next;
    if xs == [] {
      assert xs + ys == ys;
    } else {
      AfterAppend(u, Next(u, s, xs[0]), xs[1..], ys);
      assert (xs + ys)[1..] == xs[1..] + ys;
    }
  }

  /** Two records replicated to a follower that was never listed. */
  predicate Copied(u: Setup, f: BrokerId, t: State, x: Payload, y: Payload) {
    && u.leader in t.replicas && t.replicas[u.leader].h == [x, y]
    && f in t.replicas && t.replicas[f] == Replica([x, y], FileOf([x, y]), false, true)
    && Message(0, x) in t.sent
  }

  lemma TwoReplicated(u: Setup, f: BrokerId, x: Payload, y: Payload)
    requires Pair(u, f) && |x| <= Min(u.limit, LONGEST_REPLICATED) && |y| <= Min(u.limit, LONGEST_REPLICATED)
    ensures var t := After(u, Both(u, f, true), [Produce(x), Produce(y), Ask(0, true, true), Ask(1, true, true)]);
            t.Some? && Copied(u, f, t.value, x, y)
  {
    hide RecordBytes, Arrives, After, FileOf;
    var a1, a2, a3, a4 := Produce(x), Produce(y), Ask(0, true, true), Ask(1, true, true);
    var s0 := Both(u, f, true);
    var s1 := Next(u, s0, a1);
    var s2 := Next(u, s1, a2);
    ShortArrives(u, Message(0, x));
    ShortArrives(u, Message(1, y));
    assert s2.replicas[u.leader].h == [x, y] && s2.replicas[f] == Empty(true);
    assert s2.calls == [Opened(u, Message(0, x)), Opened(u, Message(1, y))];
    var s3 := Next(u, s2, a3);
    assert s3.replicas[f].h == [x] && s3.replicas[f].file == RecordBytes(Record(0, x));
    var s4 := Next(u, s3, a4);
    AfterFour(u, s0, a1, a2, a3, a4);
    FileOfTwo(x, y);
  }

  lemma FileOfTwo(x: Payload, y: Payload)
    ensures FileOf([x, y]) == RecordBytes(Record(0, x)) + RecordBytes(Record(1, y))
  {
    FileOfSnoc([], x);
    FileOfSnoc([x], y);
    assert [] + [x] == [x] && [x] + [y] == [x, y];
    assert [] + RecordBytes(Record(0, x)) == RecordBytes(Record(0, x));
  }

  lemma RegisteredTooLate(u: Setup, f: BrokerId, s: State, x: Payload, y: Payload)
    requires Pair(u, f) && |x| <= LONGEST_REPLICATED && |y| <= U16_MAX && Copied(u, f, s, x, y)
    ensures Histories(u, f, After(u, s, [Restart(f), Deliver(f, Message(0, x)), Register(f), Restart(f)]), [x, y],
        [x, y, x])
  {
    hide RecordBytes, Arrives, After, FileOf, Recovered;
    var a1, a2, a3, a4 := Restart(f), Deliver(f, Message(0, x)), Register(f), Restart(f);
    LossyRestartForks(x, y);
    ShortArrives(u, Message(0, x));
    var s1 := Next(u, s, a1);
    var s2 := Next(u, s1, a2);
    var s3 := Next(u, s2, a3);
    var s4 := Next(u, s3, a4);
    AfterFour(u, s, a1, a2, a3, a4);
  }

  /** Listing a follower after it forgot its log: the next restart reloads a history that is no
      prefix of the leader's. */
  lemma RegisterAfterLossForks(u: Setup, f: BrokerId, x: Payload, y: Payload)
    requires Pair(u, f) && |x| <= Min(u.limit, LONGEST_REPLICATED) && |y| <= Min(u.limit, LONGEST_REPLICATED)
    ensures Histories(u, f,
              After(u, Both(u, f, true),
                [Produce(x), Produce(y), Ask(0, true, true), Ask(1, true, true)]
                + [Restart(f), Deliver(f, Message(0, x)), Register(f), Restart(f)]),
              [x, y], [x, y, x])
  {
    hide After, Copied;
    TwoReplicated(u, f, x, y);
    var first := [Produce(x), Produce(y), Ask(0, true, true), Ask(1, true, true)];
    RegisteredTooLate(u, f, After(u, Both(u, f, true), first).value, x, y);
    AfterAppend(u, Both(u, f, true), first, [Restart(f), Deliver(f, Message(0, x)), Register(f), Restart(f)]);
  }
}
