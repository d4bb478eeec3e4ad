/** The membership view: what gossip, suspicion timeouts and eviction do to the known members. */
module Membership {
  import opened Arithmetic
  import opened Bytes

  const U64_MAX: nat := 0xFFFF_FFFF_FFFF_FFFF

  type Id = U64

  datatype Member = Member(id: Id, name: string, addr: nat, discoveryAddr: nat, birthdate: U64)

  datatype MemberState = Alive | Suspect | Dead

  datatype MemberEntry = MemberEntry(member: Member, state: MemberState, incarnation: nat, deadline: U64)

  datatype Event =
    | AliveEvent(id: Id, name: string, addr: nat, discoveryAddr: nat, birthdate: U64, incarnation: nat)
    | SuspectEvent(id: Id, incarnation: nat, from: Id)
    | DeadEvent(id: Id, incarnation: nat, from: Id)
    | LeaveEvent(id: Id, incarnation: nat)

  datatype ApplyOutcome = Ignored | NewMember | Updated | SelfRefutationNeeded

  /** The view without the order that is kept beside it. */
  datatype View = View(byId: map<Id, MemberEntry>, localId: Id, localIncarnation: nat)

  function SaturatingAdd(a: U64, b: U64): U64 {
    if a + b > U64_MAX then U64_MAX else a + b
  }

  // ---- applying events ----

  function Known(e: Event): MemberEntry
    requires e.AliveEvent?
  {
    MemberEntry(Member(e.id, e.name, e.addr, e.discoveryAddr, e.birthdate), Alive, e.incarnation, 0)
  }

  function ApplyAlive(v: View, e: Event): (View, ApplyOutcome)
    requires e.AliveEvent?
  {
    if e.id == v.localId then (v, Ignored)
    else if e.id !in v.byId then (v.(byId := v.byId[e.id := Known(e)]), NewMember)
    else
      var was := v.byId[e.id];
      if e.incarnation < was.incarnation then (v, Ignored)
      else if e.incarnation == was.incarnation && was.state != Suspect then (v, Ignored)
      else (v.(byId := v.byId[e.id := Known(e)]), Updated)
  }

  function ApplySuspect(v: View, id: Id, incarnation: nat, now: U64, timeout: U64): (View, ApplyOutcome) {
    if id == v.localId then (v, SelfRefutationNeeded)
    else if id !in v.byId then (v, Ignored)
    else
      var was := v.byId[id];
      if incarnation < was.incarnation then (v, Ignored)
      else if incarnation == was.incarnation && was.state != Alive then (v, Ignored)
      else
        var entry := was.(state := Suspect, incarnation := incarnation, deadline := SaturatingAdd(now, timeout));
        (v.(byId := v.byId[id := entry]), Updated)
  }

  function ApplyDead(v: View, id: Id, incarnation: nat): (View, ApplyOutcome) {
    if id == v.localId then (v, SelfRefutationNeeded)
    else if id !in v.byId then (v, Ignored)
    else
      var was := v.byId[id];
      if incarnation < was.incarnation then (v, Ignored)
      else if incarnation == was.incarnation && was.state == Dead then (v, Ignored)
      else (v.(byId := v.byId[id := was.(state := Dead, incarnation := incarnation, deadline := 0)]), Updated)
  }

  function Apply(v: View, e: Event, now: U64, timeout: U64): (View, ApplyOutcome) {
    match e
    case AliveEvent(_, _, _, _, _, _) => ApplyAlive(v, e)
    case SuspectEvent(id, incarnation, _) => ApplySuspect(v, id, incarnation, now, timeout)
    case DeadEvent(id, incarnation, _) => ApplyDead(v, id, incarnation)
    case LeaveEvent(id, incarnation) => ApplyDead(v, id, incarnation)
  }

  // ---- timeouts and eviction ----

  predicate Overdue(e: MemberEntry, now: U64) {
    e.state == Suspect && e.deadline <= now
  }

  function Reaped(v: View, now: U64): View {
    v.(byId := map id | id in v.byId :: if Overdue(v.byId[id], now) then v.byId[id].(state := Dead) else v.byId[id])
  }

  predicate Evictable(e: MemberEntry, olderThan: U64, now: U64) {
    e.state == Dead && e.deadline != 0 && SaturatingSub(now, e.deadline) >= olderThan
  }

  function Evicted(v: View, olderThan: U64, now: U64): View {
    v.(byId := map id | id in v.byId && !Evictable(v.byId[id], olderThan, now) :: v.byId[id])
  }

  function Bumped(v: View): View {
    var inc := v.localIncarnation + 1;
    var byId := if v.localId !in v.byId then v.byId
                else v.byId[v.localId := v.byId[v.localId].(incarnation := inc, state := Alive, deadline := 0)];
    v.(byId := byId, localIncarnation := inc)
  }

  // ---- order ----

  /** Members are ordered by birthdate, then by id. */
  predicate Before(byId: map<Id, MemberEntry>, a: Id, b: Id)
    requires a in byId && b in byId
  {
    var x, y := byId[a].member.birthdate, byId[b].member.birthdate;
    x < y || (x == y && a < b)
  }

  /** The list holds exactly the ids of `keys`, each once, in order. */
  ghost predicate Ordered(byId: map<Id, MemberEntry>, keys: set<Id>, sorted: seq<Id>) {
    && keys <= byId.Keys
    && (forall i | 0 <= i < |sorted| :: sorted[i] in keys)
    && (forall id | id in keys :: id in sorted)
    && (forall i, j | 0 <= i < j < |sorted| ::
          sorted[i] in byId && sorted[j] in byId && Before(byId, sorted[i], sorted[j]))
  }

  // ---- invariants of every run ----

  predicate LocalAlive(v: View) {
    v.localId in v.byId && v.byId[v.localId].state == Alive && v.byId[v.localId].incarnation == v.localIncarnation
  }

  predicate Keyed(v: View) {
    forall id | id in v.byId :: v.byId[id].member.id == id
  }

  datatype Op =
    | Gossip(event: Event, now: U64, timeout: U64)
    | Reap(now: U64)
    | Evict(olderThan: U64, now: U64)
    | Bump

  function Step(v: View, op: Op): View {
    match op
    case Gossip(e, now, timeout) => Apply(v, e, now, timeout).0
    case Reap(now) => Reaped(v, now)
    case Evict(olderThan, now) => Evicted(v, olderThan, now)
    case Bump => Bumped(v)
  }

  function Run(v: View, ops: seq<Op>): View {
    if ops == [] then v else Step(Run(v, ops[..|ops| - 1]), ops[|ops| - 1])
  }

  function Bootstrap(local: Member): View {
    View(map[local.id := MemberEntry(local, Alive, 1, 0)], local.id, 1)
  }

  lemma {:induction false} LocalStaysAlive(v: View, ops: seq<Op>)
    requires LocalAlive(v) && Keyed(v)
    ensures LocalAlive(Run(v, ops)) && Keyed(Run(v, ops)) && Run(v, ops).localId == v.localId
  {
    if ops != [] {
      LocalStaysAlive(v, ops[..|ops| - 1]);
    }
  }

  // ---- incarnation and death as a join ----

  /** Ordered first by incarnation, then by death. */
  datatype Rank = Rank(incarnation: nat, dead: bool)

  predicate Leq(a: Rank, b: Rank) {
    a.incarnation < b.incarnation || (a.incarnation == b.incarnation && (a.dead ==> b.dead))
  }

  function Join(a: Rank, b: Rank): Rank {
    if Leq(a, b) then b else a
  }

  function RankOf(v: View, id: Id): Rank
    requires id in v.byId
  {
    Rank(v.byId[id].incarnation, v.byId[id].state == Dead)
  }

  function EventRank(e: Event): Rank {
    Rank(e.incarnation, e.DeadEvent? || e.LeaveEvent?)
  }

  /** The join of what an entry had with every event about it. */
  function Joined(start: Rank, events: seq<Event>, id: Id): Rank {
    if events == [] then start
    else
      var before, e := Joined(start, events[..|events| - 1], id), events[|events| - 1];
      if e.id == id then Join(before, EventRank(e)) else before
  }

  /** Gossip only, each event with its arrival time and suspicion timeout. */
  predicate GossipOnly(ops: seq<Op>) {
    forall i | 0 <= i < |ops| :: ops[i].Gossip?
  }

  function Events(ops: seq<Op>): (es: seq<Event>)
    requires GossipOnly(ops)
    ensures |es| == |ops|
  {
    seq(|ops|, i requires 0 <= i < |ops| => ops[i].event)
  }

  lemma {:induction false} ApplyJoins(v: View, op: Op, id: Id)
    requires op.Gossip? && id in v.byId && id != v.localId
    ensures id in Step(v, op).byId && Step(v, op).localId == v.localId
    ensures RankOf(Step(v, op), id)
         == if op.event.id == id then Join(RankOf(v, id), EventRank(op.event)) else RankOf(v, id)
  {
  }

  /** A known member's rank is the join of the events applied, whatever their times. */
  lemma {:induction false} GossipIsJoin(v: View, ops: seq<Op>, id: Id)
    requires GossipOnly(ops) && id in v.byId && id != v.localId
    ensures id in Run(v, ops).byId && Run(v, ops).localId == v.localId
    ensures RankOf(Run(v, ops), id) == Joined(RankOf(v, id), Events(ops), id)
  {
    if ops != [] {
      var init := ops[..|ops| - 1];
      GossipIsJoin(v, init, id);
      ApplyJoins(Run(v, init), ops[|ops| - 1], id);
      assert Events(ops)[..|ops| - 1] == Events(init);
    }
  }

  /** The join is an upper bound of its parts and one of them. */
  lemma {:induction false} JoinedIsMaximum(start: Rank, events: seq<Event>, id: Id)
    ensures var r := Joined(start, events, id);
      && Leq(start, r)
      && (forall e | e in events && e.id == id :: Leq(EventRank(e), r))
      && (r == start || exists e | e in events && e.id == id :: r == EventRank(e))
  {
    if events != [] {
      var init, last := events[..|events| - 1], events[|events| - 1];
      JoinedIsMaximum(start, init, id);
      assert forall e | e in events :: e in init || e == last;
      assert forall e | e in init :: e in events;
      assert last in events;
    }
  }

  /** Any order and any repetition of the same events leave a known member at the same rank. */
  lemma {:induction false} GossipOrderFree(v: View, ops: seq<Op>, other: seq<Op>, id: Id)
    requires GossipOnly(ops) && GossipOnly(other) && id in v.byId && id != v.localId
    requires forall e :: e in Events(ops) <==> e in Events(other)
    ensures id in Run(v, ops).byId && id in Run(v, other).byId
    ensures RankOf(Run(v, ops), id) == RankOf(Run(v, other), id)
  {
    GossipIsJoin(v, ops, id);
    GossipIsJoin(v, other, id);
    JoinedIsMaximum(RankOf(v, id), Events(ops), id);
    JoinedIsMaximum(RankOf(v, id), Events(other), id);
  }

  /** Without eviction a member is never forgotten and its rank never falls. */
  lemma {:induction false} RankNeverFalls(v: View, ops: seq<Op>, id: Id)
    requires LocalAlive(v) && Keyed(v) && id in v.byId && (forall i | 0 <= i < |ops| :: !ops[i].Evict?)
    ensures id in Run(v, ops).byId && Leq(RankOf(v, id), RankOf(Run(v, ops), id))
  {
    if ops != [] {
      var init, op := ops[..|ops| - 1], ops[|ops| - 1];
      RankNeverFalls(v, init, id);
      LocalStaysAlive(v, init);
      var m := Run(v, init);
      if op.Gossip? && id != m.localId {
        ApplyJoins(m, op, id);
      }
    }
  }

  /** Death is left only at a strictly higher incarnation. */
  lemma {:induction false} DeadLeftOnlyUpward(v: View, ops: seq<Op>, id: Id)
    requires LocalAlive(v) && Keyed(v) && id in v.byId && (forall i | 0 <= i < |ops| :: !ops[i].Evict?)
    requires v.byId[id].state == Dead && id in Run(v, ops).byId && Run(v, ops).byId[id].state != Dead
    ensures Run(v, ops).byId[id].incarnation > v.byId[id].incarnation
  {
    RankNeverFalls(v, ops, id);
  }

  /** An entry declared dead by gossip carries no deadline, so no eviction ever removes it. */
  lemma {:induction false} DeclaredDeadIsNeverEvicted(v: View, ops: seq<Op>, id: Id)
    requires id != v.localId && id in v.byId && v.byId[id].state == Dead && v.byId[id].deadline == 0
    requires forall i | 0 <= i < |ops| && ops[i].Gossip? ::
      ops[i].event.id == id ==> ops[i].event.incarnation <= v.byId[id].incarnation
    ensures Run(v, ops).localId == v.localId
    ensures id in Run(v, ops).byId && Run(v, ops).byId[id] == v.byId[id]
  {
    if ops != [] {
      DeclaredDeadIsNeverEvicted(v, ops[..|ops| - 1], id);
    }
  }

  /** Before the first Alive event a member's death is not recorded, so the order matters. */
  lemma {:induction false} UnknownMemberOrderMatters(v: View, alive: Event, from: Id, now: U64, timeout: U64)
    requires alive.AliveEvent? && alive.id !in v.byId && alive.id != v.localId
    ensures var dead := DeadEvent(alive.id, alive.incarnation, from);
      var early := Run(v, [Gossip(dead, now, timeout), Gossip(alive, now, timeout)]);
      var late := Run(v, [Gossip(alive, now, timeout), Gossip(dead, now, timeout)]);
      && alive.id in early.byId && early.byId[alive.id].state == Alive
      && alive.id in late.byId && late.byId[alive.id].state == Dead
  {
    var a, d := Gossip(alive, now, timeout), Gossip(DeadEvent(alive.id, alive.incarnation, from), now, timeout);
    RunTwo(v, d, a);
    RunTwo(v, a, d);
  }

  lemma {:induction false} RunTwo(v: View, a: Op, b: Op)
    ensures Run(v, [a, b]) == Step(Step(v, a), b)
  {
    assert [a, b][..1] == [a] && [a][..0] == [];
    assert Run(v, []) == v && Run(v, [a]) == Step(v, a);
  }

  /** Alive and Suspect override each other at the same incarnation: the later event wins. */
  lemma {:induction false} AliveAndSuspectOverride(v: View, alive: Event, from: Id, now: U64, timeout: U64)
    requires alive.AliveEvent? && alive.id in v.byId && alive.id != v.localId
    requires v.byId[alive.id].incarnation < alive.incarnation
    ensures var suspect := SuspectEvent(alive.id, alive.incarnation, from);
      var sa := Run(v, [Gossip(suspect, now, timeout), Gossip(alive, now, timeout)]);
      var as' := Run(v, [Gossip(alive, now, timeout), Gossip(suspect, now, timeout)]);
      && alive.id in sa.byId && sa.byId[alive.id].state == Alive
      && alive.id in as'.byId && as'.byId[alive.id].state == Suspect
  {
    var a, s := Gossip(alive, now, timeout), Gossip(SuspectEvent(alive.id, alive.incarnation, from), now, timeout);
    RunTwo(v, s, a);
    RunTwo(v, a, s);
  }

  // ---- what single events and timeouts do ----

  /** The view knows the member, and it is another one. */
  predicate KnownOther(v: View, id: Id) {
    id in v.byId && id != v.localId
  }

  /** An Alive event that is taken stores exactly what it says; one that is not changes nothing. */
  lemma {:induction false} AliveEventMeaning(v: View, e: Event, now: U64, timeout: U64)
    requires e.AliveEvent?
    ensures var (w, outcome) := Apply(v, e, now, timeout);
      var isNew := e.id != v.localId && e.id !in v.byId;
      var newer := KnownOther(v, e.id) &&
        (e.incarnation > v.byId[e.id].incarnation
         || (e.incarnation == v.byId[e.id].incarnation && v.byId[e.id].state == Suspect));
      && outcome == (if isNew then NewMember else if newer then Updated else Ignored)
      && (isNew || newer ==>
            w == v.(byId := v.byId[e.id := MemberEntry(
              Member(e.id, e.name, e.addr, e.discoveryAddr, e.birthdate), Alive, e.incarnation, 0)]))
      && (!isNew && !newer ==> w == v)
  {
  }

  /** Bad news about the local member changes nothing but asks for a refutation; other members are told apart. */
  lemma {:induction false} BadNewsAboutSelf(v: View, e: Event, now: U64, timeout: U64)
    requires !e.AliveEvent?
    ensures Apply(v, e, now, timeout) == (v, SelfRefutationNeeded) <==> e.id == v.localId
    ensures e.id !in v.byId && e.id != v.localId ==> Apply(v, e, now, timeout) == (v, Ignored)
  {
  }

  function Least(a: nat, b: nat): nat {
    if a < b then a else b
  }

  /**
   A live member that is suspected at `now` is dead after a reap at `t` exactly when the timeout has
   passed by then, and an eviction at `u` then forgets it exactly when it has been overdue for long enough.
   */
  lemma {:induction false} SuspicionTimeline(
    v: View, id: Id, incarnation: nat, from: Id, now: U64, timeout: U64, t: U64, olderThan: U64, u: U64)
    requires KnownOther(v, id) && v.byId[id].state == Alive && incarnation >= v.byId[id].incarnation
    ensures var deadline := Least(now + timeout, U64_MAX);
      var suspected := Step(v, Gossip(SuspectEvent(id, incarnation, from), now, timeout));
      var reaped := Step(suspected, Reap(t));
      var evicted := Step(reaped, Evict(olderThan, u));
      && id in suspected.byId
      && suspected.byId[id] == MemberEntry(v.byId[id].member, Suspect, incarnation, deadline)
      && id in reaped.byId
      && reaped.byId[id]
         == MemberEntry(v.byId[id].member, if deadline <= t then Dead else Suspect, incarnation, deadline)
      && (id !in evicted.byId <==> deadline <= t && deadline > 0 && (deadline + olderThan <= u || olderThan == 0))
  {
  }

  /** An Alive event refutes a suspicion at its incarnation or above, and a death only above it. */
  lemma {:induction false} RefutationIff(v: View, e: Event, now: U64, timeout: U64)
    requires e.AliveEvent? && KnownOther(v, e.id) && v.byId[e.id].state != Alive
    ensures var was, w := v.byId[e.id], Apply(v, e, now, timeout).0;
      e.id in w.byId &&
      (w.byId[e.id].state == Alive <==>
         e.incarnation > was.incarnation || (e.incarnation == was.incarnation && was.state == Suspect))
  {
  }

  /** Death and leave alike are taken from the known incarnation on, once. */
  lemma {:induction false} DeathIff(v: View, e: Event, now: U64, timeout: U64)
    requires (e.DeadEvent? || e.LeaveEvent?) && KnownOther(v, e.id)
    ensures var was, (w, outcome) := v.byId[e.id], Apply(v, e, now, timeout);
      if e.incarnation > was.incarnation || (e.incarnation == was.incarnation && was.state != Dead) then
        && outcome == Updated
        && w == v.(byId := v.byId[e.id := MemberEntry(was.member, Dead, e.incarnation, 0)])
      else w == v && outcome == Ignored
  {
  }
}
