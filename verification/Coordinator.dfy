/** The order kept beside the view, the snapshot taken from it, and the choice of coordinator. */
module Coordinator {
  import opened Bytes
  import opened Membership

  /** A member as a snapshot shows it. */
  datatype Listed = Listed(member: Member, isCoordinator: bool)

  predicate Live(byId: map<Id, MemberEntry>, id: Id) {
    id in byId && byId[id].state != Dead
  }

  /** The live members in order; the flag goes by the position among all known members. */
  function Snapshot(byId: map<Id, MemberEntry>, sorted: seq<Id>): seq<Listed> {
    if sorted == [] then []
    else
      var n := |sorted| - 1;
      var before := Snapshot(byId, sorted[..n]);
      if Live(byId, sorted[n]) then before + [Listed(byId[sorted[n]].member, n == 0)] else before
  }

  /** The least live id of the list. */
  ghost predicate IsLeastLive(byId: map<Id, MemberEntry>, keys: set<Id>, id: Id) {
    && id in keys && Live(byId, id)
    && forall other | other in keys && Live(byId, other) && other != id :: Before(byId, id, other)
  }

  /** A snapshot starts with the least live member, and with nothing if no member is live. */
  lemma {:induction false} SnapshotStartsLeast(byId: map<Id, MemberEntry>, sorted: seq<Id>)
    requires forall i | 0 <= i < |sorted| :: sorted[i] in byId && byId[sorted[i]].member.id == sorted[i]
    requires forall i, j | 0 <= i < j < |sorted| :: Before(byId, sorted[i], sorted[j])
    ensures Snapshot(byId, sorted) == [] <==> forall i | 0 <= i < |sorted| :: !Live(byId, sorted[i])
    ensures Snapshot(byId, sorted) != [] ==>
      IsLeastLive(byId, set i | 0 <= i < |sorted| :: sorted[i], Snapshot(byId, sorted)[0].member.id)
  {
    if sorted != [] {
      var n := |sorted| - 1;
      SnapshotStartsLeast(byId, sorted[..n]);
      assert forall i | 0 <= i < n :: sorted[..n][i] == sorted[i];
      if Snapshot(byId, sorted[..n]) != [] {
        var first := Snapshot(byId, sorted[..n])[0].member.id;
        var i :| 0 <= i < n && sorted[..n][i] == first;
        assert sorted[i] == first;
      }
    }
  }

  /** Ordered by birthdate, then by id. */
  predicate Older(a: Member, b: Member) {
    a.birthdate < b.birthdate || (a.birthdate == b.birthdate && a.id < b.id)
  }

  function LiveIds(byId: map<Id, MemberEntry>): set<Id> {
    set id | id in byId && byId[id].state != Dead
  }

  function LiveAmong(byId: map<Id, MemberEntry>, ids: seq<Id>): set<Id> {
    set id | id in ids && id in byId && byId[id].state != Dead
  }

  /** The members listed are the stored ones of `ids`, each once, oldest first. */
  ghost predicate Lists(byId: map<Id, MemberEntry>, ids: set<Id>, members: seq<Listed>) {
    && |members| == |ids|
    && (forall i | 0 <= i < |members| ::
          members[i].member.id in ids && members[i].member.id in byId
          && byId[members[i].member.id].member == members[i].member)
    && (forall id | id in ids :: exists i | 0 <= i < |members| :: members[i].member.id == id)
    && (forall i, j | 0 <= i < j < |members| :: Older(members[i].member, members[j].member))
  }

  lemma {:induction false} ListsOneMore(byId: map<Id, MemberEntry>, ids: set<Id>, members: seq<Listed>, m: Listed)
    requires Lists(byId, ids, members) && m.member.id in byId && byId[m.member.id].member == m.member
    requires forall id | id in ids && id in byId :: Older(byId[id].member, m.member)
    ensures Lists(byId, ids + {m.member.id}, members + [m])
  {
    var id, more := m.member.id, members + [m];
    assert id !in ids;
    assert |ids + {id}| == |ids| + 1;
    forall x | x in ids + {id} ensures exists i | 0 <= i < |more| :: more[i].member.id == x {
      StillListed(byId, ids, members, m, x);
    }
    forall i, j | 0 <= i < j < |more| ensures Older(more[i].member, more[j].member) {
      if j == |members| {
        assert more[i] == members[i];
      }
    }
  }

  lemma {:induction false} StillListed(
    byId: map<Id, MemberEntry>, ids: set<Id>, members: seq<Listed>, m: Listed, x: Id)
    requires Lists(byId, ids, members) && (x in ids || x == m.member.id)
    ensures exists i | 0 <= i < |members + [m]| :: (members + [m])[i].member.id == x
  {
    var more := members + [m];
    if x in ids {
      var i :| 0 <= i < |members| && members[i].member.id == x;
      assert more[i].member.id == x;
    } else {
      assert more[|members|].member.id == x;
    }
  }

  lemma {:induction false} SnapshotListsPrefix(byId: map<Id, MemberEntry>, sorted: seq<Id>)
    requires forall i | 0 <= i < |sorted| :: sorted[i] in byId && byId[sorted[i]].member.id == sorted[i]
    requires forall i, j | 0 <= i < j < |sorted| :: Before(byId, sorted[i], sorted[j])
    ensures Lists(byId, LiveAmong(byId, sorted), Snapshot(byId, sorted))
  {
    if sorted != [] {
      var n := |sorted| - 1;
      var init, last := sorted[..n], sorted[n];
      SnapshotListsPrefix(byId, init);
      var before, all := LiveAmong(byId, init), LiveAmong(byId, sorted);
      assert forall id | id in sorted :: id in init || id == last;
      if byId[last].state != Dead {
        assert all == before + {last};
        forall id | id in before && id in byId ensures Older(byId[id].member, byId[last].member) {
          var i :| 0 <= i < |init| && init[i] == id;
          assert Before(byId, sorted[i], sorted[n]);
        }
        ListsOneMore(byId, before, Snapshot(byId, init), Listed(byId[last].member, n == 0));
      } else {
        assert all == before;
      }
    }
  }

  /** In a valid view a snapshot lists exactly the members that are not dead, each once, oldest first. */
  lemma {:induction false} SnapshotListsLive(v: View, sorted: seq<Id>)
    requires Valid(v, sorted)
    ensures Lists(v.byId, LiveIds(v.byId), Snapshot(v.byId, sorted))
  {
    SnapshotListsPrefix(v.byId, sorted);
    assert LiveIds(v.byId) == LiveAmong(v.byId, sorted);
  }

  /** Flags: only the first of the snapshot can carry one, and it does unless the oldest known member is dead. */
  lemma {:induction false} CoordinatorFlag(byId: map<Id, MemberEntry>, sorted: seq<Id>)
    requires forall i | 0 <= i < |sorted| :: sorted[i] in byId
    ensures var s := Snapshot(byId, sorted);
      && (forall i | 1 <= i < |s| :: !s[i].isCoordinator)
      && (s != [] ==> (s[0].isCoordinator <==> Live(byId, sorted[0])))
  {
    if sorted != [] {
      var n := |sorted| - 1;
      CoordinatorFlag(byId, sorted[..n]);
      if n > 0 && Live(byId, sorted[0]) {
        FirstLiveListed(byId, sorted[..n]);
      }
    }
  }

  lemma {:induction false} FirstLiveListed(byId: map<Id, MemberEntry>, sorted: seq<Id>)
    requires sorted != [] && Live(byId, sorted[0])
    ensures Snapshot(byId, sorted) != []
  {
    if |sorted| > 1 {
      FirstLiveListed(byId, sorted[..|sorted| - 1]);
    }
  }

  ghost predicate Valid(v: View, sorted: seq<Id>) {
    Ordered(v.byId, v.byId.Keys, sorted) && LocalAlive(v) && Keyed(v)
  }

  /** In a valid view the snapshot starts with the least live member of all. */
  lemma {:induction false} CoordinatorIsLeastLive(v: View, sorted: seq<Id>)
    requires Valid(v, sorted)
    ensures Snapshot(v.byId, sorted) != []
    ensures IsLeastLive(v.byId, v.byId.Keys, Snapshot(v.byId, sorted)[0].member.id)
  {
    SnapshotStartsLeast(v.byId, sorted);
    var keys := set i | 0 <= i < |sorted| :: sorted[i];
    assert v.localId in sorted;
    assert keys == v.byId.Keys;
  }

  /** Two views with the same live members and birthdates choose the same coordinator. */
  lemma {:induction false} SameLiveSameCoordinator(v: View, sorted: seq<Id>, w: View, sorted': seq<Id>)
    requires Valid(v, sorted) && Valid(w, sorted')
    requires forall id :: Live(v.byId, id) <==> Live(w.byId, id)
    requires forall id | Live(v.byId, id) && Live(w.byId, id) ::
      v.byId[id].member.birthdate == w.byId[id].member.birthdate
    ensures Snapshot(v.byId, sorted) != [] && Snapshot(w.byId, sorted') != []
    ensures Snapshot(v.byId, sorted)[0].member.id == Snapshot(w.byId, sorted')[0].member.id
  {
    CoordinatorIsLeastLive(v, sorted);
    CoordinatorIsLeastLive(w, sorted');
    var a, b := Snapshot(v.byId, sorted)[0].member.id, Snapshot(w.byId, sorted')[0].member.id;
    assert Live(v.byId, b) && Live(w.byId, a);
  }

  /** The same ids with the same birthdates stay in order. */
  lemma {:induction false} OrderUnchanged(
    byId: map<Id, MemberEntry>, byId': map<Id, MemberEntry>, sorted: seq<Id>)
    requires Ordered(byId, byId.Keys, sorted) && byId'.Keys == byId.Keys
    requires forall id | id in byId :: byId'[id].member == byId[id].member
    ensures Ordered(byId', byId'.Keys, sorted)
  {
    forall i, j | 0 <= i < j < |sorted|
      ensures sorted[i] in byId' && sorted[j] in byId' && Before(byId', sorted[i], sorted[j])
    {
      assert Before(byId, sorted[i], sorted[j]);
    }
  }

  // ---- the view as it is updated in place ----

  method Insert(byId: map<Id, MemberEntry>, ghost keys: set<Id>, sorted: seq<Id>, id: Id) returns (r: seq<Id>)
    requires Ordered(byId, keys, sorted) && id in byId && id !in keys
    ensures Ordered(byId, keys + {id}, r)
  {
    var i := 0;
    while i < |sorted| && Before(byId, sorted[i], id)
      invariant i <= |sorted|
      invariant forall k | 0 <= k < i :: Before(byId, sorted[k], id)
    {
      i := i + 1;
    }
    r := InsertedAt(sorted, i, id);
    forall k | i <= k < |sorted| ensures Before(byId, id, sorted[k]) {
      if i < k {
        assert Before(byId, sorted[i], sorted[k]);
      }
    }
    Inserted(byId, keys, sorted, id, i);
  }

  function InsertedAt(sorted: seq<Id>, i: nat, id: Id): (r: seq<Id>)
    requires i <= |sorted|
    ensures |r| == |sorted| + 1 && r[i] == id
    ensures forall x | 0 <= x < i :: r[x] == sorted[x]
    ensures forall x | i < x < |r| :: r[x] == sorted[x - 1]
  {
    sorted[..i] + [id] + sorted[i..]
  }

  lemma {:induction false} InsertedHolds(sorted: seq<Id>, i: nat, id: Id, k: Id)
    requires i <= |sorted|
    ensures k in InsertedAt(sorted, i, id) <==> k == id || k in sorted
  {
    var r := InsertedAt(sorted, i, id);
    if k in sorted {
      var x :| 0 <= x < |sorted| && sorted[x] == k;
      assert r[if x < i then x else x + 1] == k;
    }
    assert r[i] == id;
  }

  lemma {:induction false} InsertedOrder(
    byId: map<Id, MemberEntry>, keys: set<Id>, sorted: seq<Id>, id: Id, i: nat, x: nat, y: nat)
    requires Ordered(byId, keys, sorted) && id in byId && i <= |sorted| && x < y <= |sorted|
    requires forall k | 0 <= k < i :: sorted[k] in byId && Before(byId, sorted[k], id)
    requires forall k | i <= k < |sorted| :: sorted[k] in byId && Before(byId, id, sorted[k])
    ensures var r := InsertedAt(sorted, i, id);
      r[x] in byId && r[y] in byId && Before(byId, r[x], r[y])
  {
    if x != i && y != i {
      var a, b := if x < i then x else x - 1, if y < i then y else y - 1;
      assert Before(byId, sorted[a], sorted[b]);
    }
  }

  lemma {:induction false} Inserted(byId: map<Id, MemberEntry>, keys: set<Id>, sorted: seq<Id>, id: Id, i: nat)
    requires Ordered(byId, keys, sorted) && id in byId && id !in keys && i <= |sorted|
    requires forall k | 0 <= k < i :: sorted[k] in byId && Before(byId, sorted[k], id)
    requires forall k | i <= k < |sorted| :: sorted[k] in byId && Before(byId, id, sorted[k])
    ensures Ordered(byId, keys + {id}, InsertedAt(sorted, i, id))
  {
    var r := InsertedAt(sorted, i, id);
    forall k | k in keys + {id} ensures k in r {
      InsertedHolds(sorted, i, id, k);
    }
    forall x, y | 0 <= x < y < |r| ensures r[x] in byId && r[y] in byId && Before(byId, r[x], r[y]) {
      InsertedOrder(byId, keys, sorted, id, i, x, y);
    }
  }

  method ReSorted(byId: map<Id, MemberEntry>) returns (sorted: seq<Id>)
    ensures Ordered(byId, byId.Keys, sorted)
  {
    sorted := [];
    var todo := byId.Keys;
    ghost var done: set<Id> := {};
    while todo != {}
      invariant done + todo == byId.Keys && done !! todo
      invariant Ordered(byId, done, sorted)
      decreases todo
    {
      var id :| id in todo;
      sorted := Insert(byId, done, sorted, id);
      todo, done := todo - {id}, done + {id};
    }
  }

  class MembershipView {
    var byId: map<Id, MemberEntry>
    var sorted: seq<Id>
    const localId: Id
    var localIncarnation: nat

    function Value(): View
      reads this
    {
      View(byId, localId, localIncarnation)
    }

    ghost predicate Sound()
      reads this
    {
      Valid(Value(), sorted)
    }

    constructor Bootstrap(local: Member)
      ensures Value() == Membership.Bootstrap(local) && Sound()
    {
      byId := map[local.id := MemberEntry(local, Alive, 1, 0)];
      sorted := [local.id];
      localId := local.id;
      localIncarnation := 1;
      new;
      assert sorted[0] == local.id;
    }

    method Apply(e: Event, now: U64, timeout: U64) returns (outcome: ApplyOutcome)
      requires Sound()
      modifies this
      ensures Sound() && (Value(), outcome) == Membership.Apply(old(Value()), e, now, timeout)
    {
      LocalStaysAlive(Value(), [Gossip(e, now, timeout)]);
      RunOne(Value(), Gossip(e, now, timeout));
      match e {
        case AliveEvent(_, _, _, _, _, _) => outcome := ApplyAliveInPlace(e);
        case SuspectEvent(id, incarnation, _) => outcome := ApplySuspectInPlace(id, incarnation, now, timeout);
        case DeadEvent(id, incarnation, _) => outcome := ApplyDeadInPlace(id, incarnation);
        case LeaveEvent(id, incarnation) => outcome := ApplyDeadInPlace(id, incarnation);
      }
    }

    ghost predicate InOrder()
      reads this
    {
      Ordered(byId, byId.Keys, sorted)
    }

    method ApplyAliveInPlace(e: Event) returns (outcome: ApplyOutcome)
      requires e.AliveEvent? && InOrder()
      modifies this
      ensures InOrder() && (Value(), outcome) == ApplyAlive(old(Value()), e)
    {
      if e.id == localId {
        return Ignored;
      }
      if e.id in byId {
        var was := byId[e.id];
        if e.incarnation < was.incarnation {
          return Ignored;
        }
        if e.incarnation == was.incarnation && was.state == Alive {
          return Ignored;
        }
        if e.incarnation == was.incarnation && was.state == Dead {
          return Ignored;
        }
      }
      outcome := if e.id in byId then Updated else NewMember;
      byId := byId[e.id := Known(e)];
      sorted := ReSorted(byId);
    }

    /** A suspicion moves nobody, so the order is left as it is. */
    method ApplySuspectInPlace(id: Id, incarnation: nat, now: U64, timeout: U64) returns (outcome: ApplyOutcome)
      requires InOrder()
      modifies this
      ensures InOrder() && (Value(), outcome) == ApplySuspect(old(Value()), id, incarnation, now, timeout)
    {
      if id == localId {
        return SelfRefutationNeeded;
      }
      if id !in byId {
        return Ignored;
      }
      var was := byId[id];
      if incarnation < was.incarnation {
        return Ignored;
      }
      if incarnation == was.incarnation && (was.state == Dead || was.state == Suspect) {
        return Ignored;
      }
      ghost var before := byId;
      byId := byId[id := was.(state := Suspect, incarnation := incarnation, deadline := SaturatingAdd(now, timeout))];
      OrderUnchanged(before, byId, sorted);
      return Updated;
    }

    method ApplyDeadInPlace(id: Id, incarnation: nat) returns (outcome: ApplyOutcome)
      requires InOrder()
      modifies this
      ensures InOrder() && (Value(), outcome) == ApplyDead(old(Value()), id, incarnation)
    {
      if id == localId {
        return SelfRefutationNeeded;
      }
      if id !in byId {
        return Ignored;
      }
      var was := byId[id];
      if incarnation < was.incarnation {
        return Ignored;
      }
      if was.state == Dead && incarnation == was.incarnation {
        return Ignored;
      }
      byId := byId[id := was.(state := Dead, incarnation := incarnation, deadline := 0)];
      sorted := ReSorted(byId);
      return Updated;
    }

    /** Overdue suspects become dead, each reported once with its incarnation. */
    method ReapSuspects(now: U64) returns (promoted: seq<(Id, nat)>)
      requires Sound()
      modifies this
      ensures Sound() && Value() == Reaped(old(Value()), now)
      ensures forall id, inc :: (id, inc) in promoted <==>
        id in old(byId) && Overdue(old(byId)[id], now) && old(byId)[id].incarnation == inc
    {
      LocalStaysAlive(Value(), [Reap(now)]);
      RunOne(Value(), Reap(now));
      promoted := [];
      var todo := byId.Keys;
      ghost var before := byId;
      while todo != {}
        invariant todo <= before.Keys && byId.Keys == before.Keys
        invariant localIncarnation == old(localIncarnation) && sorted == old(sorted)
        invariant forall id | id in before ::
          byId[id] == if id !in todo && Overdue(before[id], now) then before[id].(state := Dead) else before[id]
        invariant forall id, inc :: (id, inc) in promoted <==>
          id in before && id !in todo && Overdue(before[id], now) && before[id].incarnation == inc
        decreases todo
      {
        var id :| id in todo;
        todo := todo - {id};
        var entry := byId[id];
        if entry.state == Suspect && entry.deadline <= now {
          byId := byId[id := entry.(state := Dead)];
          promoted := promoted + [(id, entry.incarnation)];
        }
      }
      assert byId == Reaped(old(Value()), now).byId;
      if promoted != [] {
        sorted := ReSorted(byId);
      } else {
        OrderUnchanged(before, byId, sorted);
      }
    }

    /** Dead entries that carry a deadline go once it is old enough. */
    method EvictTombstones(olderThan: U64, now: U64)
      requires Sound()
      modifies this
      ensures Sound() && Value() == Evicted(old(Value()), olderThan, now)
    {
      LocalStaysAlive(Value(), [Evict(olderThan, now)]);
      RunOne(Value(), Evict(olderThan, now));
      var victims := set id | id in byId && Evictable(byId[id], olderThan, now);
      ghost var before := byId;
      byId := byId - victims;
      assert byId == Evicted(old(Value()), olderThan, now).byId;
      if victims != {} {
        sorted := ReSorted(byId);
      } else {
        assert byId == before;
      }
    }

    method BumpLocalIncarnation() returns (incarnation: nat)
      requires Sound()
      modifies this
      ensures Sound() && Value() == Bumped(old(Value())) && incarnation == old(localIncarnation) + 1
    {
      ghost var before := byId;
      localIncarnation := localIncarnation + 1;
      incarnation := localIncarnation;
      byId := byId[localId := byId[localId].(incarnation := incarnation, state := Alive, deadline := 0)];
      OrderUnchanged(before, byId, sorted);
    }

    method ListLive() returns (members: seq<Listed>)
      requires Sound()
      ensures members == Snapshot(byId, sorted)
    {
      members := [];
      for i := 0 to |sorted|
        invariant members == Snapshot(byId, sorted[..i])
      {
        assert sorted[..i + 1][..i] == sorted[..i];
        var entry := byId[sorted[i]];
        if entry.state != Dead {
          members := members + [Listed(entry.member, i == 0)];
        }
      }
      assert sorted[..|sorted|] == sorted;
    }

    /** Exactly the members that are not dead, each once, ordered by birthdate and id. */
    method TakeSnapshot() returns (members: seq<Listed>)
      requires Sound()
      ensures members == Snapshot(byId, sorted)
      ensures |members| == |set id | id in byId && byId[id].state != Dead|
      ensures forall i | 0 <= i < |members| ::
        var m := members[i].member;
        m.id in byId && byId[m.id].state != Dead && byId[m.id].member == m
      ensures forall id | id in byId && byId[id].state != Dead ::
        exists i | 0 <= i < |members| :: members[i].member.id == id
      ensures forall i, j | 0 <= i < j < |members| ::
        var a, b := members[i].member, members[j].member;
        a.birthdate < b.birthdate || (a.birthdate == b.birthdate && a.id < b.id)
      ensures members != [] && IsLeastLive(byId, byId.Keys, members[0].member.id)
    {
      members := ListLive();
      CoordinatorIsLeastLive(Value(), sorted);
      SnapshotListsLive(Value(), sorted);
      ListsSpelledOut(byId, members);
    }
  }

  lemma {:induction false} ListsSpelledOut(byId: map<Id, MemberEntry>, members: seq<Listed>)
    requires Lists(byId, LiveIds(byId), members)
    ensures |members| == |set id | id in byId && byId[id].state != Dead|
    ensures forall i | 0 <= i < |members| ::
      var m := members[i].member;
      m.id in byId && byId[m.id].state != Dead && byId[m.id].member == m
    ensures forall id | id in byId && byId[id].state != Dead ::
      exists i | 0 <= i < |members| :: members[i].member.id == id
    ensures forall i, j | 0 <= i < j < |members| ::
      var a, b := members[i].member, members[j].member;
      a.birthdate < b.birthdate || (a.birthdate == b.birthdate && a.id < b.id)
  {
    assert LiveIds(byId) == set id | id in byId && byId[id].state != Dead;
    forall id | id in byId && byId[id].state != Dead
      ensures exists i | 0 <= i < |members| :: members[i].member.id == id
    {
      assert id in LiveIds(byId);
    }
    forall i, j | 0 <= i < j < |members|
      ensures var a, b := members[i].member, members[j].member;
              a.birthdate < b.birthdate || (a.birthdate == b.birthdate && a.id < b.id)
    {
      assert Older(members[i].member, members[j].member);
    }
  }

  lemma {:induction false} RunOne(v: View, op: Op)
    ensures Run(v, [op]) == Step(v, op)
  {
    assert [op][..0] == [];
    assert Run(v, []) == v;
  }
}
