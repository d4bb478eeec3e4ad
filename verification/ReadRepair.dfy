/** Quorum reads: choosing the newest reply and repairing the replicas that lag behind. */
module ReadRepair {
  import opened Wrappers
  import opened Bytes
  import opened Replication
  import opened ReplicationRuns

  /** What a replica answers for a key. */
  datatype Sample = Sample(value: Value, stamp: I64)

  /** Reply `i` is newest, and the last of those with its stamp. */
  ghost predicate IsWinner(replies: seq<Option<Sample>>, i: nat) {
    && i < |replies| && replies[i].Some?
    && forall j | 0 <= j < |replies| && replies[j].Some? ::
         replies[j].value.stamp <= replies[i].value.stamp && (i < j ==> replies[j].value.stamp < replies[i].value.stamp)
  }

  function PickHighest(replies: seq<Option<Sample>>): Option<Sample> {
    if replies == [] then None
    else
      var before, last := PickHighest(replies[..|replies| - 1]), replies[|replies| - 1];
      if last.Some? && (before.None? || before.value.stamp <= last.value.stamp) then last else before
  }

  /** Nothing is picked from nothing; otherwise the winner is. */
  lemma {:induction false} PicksWinner(replies: seq<Option<Sample>>) returns (i: nat)
    ensures PickHighest(replies).None? <==> forall j | 0 <= j < |replies| :: replies[j].None?
    ensures PickHighest(replies).Some? ==> IsWinner(replies, i) && replies[i] == PickHighest(replies)
  {
    i := 0;
    if replies != [] {
      var n := |replies| - 1;
      var x := PicksWinner(replies[..n]);
      i := if replies[n].Some? && PickHighest(replies) == replies[n]
              && (PickHighest(replies[..n]).None? || PickHighest(replies[..n]).value.stamp <= replies[n].value.stamp)
           then n else x;
    }
  }

  predicate IsStale(reply: Option<Sample>, winner: I64) {
    reply.None? || reply.value.stamp < winner
  }

  /** The replicas whose reply is missing or older than the winner, in order. */
  function StaleReplicas(addrs: seq<nat>, replies: seq<Option<Sample>>, winner: I64): (r: seq<nat>)
    requires |addrs| == |replies|
    ensures forall a :: a in r <==> exists i | 0 <= i < |addrs| :: addrs[i] == a && IsStale(replies[i], winner)
  {
    if addrs == [] then []
    else
      var n := |addrs| - 1;
      var before := StaleReplicas(addrs[..n], replies[..n], winner);
      if IsStale(replies[n], winner) then before + [addrs[n]] else before
  }

  function SampleOf(store: Store, k: Key): Option<Sample> {
    if k in store then Some(Sample(store[k].value, store[k].stamp)) else None
  }

  /** Each address answered what it stores, or did not answer. */
  ghost predicate Answers(stores: seq<Store>, k: Key, addrs: seq<nat>, replies: seq<Option<Sample>>) {
    && |addrs| == |replies|
    && forall i | 0 <= i < |addrs| ::
         addrs[i] < |stores| && (replies[i].None? || replies[i] == SampleOf(stores[addrs[i]], k))
  }

  function Repaired(stores: seq<Store>, stale: seq<nat>, w: Write): (r: seq<Store>)
    ensures |r| == |stores|
  {
    seq(|stores|, b requires 0 <= b < |stores| => if b in stale then Merge(stores[b], w) else stores[b])
  }

  ghost predicate Newer(before: Store, after: Store) {
    forall k | k in before :: Holds(after, before[k])
  }

  /**
   Read repair brings every replica it asked to the winner or beyond and never back, even when newer
   writes reach the replicas between their answers and the repair; a replica that had answered
   truthfully ends at the winner unless it has moved past it by itself.
   */
  lemma {:induction false} RepairConverges(
    asked: seq<Store>, stores: seq<Store>, k: Key, addrs: seq<nat>, replies: seq<Option<Sample>>, i: nat)
    requires Answers(asked, k, addrs, replies) && i < |addrs| && PickHighest(replies).Some?
    requires |stores| == |asked| && forall b | 0 <= b < |asked| :: Keyed(asked[b]) && Newer(asked[b], stores[b])
    ensures var top := PickHighest(replies).value;
      var w := Write(k, top.value, top.stamp);
      var now := stores[addrs[i]];
      var after := Repaired(stores, StaleReplicas(addrs, replies, top.stamp), w)[addrs[i]];
      && Holds(after, w)
      && (k in now ==> after[k].stamp >= now[k].stamp)
      && (replies[i] == SampleOf(asked[addrs[i]], k) ==>
            after[k].stamp == if k in now && now[k].stamp > top.stamp then now[k].stamp else top.stamp)
  {
    var top := PickHighest(replies).value;
    var stale := StaleReplicas(addrs, replies, top.stamp);
    var x := PicksWinner(replies);
    var before := asked[addrs[i]];
    if !IsStale(replies[i], top.stamp) {
      assert replies[i].value.stamp == top.stamp;
      assert Holds(stores[addrs[i]], before[k]);
    }
  }

  ghost predicate Keyed(store: Store) {
    forall k | k in store :: store[k].key == k
  }

  lemma {:induction false} PrimaryWins(s: State, k: Key, addrs: seq<nat>, replies: seq<Option<Sample>>)
    requires Inv(s) && InOrder(s) && k in s.primary && Answers(s.backups, k, addrs, replies)
    ensures PickHighest(replies + [SampleOf(s.primary, k)]) == SampleOf(s.primary, k)
  {
    var all := replies + [SampleOf(s.primary, k)];
    var n := |replies|;
    forall j | 0 <= j < |all| && all[j].Some? ensures all[j].value.stamp <= all[n].value.stamp {
      if j < n {
        assert BackupIsJoin(s, addrs[j]);
        PrimaryHolds(s, s.backups[addrs[j]][k]);
      }
    }
    var i := PicksWinner(all);
    assert all[n].Some?;
  }

  /**
   In every run that stamps and commits one write at a time, a read that asks any of the backups, and
   gets an answer from any of those, returns the write committed last.
   */
  lemma {:induction false} ReadReturnsLastCommit(
    n: nat, actions: seq<Action>, k: Key, addrs: seq<nat>, replies: seq<Option<Sample>>)
    requires SerialRun(Start(n), actions)
    requires Run(Start(n), actions).Some? && Run(Start(n), actions).value.clock < I64_MAX
    requires Answers(Run(Start(n), actions).value.backups, k, addrs, replies)
    requires LastFor(Run(Start(n), actions).value.log, k).Some?
    ensures var last := LastFor(Run(Start(n), actions).value.log, k).value;
      PickHighest(replies + [SampleOf(Run(Start(n), actions).value.primary, k)]) == Some(Sample(last.value, last.stamp))
  {
    StartInv(n);
    RunKeepsInv(Start(n), actions);
    SerialRunInOrder(Start(n), actions);
    var s := Run(Start(n), actions).value;
    assert k in s.primary;
    PrimaryWins(s, k, addrs, replies);
  }
}
