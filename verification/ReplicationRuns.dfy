/** What whole runs of replicated puts promise: order, agreement, quorum and reads. */
module ReplicationRuns {
  import opened Wrappers
  import opened Bytes
  import opened Resp
  import opened Replication

  /** The state after a sequence of steps, if each was enabled in its turn. */
  function Run(s: State, actions: seq<Action>): Option<State> {
    if actions == [] then Some(s)
    else
      var before := Run(s, actions[..|actions| - 1]);
      var a := actions[|actions| - 1];
      if before.None? || !Enabled(before.value, a) then None else Some(Apply(before.value, a))
  }

  lemma {:induction false} RunKeepsInv(s: State, actions: seq<Action>)
    requires Inv(s)
    ensures var r := Run(s, actions);
      r.Some? ==> Inv(r.value) && s.clock <= r.value.clock && |r.value.backups| == |s.backups|
  {
    if actions != [] && Run(s, actions).Some? {
      var init := actions[..|actions| - 1];
      RunKeepsInv(s, init);
      InvKept(Run(s, init).value, actions[|actions| - 1]);
    }
  }

  lemma {:induction false} StartInv(n: nat)
    ensures Inv(Start(n)) && InOrder(Start(n)) && Increasing(Start(n))
  {
  }

  // ---- the primary stamps every write itself ----

  predicate OwnStamp(a: Action) {
    a.Begin? ==> a.override.None?
  }

  ghost predicate Increasing(s: State) {
    forall i, j | 0 <= i < j < |s.requests| :: s.requests[i].write.stamp < s.requests[j].write.stamp
  }

  ghost predicate DistinctStamps(log: seq<Write>) {
    forall v, w | v in log && w in log && v.stamp == w.stamp :: v == w
  }

  lemma {:induction false} IncreasingKept(s: State, a: Action)
    requires Inv(s) && Increasing(s) && Enabled(s, a) && OwnStamp(a) && s.clock < I64_MAX
    ensures Increasing(Apply(s, a))
  {
    var s' := Apply(s, a);
    forall i, j | 0 <= i < j < |s'.requests| ensures s'.requests[i].write.stamp < s'.requests[j].write.stamp {
      assert RequestSound(s, s.requests[i]);
    }
  }

  /** Below the end of the clock's range, stamps are strictly increasing in the order they are claimed. */
  lemma {:induction false} StampsIncrease(s: State, actions: seq<Action>)
    requires Inv(s) && Increasing(s) && (forall a | a in actions :: OwnStamp(a))
    requires Run(s, actions).Some? && Run(s, actions).value.clock < I64_MAX
    ensures Increasing(Run(s, actions).value)
  {
    if actions != [] {
      var init := actions[..|actions| - 1];
      RunKeepsInv(s, init);
      StampsIncrease(s, init);
      IncreasingKept(Run(s, init).value, actions[|actions| - 1]);
    }
  }

  lemma {:induction false} IncreasingDistinct(s: State)
    requires LogSound(s) && Increasing(s)
    ensures DistinctStamps(s.log)
  {
    forall v, w | v in s.log && w in s.log && v.stamp == w.stamp ensures v == w {
      assert FromRequest(s, v) && FromRequest(s, w);
      var i :| 0 <= i < |s.requests| && s.requests[i].write == v && s.requests[i].phase == Committed;
      var j :| 0 <= j < |s.requests| && s.requests[j].write == w && s.requests[j].phase == Committed;
    }
  }

  // ---- one write at a time ----

  /** A write is stamped only when no stamped write still waits for its commit. */
  predicate Serial(s: State, a: Action) {
    a.Begin? ==> a.override.None? && forall i | 0 <= i < |s.requests| :: s.requests[i].phase != Stamped
  }

  predicate SerialRun(s: State, actions: seq<Action>) {
    actions == [] ||
    var before := Run(s, actions[..|actions| - 1]);
    SerialRun(s, actions[..|actions| - 1]) && (before.Some? ==> Serial(before.value, actions[|actions| - 1]))
  }

  ghost predicate LogIncreasing(log: seq<Write>) {
    forall x, y | 0 <= x < y < |log| :: log[x].stamp < log[y].stamp
  }

  /** The only uncommitted stamp is the newest request's, later than every committed one. */
  ghost predicate InOrder(s: State) {
    && LogIncreasing(s.log)
    && forall i | 0 <= i < |s.requests| && s.requests[i].phase == Stamped ::
         i == |s.requests| - 1 && forall w | w in s.log :: w.stamp < s.requests[i].write.stamp
  }

  lemma {:induction false} LogBelowClock(s: State, w: Write)
    requires LogSound(s) && AcksDelivered(s) && w in s.log
    ensures w.stamp <= s.clock
  {
    assert FromRequest(s, w);
    var i :| 0 <= i < |s.requests| && s.requests[i].write == w && s.requests[i].phase == Committed;
    assert RequestSound(s, s.requests[i]);
  }

  lemma {:induction false} InOrderKept(s: State, a: Action)
    requires Inv(s) && InOrder(s) && Enabled(s, a) && Serial(s, a) && s.clock < I64_MAX
    ensures InOrder(Apply(s, a))
  {
    var s' := Apply(s, a);
    if a.Begin? {
      forall w | w in s.log ensures w.stamp < s'.requests[|s.requests|].write.stamp {
        LogBelowClock(s, w);
      }
    }
  }

  lemma {:induction false} SerialRunInOrder(s: State, actions: seq<Action>)
    requires Inv(s) && InOrder(s) && SerialRun(s, actions)
    requires Run(s, actions).Some? && Run(s, actions).value.clock < I64_MAX
    ensures InOrder(Run(s, actions).value)
  {
    if actions != [] {
      var init := actions[..|actions| - 1];
      RunKeepsInv(s, init);
      SerialRunInOrder(s, init);
      InOrderKept(Run(s, init).value, actions[|actions| - 1]);
    }
  }

  lemma {:induction false} LastIsLatest(log: seq<Write>, k: Key, w: Write)
    requires LogIncreasing(log) && w in log && w.key == k
    ensures LastFor(log, k).Some? && w.stamp <= LastFor(log, k).value.stamp
  {
    var n := |log| - 1;
    if log[n].key == k {
      var x :| 0 <= x < |log| && log[x] == w;
    } else {
      assert w in log[..n];
      LastIsLatest(log[..n], k, w);
    }
  }

  lemma {:induction false} LastInLog(log: seq<Write>, k: Key)
    requires LastFor(log, k).Some?
    ensures LastFor(log, k).value in log && LastFor(log, k).value.key == k
  {
    if log[|log| - 1].key != k {
      LastInLog(log[..|log| - 1], k);
    }
  }

  // ---- main results ----

  /** The store holds that write or a later one of its key. */
  predicate Holds(store: Store, w: Write) {
    w.key in store && store[w.key].stamp >= w.stamp
  }

  ghost predicate NoBackupAhead(s: State) {
    forall b | 0 <= b < |s.backups| :: forall k | k in s.backups[b] :: Holds(s.primary, s.backups[b][k])
  }

  lemma {:induction false} PrimaryHolds(s: State, w: Write)
    requires Inv(s) && InOrder(s) && w in s.log
    ensures Holds(s.primary, w)
  {
    LastIsLatest(s.log, w.key, w);
  }

  /**
   In every run that stamps and commits one write at a time, however messages are delayed, reordered
   or repeated, no backup is ahead of the primary.
   */
  lemma {:induction false} BackupsNeverAhead(n: nat, actions: seq<Action>)
    requires SerialRun(Start(n), actions)
    requires Run(Start(n), actions).Some? && Run(Start(n), actions).value.clock < I64_MAX
    ensures NoBackupAhead(Run(Start(n), actions).value)
  {
    var s := Run(Start(n), actions).value;
    StartInv(n);
    RunKeepsInv(Start(n), actions);
    SerialRunInOrder(Start(n), actions);
    forall b, k | 0 <= b < |s.backups| && k in s.backups[b] ensures Holds(s.primary, s.backups[b][k]) {
      assert BackupIsJoin(s, b);
      PrimaryHolds(s, s.backups[b][k]);
    }
  }

  /** Every committed write of the key has reached the backup. */
  ghost predicate FullyDelivered(s: State, k: Key, b: nat) {
    forall w | w in s.log && w.key == k :: (w, b) in s.delivered
  }

  predicate LastIsMaximal(s: State, k: Key)
    requires k in s.primary
  {
    forall w | w in s.log && w.key == k :: w.stamp <= s.primary[k].stamp
  }

  /**
   Once everything is delivered a backup agrees with the primary on a key exactly when the write
   committed last carries the highest stamp, in every run whose stamps are distinct.
   */
  lemma {:induction false} AgreementIff(s: State, k: Key, b: nat)
    requires Inv(s) && DistinctStamps(s.log) && b < |s.backups|
    requires k in s.primary && FullyDelivered(s, k, b)
    ensures k in s.backups[b]
    ensures s.backups[b][k] == s.primary[k] <==> LastIsMaximal(s, k)
  {
    assert BackupIsJoin(s, b);
    LastInLog(s.log, k);
    var held := s.primary[k];
    assert (held, b) in s.delivered;
    var stored := s.backups[b][k];
    assert stored in s.log && stored.key == k;
  }

  /** The same for every concurrent run in which the primary stamps the writes itself. */
  lemma {:induction false} AgreementInEveryRun(n: nat, actions: seq<Action>, k: Key, b: nat)
    requires (forall a | a in actions :: OwnStamp(a)) && b < n
    requires Run(Start(n), actions).Some? && Run(Start(n), actions).value.clock < I64_MAX
    requires k in Run(Start(n), actions).value.primary && FullyDelivered(Run(Start(n), actions).value, k, b)
    ensures var s := Run(Start(n), actions).value;
      b < |s.backups| && k in s.backups[b] && (s.backups[b][k] == s.primary[k] <==> LastIsMaximal(s, k))
  {
    StartInv(n);
    RunKeepsInv(Start(n), actions);
    StampsIncrease(Start(n), actions);
    IncreasingDistinct(Run(Start(n), actions).value);
    AgreementIff(Run(Start(n), actions).value, k, b);
  }

  /** One write at a time: once everything is delivered, every backup equals the primary. */
  lemma {:induction false} DeliveredBackupsEqualPrimary(n: nat, actions: seq<Action>, b: nat)
    requires SerialRun(Start(n), actions) && b < n
    requires Run(Start(n), actions).Some? && Run(Start(n), actions).value.clock < I64_MAX
    requires forall k :: FullyDelivered(Run(Start(n), actions).value, k, b)
    ensures var s := Run(Start(n), actions).value; b < |s.backups| && s.backups[b] == s.primary
  {
    var s := Run(Start(n), actions).value;
    StartInv(n);
    RunKeepsInv(Start(n), actions);
    SerialRunInOrder(Start(n), actions);
    forall k ensures k in s.primary ==> k in s.backups[b] && s.backups[b][k] == s.primary[k] {
      if k in s.primary {
        forall w | w in s.log && w.key == k ensures w.stamp <= s.primary[k].stamp {
          LastIsLatest(s.log, k, w);
        }
        LogDistinct(s.log);
        assert FullyDelivered(s, k, b);
        AgreementIff(s, k, b);
      }
    }
    forall k | k in s.backups[b] ensures k in s.primary {
      assert BackupIsJoin(s, b);
      PrimaryHolds(s, s.backups[b][k]);
    }
  }

  lemma {:induction false} LogDistinct(log: seq<Write>)
    requires LogIncreasing(log)
    ensures DistinctStamps(log)
  {
    forall v, w | v in log && w in log && v.stamp == w.stamp ensures v == w {
      var x :| 0 <= x < |log| && log[x] == v;
      var y :| 0 <= y < |log| && log[y] == w;
    }
  }

  /** A delivered write is stored if the backup lacks the key or has it strictly older, and nothing else changes. */
  lemma {:induction false} DeliveryMeaning(s: State, i: nat, to: nat)
    requires Enabled(s, Deliver(i, to))
    ensures var w, s' := s.requests[i].write, Apply(s, Deliver(i, to));
      var wins := w.key !in s.backups[to] || s.backups[to][w.key].stamp < w.stamp;
      && s'.backups == s.backups[to := if wins then s.backups[to][w.key := w] else s.backups[to]]
      && s' == s.(backups := s'.backups, delivered := s.delivered + {(w, to)})
      && Apply(s', Deliver(i, to)) == s'
  {
  }

  lemma {:induction false} RunStep(s: State, actions: seq<Action>, a: Action, m: State)
    requires Run(s, actions) == Some(m) && Enabled(m, a)
    ensures Run(s, actions + [a]) == Some(Apply(m, a))
  {
    assert (actions + [a])[..|actions|] == actions;
  }

  lemma {:induction false} RunOnce(s: State, a: Action)
    requires Enabled(s, a)
    ensures Run(s, [a]) == Some(Apply(s, a))
  {
    assert [a][..0] == [];
    assert Run(s, []) == Some(s);
  }

  /** A stamped put that meets its condition can be committed, delivered and acknowledged, and its client told OK. */
  lemma {:induction false} PutCanComplete(s: State, i: nat, b: nat) returns (actions: seq<Action>, r: State)
    requires Inv(s) && i < |s.requests| && s.requests[i].phase == Stamped && ConditionHolds(s, s.requests[i])
    requires b < |s.backups|
    ensures Run(s, actions) == Some(r) && |r.requests| == |s.requests| && r.requests[i].backups == [b]
    ensures SyncReply(r.requests[i], 2) == AnsweredOk
    ensures Holds(r.primary, s.requests[i].write)
    ensures |r.backups| == |s.backups| && Holds(r.backups[b], s.requests[i].write)
  {
    RunOnce(s, Commit(i, [b]));
    var s1 := Apply(s, Commit(i, [b]));
    RunStep(s, [Commit(i, [b])], Deliver(i, b), s1);
    var s2 := Apply(s1, Deliver(i, b));
    var ack := Answer(i, 0, Ok(SimpleString([79, 75])));
    RunStep(s, [Commit(i, [b])] + [Deliver(i, b)], ack, s2);
    actions, r := [Commit(i, [b])] + [Deliver(i, b)] + [ack], Apply(s2, ack);
    AckKinds(SimpleString([79, 75]), ClusterError);
    AcksCounted(Replies(r.requests[i]));
    assert (set j | 0 <= j < |Replies(r.requests[i])| && IsAck(Replies(r.requests[i])[j])) == {0};
  }

  // ---- write quorum ----

  /** Only OK, integers and bulk strings, null or not, count; errors and every other frame do not. */
  lemma {:induction false} AckKinds(f: Frame, e: ClusterError)
    ensures IsAck(Ok(f)) <==> f == SimpleString([79, 75]) || f.Integer? || f.Bulk? || f.NullBulk?
    ensures !IsAck(Err(e))
  {
  }

  lemma {:induction false} AcksCounted(replies: seq<Reply>)
    ensures Acks(replies) == |set j | 0 <= j < |replies| && IsAck(replies[j])|
  {
    var acked := set j | 0 <= j < |replies| && IsAck(replies[j]);
    if replies != [] {
      var n := |replies| - 1;
      AcksCounted(replies[..n]);
      var before := set j | 0 <= j < n && IsAck(replies[..n][j]);
      assert acked == if IsAck(replies[n]) then before + {n} else before;
    }
  }

  /**
   A committed put with backups waits for all their answers; then it is OK exactly when the primary and
   the backups that acknowledged make up the quorum.
   */
  lemma {:induction false} SyncAnswerIff(r: Request, writeQuorum: nat)
    requires r.phase == Committed && r.backups != [] && |r.replies| == |r.backups|
    ensures SyncReply(r, writeQuorum) == Pending <==> exists j | 0 <= j < |r.replies| :: r.replies[j].None?
    ensures SyncReply(r, writeQuorum) == AnsweredOk <==>
      && (forall j | 0 <= j < |r.replies| :: r.replies[j].Some?)
      && writeQuorum <= 1 + |set j | 0 <= j < |r.replies| && r.replies[j].Some? && IsAck(r.replies[j].value)|
  {
    if AllReplied(r) {
      AcksCounted(Replies(r));
      assert (set j | 0 <= j < |r.replies| && r.replies[j].Some? && IsAck(r.replies[j].value))
          == set j | 0 <= j < |Replies(r)| && IsAck(Replies(r)[j]);
    }
  }

  function Holders(s: State, w: Write): set<nat> {
    set b | 0 <= b < |s.backups| && Holds(s.backups[b], w)
  }

  lemma {:induction false} AcksWithin(targets: seq<nat>, replies: seq<Reply>, holders: set<nat>)
    requires |targets| == |replies| && Distinct(targets)
    requires forall j | 0 <= j < |replies| && IsAck(replies[j]) :: targets[j] in holders
    ensures Acks(replies) <= |holders|
  {
    if replies != [] {
      var n := |replies| - 1;
      var rest := if IsAck(replies[n]) then holders - {targets[n]} else holders;
      AcksWithin(targets[..n], replies[..n], rest);
    }
  }

  lemma {:induction false} AckersHold(s: State, i: nat)
    requires Inv(s) && i < |s.requests| && AllReplied(s.requests[i])
    ensures Acks(Replies(s.requests[i])) <= |Holders(s, s.requests[i].write)|
  {
    var r := s.requests[i];
    assert RequestSound(s, r);
    forall j | 0 <= j < |r.replies| && IsAck(Replies(r)[j]) ensures r.backups[j] in Holders(s, r.write) {
      var b := r.backups[j];
      assert (r.write, b) in s.delivered;
      assert BackupIsJoin(s, b);
    }
    AcksWithin(r.backups, Replies(r), Holders(s, r.write));
  }

  /**
   In a run of one write at a time, a put answered OK is held, or superseded by a later write, at the
   primary and at enough backups to make up the write quorum - provided the put had a backup at all.
   */
  lemma {:induction false} OkMeansQuorum(n: nat, actions: seq<Action>, i: nat, writeQuorum: nat)
    requires SerialRun(Start(n), actions)
    requires Run(Start(n), actions).Some? && Run(Start(n), actions).value.clock < I64_MAX
    requires i < |Run(Start(n), actions).value.requests|
    requires var r := Run(Start(n), actions).value.requests[i];
      SyncReply(r, writeQuorum) == AnsweredOk && (r.backups != [] || writeQuorum <= 1)
    ensures var s := Run(Start(n), actions).value;
      Holds(s.primary, s.requests[i].write) && 1 + |Holders(s, s.requests[i].write)| >= writeQuorum
  {
    var s := Run(Start(n), actions).value;
    StartInv(n);
    RunKeepsInv(Start(n), actions);
    SerialRunInOrder(Start(n), actions);
    PrimaryHolds(s, s.requests[i].write);
    if s.requests[i].backups != [] {
      AckersHold(s, i);
    }
  }

  /** Without a backup the client is told OK whatever the quorum, and only the primary holds the write. */
  lemma {:induction false} NoBackupsIgnoreQuorum(n: nat, k: Key, v: Value, writeQuorum: nat)
    ensures var actions := [Begin(k, v, false, false, 0, None), Commit(0, [])];
      var r := Run(Start(n), actions);
      && SerialRun(Start(n), actions) && r.Some? && |r.value.requests| == 1
      && SyncReply(r.value.requests[0], writeQuorum) == AnsweredOk
      && Holders(r.value, r.value.requests[0].write) == {}
  {
    var a0, a1 := Begin(k, v, false, false, 0, None), Commit(0, []);
    var actions := [a0, a1];
    assert actions[..1] == [a0] && [a0][..0] == [];
    var s1 := Apply(Start(n), a0);
    assert Run(Start(n), []) == Some(Start(n)) && SerialRun(Start(n), []);
    assert Run(Start(n), [a0]) == Some(s1);
    assert SerialRun(Start(n), [a0]);
    assert Run(Start(n), actions) == Some(Apply(s1, a1));
  }

  function Put(k: Key, v: Value): Action {
    Begin(k, v, false, false, 0, None)
  }

  /** Some run that uses no client timestamp leads to the state. */
  ghost predicate Reached(n: nat, s: State) {
    exists actions :: (forall a | a in actions :: OwnStamp(a)) && Run(Start(n), actions) == Some(s)
  }

  lemma {:induction false} ReachedStep(n: nat, s: State, a: Action)
    requires Reached(n, s) && Enabled(s, a) && OwnStamp(a)
    ensures Reached(n, Apply(s, a))
  {
    var actions :| (forall a | a in actions :: OwnStamp(a)) && Run(Start(n), actions) == Some(s);
    var more := actions + [a];
    assert more[..|more| - 1] == actions;
    assert Run(Start(n), more) == Some(Apply(s, a));
  }

  /** Two puts of a key are stamped before either is committed. */
  lemma {:induction false} BothStamped(k: Key, v: Value, w: Value) returns (s: State)
    ensures Reached(1, s) && s.log == [] && s.primary == map[] && s.backups == [map[]] && s.delivered == {}
    ensures |s.requests| == 2 && s.requests[0].phase == Stamped && s.requests[1].phase == Stamped
    ensures forall i | 0 <= i < 2 :: !s.requests[i].nx && !s.requests[i].xx
    ensures s.requests[0].write == Write(k, v, 1) && s.requests[1].write == Write(k, w, 2)
  {
    assert Run(Start(1), []) == Some(Start(1));
    ReachedStep(1, Start(1), Put(k, v));
    var s1 := Apply(Start(1), Put(k, v));
    ReachedStep(1, s1, Put(k, w));
    s := Apply(s1, Put(k, w));
  }

  /** The later stamp is committed first. */
  lemma {:induction false} CrossedCommits(k: Key, v: Value, w: Value) returns (s: State)
    ensures Reached(1, s) && s.backups == [map[]] && s.delivered == {}
    ensures s.log == [Write(k, w, 2), Write(k, v, 1)] && s.primary == map[k := Write(k, v, 1)]
    ensures |s.requests| == 2
    ensures forall i | 0 <= i < 2 :: s.requests[i].phase == Committed && s.requests[i].backups == [0]
    ensures s.requests[0].write == Write(k, v, 1) && s.requests[1].write == Write(k, w, 2)
  {
    var stamped := BothStamped(k, v, w);
    ReachedStep(1, stamped, Commit(1, [0]));
    var s1 := Apply(stamped, Commit(1, [0]));
    ReachedStep(1, s1, Commit(0, [0]));
    s := Apply(s1, Commit(0, [0]));
  }

  /**
   A write stamped first but committed second wins at the primary and loses at the backup: with
   concurrent puts, delivery of everything does not bring agreement.
   */
  lemma {:induction false} OvertakenCommitDiverges(k: Key, v: Value, w: Value) returns (s: State)
    ensures Reached(1, s) && |s.backups| == 1 && FullyDelivered(s, k, 0)
    ensures k in s.primary && s.primary[k] == Write(k, v, 1)
    ensures k in s.backups[0] && s.backups[0][k] == Write(k, w, 2)
  {
    var crossed := CrossedCommits(k, v, w);
    ReachedStep(1, crossed, Deliver(0, 0));
    var s1 := Apply(crossed, Deliver(0, 0));
    ReachedStep(1, s1, Deliver(1, 0));
    s := Apply(s1, Deliver(1, 0));
  }
}
