/**
 A primary that stamps, commits and fans out writes, and backups that merge them by last write wins.
 Messages may be delayed without bound, reordered and duplicated.
 */
module Replication {
  import opened Wrappers
  import opened Arithmetic
  import opened Bytes
  import opened Resp
  import opened Timestamps

  type Key = seq<Byte>
  type Value = seq<Byte>

  datatype Write = Write(key: Key, value: Value, stamp: I64)

  type Store = map<Key, Write>

  datatype ClusterError = ClusterError

  type Reply = Result<Frame, ClusterError>

  datatype Phase = Stamped | Committed | Rejected

  /**
   A client's put. Once committed, `place` is its place in the log, and `replies[j]` is what backup
   `backups[j]` answered so far.
   */
  datatype Request = Request(
    write: Write, nx: bool, xx: bool, phase: Phase, place: nat, backups: seq<nat>, replies: seq<Option<Reply>>)

  /** `log` lists the committed writes in commit order; `delivered` pairs writes with backups they reached. */
  datatype State = State(
    clock: I64, requests: seq<Request>, log: seq<Write>, primary: Store, backups: seq<Store>,
    delivered: set<(Write, nat)>)

  datatype Action =
    | Begin(key: Key, value: Value, nx: bool, xx: bool, wall: I64, override: Option<I64>)
    | Commit(i: nat, targets: seq<nat>)
    | Deliver(i: nat, to: nat)
    | Answer(i: nat, j: nat, reply: Reply)

  function Start(backups: nat): State {
    State(0, [], [], map[], seq(backups, _ => map[]), {})
  }

  // ---- counting acknowledgements ----

  const OK: seq<Byte> := [79, 75]

  predicate IsAck(r: Reply) {
    r.Ok? && (r.value == SimpleString(OK) || r.value.Integer? || r.value.Bulk? || r.value.NullBulk?)
  }

  function Acks(replies: seq<Reply>): nat {
    if replies == [] then 0
    else Acks(replies[..|replies| - 1]) + (if IsAck(replies[|replies| - 1]) then 1 else 0)
  }

  datatype Tally = Tally(acks: nat, failures: nat, firstError: Option<Reply>)

  /** Every reply is an ack or a failure; the first failure is kept. */
  method Aggregate(replies: seq<Reply>) returns (t: Tally)
    ensures t.acks == Acks(replies) && t.failures == |replies| - Acks(replies)
    ensures t.firstError.None? <==> forall i | 0 <= i < |replies| :: IsAck(replies[i])
    ensures t.firstError.Some? ==> exists i | 0 <= i < |replies| ::
      t.firstError.value == replies[i] && !IsAck(replies[i]) && forall j | 0 <= j < i :: IsAck(replies[j])
  {
    t := Tally(0, 0, None);
    for n := 0 to |replies|
      invariant t.acks == Acks(replies[..n]) && t.acks + t.failures == n
      invariant t.firstError.None? <==> forall i | 0 <= i < n :: IsAck(replies[i])
      invariant t.firstError.Some? ==> exists i | 0 <= i < n ::
        t.firstError.value == replies[i] && !IsAck(replies[i]) && forall j | 0 <= j < i :: IsAck(replies[j])
    {
      assert replies[..n + 1][..n] == replies[..n];
      if IsAck(replies[n]) {
        t := t.(acks := t.acks + 1);
      } else {
        t := t.(failures := t.failures + 1,
                firstError := if t.firstError.None? then Some(replies[n]) else t.firstError);
      }
    }
    assert replies[..|replies|] == replies;
  }

  datatype Answered = Pending | AnsweredOk | QuorumNotMet | ConditionFailed

  predicate AllReplied(r: Request) {
    forall j | 0 <= j < |r.replies| :: r.replies[j].Some?
  }

  function Replies(r: Request): seq<Reply>
    requires AllReplied(r)
  {
    seq(|r.replies|, j requires 0 <= j < |r.replies| => r.replies[j].value)
  }

  /** What the client of a synchronously replicated put is told. No backups means OK, whatever the quorum. */
  function SyncReply(r: Request, writeQuorum: nat): Answered {
    if r.phase == Stamped then Pending
    else if r.phase == Rejected then ConditionFailed
    else if r.backups == [] then AnsweredOk
    else if !AllReplied(r) then Pending
    else if 1 + Acks(Replies(r)) < Max(writeQuorum, 1) then QuorumNotMet
    else AnsweredOk
  }

  // ---- steps ----

  /** `put_lww`: only a strictly later stamp replaces a stored write. */
  function Merge(store: Store, w: Write): Store {
    if w.key in store && store[w.key].stamp >= w.stamp then store else store[w.key := w]
  }

  predicate Distinct(xs: seq<nat>) {
    forall i, j | 0 <= i < j < |xs| :: xs[i] != xs[j]
  }

  predicate Enabled(s: State, a: Action) {
    match a
    case Begin(_, _, _, _, _, _) => true
    case Commit(i, targets) =>
      && i < |s.requests| && s.requests[i].phase == Stamped
      && Distinct(targets) && forall t | t in targets :: t < |s.backups|
    case Deliver(i, to) =>
      i < |s.requests| && s.requests[i].phase == Committed && to in s.requests[i].backups && to < |s.backups|
    case Answer(i, j, reply) =>
      && i < |s.requests| && s.requests[i].phase == Committed
      && j < |s.requests[i].backups| && j < |s.requests[i].replies| && s.requests[i].replies[j].None?
      && (IsAck(reply) ==> (s.requests[i].write, s.requests[i].backups[j]) in s.delivered)
  }

  predicate ConditionHolds(s: State, r: Request) {
    !(r.nx && r.write.key in s.primary) && !(r.xx && r.write.key !in s.primary)
  }

  function Apply(s: State, a: Action): State
    requires Enabled(s, a)
  {
    match a
    case Begin(k, v, nx, xx, wall, override) =>
      var stamp := if override.Some? then override.value else NextStamp(s.clock, wall);
      s.(clock := Max(s.clock, stamp),
         requests := s.requests + [Request(Write(k, v, stamp), nx, xx, Stamped, 0, [], [])])
    case Commit(i, targets) =>
      var r := s.requests[i];
      if ConditionHolds(s, r) then
        var committed :=
          r.(phase := Committed, place := |s.log|, backups := targets, replies := seq(|targets|, _ => None));
        s.(requests := s.requests[i := committed], log := s.log + [r.write],
           primary := s.primary[r.write.key := r.write])
      else s.(requests := s.requests[i := r.(phase := Rejected)])
    case Deliver(i, to) =>
      var w := s.requests[i].write;
      s.(backups := s.backups[to := Merge(s.backups[to], w)], delivered := s.delivered + {(w, to)})
    case Answer(i, j, reply) =>
      var r := s.requests[i];
      s.(requests := s.requests[i := r.(replies := r.replies[j := Some(reply)])])
  }

  // ---- what every run keeps ----

  /** The last committed write of a key. */
  function LastFor(log: seq<Write>, k: Key): Option<Write> {
    if log == [] then None
    else if log[|log| - 1].key == k then Some(log[|log| - 1])
    else LastFor(log[..|log| - 1], k)
  }

  ghost predicate PrimaryIsLast(s: State) {
    forall k :: LastFor(s.log, k) == if k in s.primary then Some(s.primary[k]) else None
  }

  ghost predicate LogSound(s: State) {
    && (forall i | 0 <= i < |s.requests| && s.requests[i].phase == Committed :: s.requests[i].write in s.log)
    && (forall w | w in s.log :: FromRequest(s, w))
    && (forall w, b | (w, b) in s.delivered :: w in s.log && b < |s.backups|)
  }

  ghost predicate FromRequest(s: State, w: Write) {
    exists i | 0 <= i < |s.requests| :: s.requests[i].write == w && s.requests[i].phase == Committed
  }

  /** A backup holds one of the writes it received, and none it received is later. */
  ghost predicate BackupIsJoin(s: State, b: nat)
    requires b < |s.backups|
  {
    && (forall k | k in s.backups[b] :: s.backups[b][k].key == k && (s.backups[b][k], b) in s.delivered)
    && (forall w: Write {:trigger (w, b) in s.delivered} | (w, b) in s.delivered ::
          w.key in s.backups[b] && w.stamp <= s.backups[b][w.key].stamp)
  }

  ghost predicate BackupsAreJoins(s: State) {
    forall b | 0 <= b < |s.backups| :: BackupIsJoin(s, b)
  }

  ghost predicate AcksDelivered(s: State) {
    forall i | 0 <= i < |s.requests| :: RequestSound(s, s.requests[i])
  }

  ghost predicate RequestSound(s: State, r: Request) {
    && r.write.stamp <= s.clock
    && |r.replies| == |r.backups| && Distinct(r.backups)
    && forall j | 0 <= j < |r.replies| ::
         r.replies[j].Some? && IsAck(r.replies[j].value) ==> (r.write, r.backups[j]) in s.delivered
  }

  ghost predicate Inv(s: State) {
    PrimaryIsLast(s) && LogSound(s) && BackupsAreJoins(s) && AcksDelivered(s)
  }

  lemma {:induction false} PrimaryIsLastKept(s: State, a: Action)
    requires PrimaryIsLast(s) && Enabled(s, a)
    ensures PrimaryIsLast(Apply(s, a))
  {
    if a.Commit? && ConditionHolds(s, s.requests[a.i]) {
      var s' := Apply(s, a);
      assert s'.log[..|s'.log| - 1] == s.log;
    }
  }

  lemma {:induction false} LogSoundKept(s: State, a: Action)
    requires LogSound(s) && Enabled(s, a)
    ensures LogSound(Apply(s, a))
  {
    var s' := Apply(s, a);
    forall w | w in s'.log ensures FromRequest(s', w) {
      if w in s.log {
        var i :| 0 <= i < |s.requests| && s.requests[i].write == w && s.requests[i].phase == Committed;
        assert s'.requests[i].write == w && s'.requests[i].phase == Committed;
      } else {
        assert s'.requests[a.i].write == w && s'.requests[a.i].phase == Committed;
      }
    }
  }

  lemma {:induction false} BackupsAreJoinsKept(s: State, a: Action)
    requires BackupsAreJoins(s) && Enabled(s, a)
    requires forall w, b | (w, b) in s.delivered :: w in s.log && b < |s.backups|
    ensures BackupsAreJoins(Apply(s, a))
  {
    var s' := Apply(s, a);
    forall b | 0 <= b < |s'.backups| ensures BackupIsJoin(s', b) {
      assert BackupIsJoin(s, b);
    }
  }

  lemma {:induction false} AcksDeliveredKept(s: State, a: Action)
    requires AcksDelivered(s) && Enabled(s, a)
    ensures AcksDelivered(Apply(s, a))
  {
    var s' := Apply(s, a);
    forall i | 0 <= i < |s'.requests| ensures RequestSound(s', s'.requests[i]) {
      if i < |s.requests| {
        assert RequestSound(s, s.requests[i]);
      }
    }
  }

  lemma {:induction false} InvKept(s: State, a: Action)
    requires Inv(s) && Enabled(s, a)
    ensures Inv(Apply(s, a))
  {
    PrimaryIsLastKept(s, a);
    LogSoundKept(s, a);
    BackupsAreJoinsKept(s, a);
    AcksDeliveredKept(s, a);
  }
}
