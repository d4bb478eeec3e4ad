/**
 Partition migration as interleaved steps: every node exports, sends and clears partitions it does not
 own, and a send may fail before or after the receiver merges, or be merged long after it has failed.
 One map; maps do not interact.
 */
module Balancer {
  import opened Wrappers
  import opened Bytes
  import opened Entries
  import opened Migration

  type Key = seq<Byte>
  type Partitioner = Key -> U32

  /** A node's balancer: `send` names the send it awaits an answer to. */
  datatype Task =
    | Idle
    | Sending(p: U32, send: nat)
    | Clearing(p: U32)

  /** A payload on its way to `peer`; `merged` once the peer has merged all of it. */
  datatype Send = Send(p: U32, peer: nat, payload: seq<Entry>, merged: bool)

  /** `sent` keeps every payload for good: it may still arrive long after its sender gave up. */
  datatype State = State(stores: seq<Store>, tasks: seq<Task>, sent: seq<Send>)

  datatype Action =
    | Export(n: nat, p: U32, peer: nat, now: I64, es: seq<Entry>)
    | Receive(i: nat, upto: nat)     // the peer of send `i` merges that many of its entries
    | Ack(n: nat)
    | Fail(n: nat)                   // the sender sees an error or a timeout, whatever the peer did or will do
    | Clear(n: nat)
    | Put(n: nat, e: Entry)          // an unconditional write at node `n`

  // ---- steps ----

  ghost predicate Keyed(store: Store) {
    forall k | k in store :: store[k].key == k
  }

  /** `es` lists exactly the partition's entries that have not expired. */
  ghost predicate IsExport(store: Store, part: Partitioner, p: U32, now: I64, es: seq<Entry>) {
    && (forall e | e in es :: e.key in store && store[e.key] == e && part(e.key) == p && !IsExpired(e, now))
    && (forall k | k in store && part(k) == p && !IsExpired(store[k], now) :: store[k] in es)
  }

  function Cleared(store: Store, part: Partitioner, p: U32): Store {
    map k | k in store && part(k) != p :: store[k]
  }

  ghost predicate Shaped(s: State) {
    && |s.tasks| == |s.stores|
    && (forall n | 0 <= n < |s.stores| :: Keyed(s.stores[n]))
    && (forall i | 0 <= i < |s.sent| :: s.sent[i].peer < |s.stores|)
    && (forall n | 0 <= n < |s.tasks| && s.tasks[n].Sending? :: Awaits(s, n))
  }

  /** The send a node waits for is one of its partition to another node. */
  predicate Awaits(s: State, n: nat)
    requires n < |s.tasks| && s.tasks[n].Sending?
  {
    var task := s.tasks[n];
    task.send < |s.sent| && s.sent[task.send].p == task.p && s.sent[task.send].peer != n
  }

  ghost predicate Enabled(s: State, part: Partitioner, a: Action)
    requires Shaped(s)
  {
    match a
    case Export(n, p, peer, now, es) =>
      && n < |s.stores| && s.tasks[n].Idle? && peer < |s.stores| && peer != n
      && IsExport(s.stores[n], part, p, now, es)
    case Receive(i, upto) => i < |s.sent| && upto <= |s.sent[i].payload|
    case Ack(n) => n < |s.stores| && s.tasks[n].Sending? && s.sent[s.tasks[n].send].merged
    case Fail(n) => n < |s.stores| && s.tasks[n].Sending?
    case Clear(n) => n < |s.stores| && s.tasks[n].Clearing?
    case Put(n, _) => n < |s.stores|
  }

  ghost function Apply(s: State, part: Partitioner, a: Action): State
    requires Shaped(s) && Enabled(s, part, a)
  {
    match a
    case Export(n, p, peer, _, es) =>
      if es == [] then s
      else s.(tasks := s.tasks[n := Sending(p, |s.sent|)], sent := s.sent + [Send(p, peer, es, false)])
    case Receive(i, upto) =>
      var m := s.sent[i];
      s.(stores := s.stores[m.peer := Import(s.stores[m.peer], m.payload[..upto])],
         sent := s.sent[i := m.(merged := m.merged || upto == |m.payload|)])
    case Ack(n) => s.(tasks := s.tasks[n := Clearing(s.tasks[n].p)])
    case Fail(n) => s.(tasks := s.tasks[n := Idle])
    case Clear(n) =>
      s.(stores := s.stores[n := Cleared(s.stores[n], part, s.tasks[n].p)], tasks := s.tasks[n := Idle])
    case Put(n, e) => s.(stores := s.stores[n := s.stores[n][e.key := e]])
  }

  predicate Busy(task: Task, p: U32) {
    !task.Idle? && task.p == p
  }

  /** No write, and no merge however late, reaches a node between its export and its clear of that partition. */
  predicate Undisturbed(s: State, part: Partitioner, a: Action) {
    match a
    case Receive(i, _) =>
      i < |s.sent| && s.sent[i].peer < |s.tasks| ==> !Busy(s.tasks[s.sent[i].peer], s.sent[i].p)
    case Put(n, e) => n < |s.tasks| ==> !Busy(s.tasks[n], part(e.key))
    case _ => true
  }

  // ---- what undisturbed runs keep ----

  ghost predicate PayloadsTyped(s: State, part: Partitioner) {
    forall i | 0 <= i < |s.sent| :: OfPartition(s.sent[i].payload, part, s.sent[i].p)
  }

  ghost predicate OfPartition(es: seq<Entry>, part: Partitioner, p: U32) {
    forall e | e in es :: part(e.key) == p
  }

  /** What a sender holds, and will not have expired by `end`, is in the payload it awaits an answer to. */
  ghost predicate PayloadComplete(s: State, part: Partitioner, end: I64, n: nat)
    requires Shaped(s) && n < |s.stores|
  {
    s.tasks[n].Sending? ==>
      forall k | k in s.stores[n] && part(k) == s.tasks[n].p && !IsExpired(s.stores[n][k], end) ::
        s.stores[n][k] in s.sent[s.tasks[n].send].payload
  }

  ghost predicate Inv(s: State, part: Partitioner, end: I64) {
    Shaped(s) && PayloadsTyped(s, part) && forall n | 0 <= n < |s.stores| :: PayloadComplete(s, part, end, n)
  }

  /** The time at which an action reads the clock is not past `end`. */
  predicate Before(a: Action, end: I64) {
    a.Export? ==> a.now <= end
  }

  lemma {:induction false} ImportKeyed(store: Store, es: seq<Entry>)
    requires Keyed(store)
    ensures Keyed(Import(store, es))
  {
    ImportJoins(store, es);
  }

  /** Entries of one partition leave the keys of the others alone. */
  lemma {:induction false} ImportElsewhere(store: Store, es: seq<Entry>, part: Partitioner, p: U32, k: Key)
    requires OfPartition(es, part, p) && part(k) != p
    ensures k in Import(store, es) <==> k in store
    ensures k in store ==> Import(store, es)[k] == store[k]
  {
    if es != [] {
      ImportElsewhere(store, es[..|es| - 1], part, p, k);
    }
  }

  lemma {:induction false} ShapedKept(s: State, part: Partitioner, a: Action)
    requires Shaped(s) && Enabled(s, part, a)
    ensures Shaped(Apply(s, part, a))
  {
    var s' := Apply(s, part, a);
    if a.Receive? {
      ImportKeyed(s.stores[s.sent[a.i].peer], s.sent[a.i].payload[..a.upto]);
    }
    forall n | 0 <= n < |s'.tasks| && s'.tasks[n].Sending? ensures Awaits(s', n) {
      assert s.tasks[n].Sending? ==> Awaits(s, n);
    }
  }

  lemma {:induction false} InvKept(s: State, part: Partitioner, end: I64, a: Action)
    requires Inv(s, part, end) && Enabled(s, part, a) && Undisturbed(s, part, a) && Before(a, end)
    ensures Inv(Apply(s, part, a), part, end)
  {
    ShapedKept(s, part, a);
    var s' := Apply(s, part, a);
    assert PayloadsTyped(s', part);
    forall n | 0 <= n < |s'.stores| ensures PayloadComplete(s', part, end, n) {
      assert PayloadComplete(s, part, end, n);
      if s.tasks[n].Sending? {
        assert Awaits(s, n);
      }
      if a.Receive? && n == s.sent[a.i].peer {
        PeerPayloadKept(s, part, end, a);
      }
    }
  }

  /** A receiver busy with another partition keeps its own payload complete. */
  lemma {:induction false} PeerPayloadKept(s: State, part: Partitioner, end: I64, a: Action)
    requires Inv(s, part, end) && a.Receive? && Enabled(s, part, a) && Undisturbed(s, part, a)
    ensures var s' := Apply(s, part, a);
      Shaped(s') && s.sent[a.i].peer < |s'.stores| && PayloadComplete(s', part, end, s.sent[a.i].peer)
  {
    ShapedKept(s, part, a);
    var m, p := s.sent[a.i].peer, s.sent[a.i].p;
    var es := s.sent[a.i].payload[..a.upto];
    assert OfPartition(s.sent[a.i].payload, part, p) && PayloadComplete(s, part, end, m);
    if s.tasks[m].Sending? {
      assert Awaits(s, m);
      forall k | part(k) != p ensures k in Import(s.stores[m], es) <==> k in s.stores[m]
      ensures k in s.stores[m] ==> Import(s.stores[m], es)[k] == s.stores[m][k]
      {
        ImportElsewhere(s.stores[m], es, part, p, k);
      }
    }
  }

  // ---- survival ----

  /** A copy of `k` stamped `t` or later. */
  predicate Copy(e: Entry, k: Key, t: I64) {
    e.key == k && e.timestampNanos >= t
  }

  predicate Has(store: Store, k: Key, t: I64) {
    k in store && store[k].timestampNanos >= t
  }

  /** The node will clear the partition, or may as soon as it hears of the merge. */
  predicate Doomed(s: State, n: nat, p: U32)
    requires n < |s.tasks|
  {
    var task := s.tasks[n];
    Busy(task, p) && (task.Sending? ==> task.send < |s.sent| && s.sent[task.send].merged)
  }

  predicate Keeps(s: State, part: Partitioner, n: nat, k: Key, t: I64)
    requires n < |s.stores| && |s.tasks| == |s.stores|
  {
    Has(s.stores[n], k, t) && !Doomed(s, n, part(k))
  }

  ghost predicate Kept(s: State, part: Partitioner, k: Key, t: I64)
    requires |s.tasks| == |s.stores|
  {
    exists m | 0 <= m < |s.stores| :: Keeps(s, part, m, k, t)
  }

  /** No copy of `k` stamped `t` or later, stored or ever sent, has expired by `end`. */
  ghost predicate NoneExpired(s: State, k: Key, t: I64, end: I64) {
    && (forall n | 0 <= n < |s.stores| :: Has(s.stores[n], k, t) ==> !IsExpired(s.stores[n][k], end))
    && (forall i | 0 <= i < |s.sent| :: NoneExpiredIn(s.sent[i].payload, k, t, end))
  }

  ghost predicate NoneExpiredIn(es: seq<Entry>, k: Key, t: I64, end: I64) {
    forall e | e in es :: Copy(e, k, t) ==> !IsExpired(e, end)
  }

  /** Writes of `k` are not older than `t` and last until `end`. */
  predicate Renews(a: Action, k: Key, t: I64, end: I64) {
    a.Put? && a.e.key == k ==> a.e.timestampNanos >= t && !IsExpired(a.e, end)
  }

  lemma {:induction false} NoneExpiredKept(s: State, part: Partitioner, a: Action, k: Key, t: I64, end: I64)
    requires Shaped(s) && Enabled(s, part, a) && Renews(a, k, t, end) && NoneExpired(s, k, t, end)
    ensures NoneExpired(Apply(s, part, a), k, t, end)
  {
    if a.Receive? {
      var m := s.sent[a.i];
      ImportJoins(s.stores[m.peer], m.payload[..a.upto]);
      assert NoneExpiredIn(m.payload, k, t, end);
      assert forall e | e in m.payload[..a.upto] :: e in m.payload;
    }
  }

  /** Whoever a complete merge dooms, the receiver now keeps what they were keeping. */
  lemma {:induction false} MergeHandsOver(s: State, part: Partitioner, a: Action, k: Key, t: I64, end: I64)
    requires Inv(s, part, end) && a.Receive? && Enabled(s, part, a) && Undisturbed(s, part, a)
    requires NoneExpired(s, k, t, end) && Kept(s, part, k, t)
    ensures var s' := Apply(s, part, a); |s'.tasks| == |s'.stores| && Kept(s', part, k, t)
  {
    var s', m, es := Apply(s, part, a), s.sent[a.i].peer, s.sent[a.i].payload[..a.upto];
    ImportJoins(s.stores[m], es);
    var w :| 0 <= w < |s.stores| && Keeps(s, part, w, k, t);
    if s.tasks[w].Sending? {
      assert Awaits(s, w);
    }
    if w != m && Doomed(s', w, part(k)) {
      assert PayloadComplete(s, part, end, w);
      assert es == s.sent[a.i].payload && s.stores[w][k] in es;
      assert Keeps(s', part, m, k, t);
    } else {
      assert Keeps(s', part, w, k, t);
    }
  }

  lemma {:induction false} KeptByStep(s: State, part: Partitioner, a: Action, k: Key, t: I64, end: I64)
    requires Inv(s, part, end) && Enabled(s, part, a) && Undisturbed(s, part, a) && Renews(a, k, t, end)
    requires NoneExpired(s, k, t, end) && Kept(s, part, k, t)
    ensures var s' := Apply(s, part, a); |s'.tasks| == |s'.stores| && Kept(s', part, k, t)
  {
    if a.Receive? {
      MergeHandsOver(s, part, a, k, t, end);
    } else {
      var s' := Apply(s, part, a);
      var w :| 0 <= w < |s.stores| && Keeps(s, part, w, k, t);
      if s.tasks[w].Sending? {
        assert Awaits(s, w);
      }
      assert Keeps(s', part, w, k, t);
    }
  }

  // ---- runs ----

  ghost function Run(s: State, part: Partitioner, actions: seq<Action>): (r: Option<State>)
    requires Shaped(s)
    ensures r.Some? ==> Shaped(r.value)
  {
    if actions == [] then Some(s)
    else
      var before := Run(s, part, actions[..|actions| - 1]);
      var a := actions[|actions| - 1];
      if before.None? || !Enabled(before.value, part, a) then None
      else
        ShapedKept(before.value, part, a);
        Some(Apply(before.value, part, a))
  }

  ghost predicate Quiet(s: State, part: Partitioner, actions: seq<Action>)
    requires Shaped(s)
  {
    actions == [] ||
    var before := Run(s, part, actions[..|actions| - 1]);
    && Quiet(s, part, actions[..|actions| - 1])
    && (before.Some? ==> Undisturbed(before.value, part, actions[|actions| - 1]))
  }

  lemma {:induction false} RunKeeps(s: State, part: Partitioner, actions: seq<Action>, k: Key, t: I64, end: I64)
    requires Inv(s, part, end) && Quiet(s, part, actions) && Run(s, part, actions).Some?
    requires forall a | a in actions :: Before(a, end) && Renews(a, k, t, end)
    requires NoneExpired(s, k, t, end) && Kept(s, part, k, t)
    ensures var r := Run(s, part, actions).value; Inv(r, part, end) && NoneExpired(r, k, t, end) && Kept(r, part, k, t)
  {
    if actions != [] {
      var init, a := actions[..|actions| - 1], actions[|actions| - 1];
      RunKeeps(s, part, init, k, t, end);
      var m := Run(s, part, init).value;
      InvKept(m, part, end, a);
      NoneExpiredKept(m, part, a, k, t, end);
      KeptByStep(m, part, a, k, t, end);
    }
  }

  /**
   Whatever order sends, merges, failures and clears take on however many nodes, and however late or
   often a payload arrives, a copy of a key stays somewhere, unexpired and no older - provided nothing
   disturbs a migration under way and no copy at least as new has expired.
   */
  lemma {:induction false} NewestCopySurvives(
    s: State, part: Partitioner, actions: seq<Action>, k: Key, n: nat, end: I64)
    requires Shaped(s) && PayloadsTyped(s, part) && (forall m | 0 <= m < |s.tasks| :: s.tasks[m].Idle?)
    requires Quiet(s, part, actions) && Run(s, part, actions).Some?
    requires n < |s.stores| && k in s.stores[n]
    requires NoneExpired(s, k, s.stores[n][k].timestampNanos, end)
    requires forall a | a in actions :: Before(a, end) && Renews(a, k, s.stores[n][k].timestampNanos, end)
    ensures var r := Run(s, part, actions).value;
      exists m | 0 <= m < |r.stores| ::
        Has(r.stores[m], k, s.stores[n][k].timestampNanos) && !IsExpired(r.stores[m][k], end)
  {
    var t := s.stores[n][k].timestampNanos;
    assert Keeps(s, part, n, k, t);
    assert Inv(s, part, end);
    RunKeeps(s, part, actions, k, t, end);
    var r := Run(s, part, actions).value;
    var m :| 0 <= m < |r.stores| && Keeps(r, part, m, k, t);
  }

  /** Every copy of the key stamped `t` or later, stored or ever sent, is without a time to live. */
  ghost predicate OnlyPermanent(s: State, k: Key, t: I64) {
    && (forall n | 0 <= n < |s.stores| :: Has(s.stores[n], k, t) ==> s.stores[n][k].ttlNanos == 0)
    && (forall i | 0 <= i < |s.sent| ::
          forall e | e in s.sent[i].payload :: e.key == k && e.timestampNanos >= t ==> e.ttlNanos == 0)
  }

  /** Writes of `k` are not older than `t` and have no time to live. */
  predicate WritesPermanent(a: Action, k: Key, t: I64) {
    a.Put? && a.e.key == k ==> a.e.timestampNanos >= t && a.e.ttlNanos == 0
  }

  /** The same for keys without a time to live, whatever the time: they are never lost. */
  lemma {:induction false} PermanentCopySurvives(
    s: State, part: Partitioner, actions: seq<Action>, k: Key, n: nat)
    requires Shaped(s) && PayloadsTyped(s, part) && (forall m | 0 <= m < |s.tasks| :: s.tasks[m].Idle?)
    requires Quiet(s, part, actions) && Run(s, part, actions).Some?
    requires n < |s.stores| && k in s.stores[n]
    requires OnlyPermanent(s, k, s.stores[n][k].timestampNanos)
    requires forall a | a in actions :: WritesPermanent(a, k, s.stores[n][k].timestampNanos)
    ensures var r := Run(s, part, actions).value;
      exists m | 0 <= m < |r.stores| ::
        Has(r.stores[m], k, s.stores[n][k].timestampNanos) && r.stores[m][k].ttlNanos == 0
  {
    var t := s.stores[n][k].timestampNanos;
    forall i | 0 <= i < |s.sent| ensures NoneExpiredIn(s.sent[i].payload, k, t, I64_MAX) {
    }
    NewestCopySurvives(s, part, actions, k, n, I64_MAX);
  }

  lemma {:induction false} RunStep(s: State, part: Partitioner, actions: seq<Action>, a: Action, m: State)
    requires Shaped(s) && Run(s, part, actions) == Some(m) && Enabled(m, part, a)
    ensures Run(s, part, actions + [a]) == Some(Apply(m, part, a)) && Shaped(Apply(m, part, a))
  {
    assert (actions + [a])[..|actions|] == actions;
    ShapedKept(m, part, a);
  }

  lemma {:induction false} RunOnce(s: State, part: Partitioner, a: Action)
    requires Shaped(s) && Enabled(s, part, a)
    ensures Run(s, part, [a]) == Some(Apply(s, part, a)) && Shaped(Apply(s, part, a))
  {
    assert [a][..0] == [];
    assert Run(s, part, []) == Some(s);
    ShapedKept(s, part, a);
  }

  /** An idle node can move a partition: the peer merges all of it and only then the node clears it. */
  lemma {:induction false} MigrationCanComplete(
    s: State, part: Partitioner, n: nat, p: U32, peer: nat, now: I64, es: seq<Entry>)
    returns (actions: seq<Action>, r: State)
    requires Shaped(s) && n < |s.stores| && s.tasks[n].Idle? && peer < |s.stores| && peer != n && es != []
    requires IsExport(s.stores[n], part, p, now, es)
    ensures Run(s, part, actions) == Some(r) && r.tasks == s.tasks
    ensures r.stores == s.stores[peer := Import(s.stores[peer], es)][n := Cleared(s.stores[n], part, p)]
  {
    var i := |s.sent|;
    RunOnce(s, part, Export(n, p, peer, now, es));
    var s1 := Apply(s, part, Export(n, p, peer, now, es));
    var a1 := [Export(n, p, peer, now, es)];
    RunStep(s, part, a1, Receive(i, |es|), s1);
    var s2 := Apply(s1, part, Receive(i, |es|));
    assert es[..|es|] == es;
    RunStep(s, part, a1 + [Receive(i, |es|)], Ack(n), s2);
    var s3 := Apply(s2, part, Ack(n));
    RunStep(s, part, a1 + [Receive(i, |es|)] + [Ack(n)], Clear(n), s3);
    actions, r := a1 + [Receive(i, |es|)] + [Ack(n)] + [Clear(n)], Apply(s3, part, Clear(n));
    assert r.tasks == s.tasks;
  }
}
