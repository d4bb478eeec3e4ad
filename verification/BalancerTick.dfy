/** One balancer tick on one node: planning, exporting, sending and clearing. */
module BalancerTick {
  import opened Wrappers
  import opened Bytes
  import opened Entries
  import opened Migration
  import opened Balancer

  // ---- exactly when a migration keeps a key ----

  /** After a complete import the receiver holds the sender's entry or its own, whichever is newer. */
  lemma {:induction false} ImportOfExport(
    sender: Store, receiver: Store, part: Partitioner, p: U32, now: I64, es: seq<Entry>, k: Key)
    requires IsExport(sender, part, p, now, es) && Keyed(sender)
    requires k in sender && part(k) == p && !IsExpired(sender[k], now)
    ensures k in Import(receiver, es)
    ensures Import(receiver, es)[k] == if Wins(receiver, sender[k]) then sender[k] else receiver[k]
  {
    ImportJoins(receiver, es);
    assert sender[k] in es;
    if k in receiver && receiver[k].timestampNanos == sender[k].timestampNanos {
      TieKeepsOld(receiver, es, k, sender[k].timestampNanos);
    }
  }

  lemma {:induction false} TieKeepsOld(store: Store, es: seq<Entry>, k: Key, t: I64)
    requires k in store && store[k].timestampNanos >= t
    requires forall e | e in es && e.key == k :: e.timestampNanos <= t
    ensures k in Import(store, es) && Import(store, es)[k] == store[k]
  {
    if es != [] {
      TieKeepsOld(store, es[..|es| - 1], k, t);
    }
  }

  /**
   Moving a partition keeps an unexpired entry, as itself or as a newer unexpired one, exactly when
   the receiver does not already hold an expired copy that is at least as new.
   */
  lemma {:induction false} MoveKeepsIff(
    sender: Store, receiver: Store, part: Partitioner, p: U32, now: I64, es: seq<Entry>, k: Key)
    requires IsExport(sender, part, p, now, es) && Keyed(sender)
    requires k in sender && part(k) == p && !IsExpired(sender[k], now)
    ensures var after := Import(receiver, es);
      (Has(after, k, sender[k].timestampNanos) && !IsExpired(after[k], now))
      <==> !(Has(receiver, k, sender[k].timestampNanos) && IsExpired(receiver[k], now))
  {
    ImportOfExport(sender, receiver, part, p, now, es, k);
  }

  /** A write that reaches a node between its export and its clear is lost there. */
  lemma {:induction false} DisturbedClearLosesWrite(s: State, part: Partitioner, n: nat, e: Entry)
    requires Shaped(s) && n < |s.stores| && s.tasks[n] == Clearing(part(e.key))
    requires forall m | 0 <= m < |s.stores| && m != n :: e.key !in s.stores[m]
    ensures var s1 := Apply(s, part, Put(n, e));
      && Shaped(s1) && Enabled(s1, part, Clear(n)) && !Undisturbed(s, part, Put(n, e))
      && forall m | 0 <= m < |s.stores| :: e.key !in Apply(s1, part, Clear(n)).stores[m]
  {
    ShapedKept(s, part, Put(n, e));
  }

  // ---- the source's operations on one node ----

  ghost predicate AllStorable(store: Store) {
    forall k | k in store :: store[k].key == k && Encodable(store[k])
  }

  /** An entry expires when its time to live, if it has one, is reached. */
  lemma {:induction false} ExportedIff(store: Store, part: Partitioner, p: U32, now: I64, es: seq<Entry>, k: Key)
    requires Keyed(store) && IsExport(store, part, p, now, es) && k in store
    ensures store[k] in es <==> part(k) == p && (store[k].ttlNanos == 0 || now < store[k].ttlNanos)
  {
  }

  /** Scans the store and keeps the unexpired entries of the partition. */
  method ExportPartition(store: Store, part: Partitioner, p: U32, now: I64) returns (es: seq<Entry>)
    requires AllStorable(store)
    ensures IsExport(store, part, p, now, es) && AllEncodable(es) && |es| <= |store| && OncePerKey(es)
    ensures forall k | k in store :: store[k] in es <==>
      part(k) == p && (store[k].ttlNanos == 0 || now < store[k].ttlNanos)
  {
    es := [];
    var todo := store.Keys;
    while todo != {}
      invariant todo <= store.Keys && |es| + |todo| <= |store|
      invariant forall e | e in es :: e.key in store && store[e.key] == e && part(e.key) == p && !IsExpired(e, now)
      invariant OncePerKey(es) && forall e | e in es :: e.key !in todo
      invariant forall k | k in store && k !in todo && part(k) == p && !IsExpired(store[k], now) :: store[k] in es
      decreases todo
    {
      var k :| k in todo;
      todo := todo - {k};
      if !IsExpired(store[k], now) && part(k) == p {
        es := es + [store[k]];
      }
    }
    forall i | 0 <= i < |es| ensures Encodable(es[i]) {
      assert es[i] in es;
    }
    forall k | k in store
      ensures store[k] in es <==> part(k) == p && (store[k].ttlNanos == 0 || now < store[k].ttlNanos)
    {
      ExportedIff(store, part, p, now, es, k);
    }
  }

  /** Collects the partition's keys, then deletes them one by one. */
  method ClearPartition(store: Store, part: Partitioner, p: U32) returns (after: Store, deleted: nat)
    ensures after == Cleared(store, part, p) && deleted == |store| - |after|
  {
    var victims := set k | k in store && part(k) == p;
    after := store;
    deleted := 0;
    var todo := victims;
    while todo != {}
      invariant todo <= victims && deleted == |store| - |after|
      invariant after == map k | k in store && (k !in victims || k in todo) :: store[k]
      decreases todo
    {
      var k :| k in todo;
      todo := todo - {k};
      DropKey(after, k);
      after := after - {k};
      deleted := deleted + 1;
    }
  }

  lemma {:induction false} DropKey(store: Store, k: Key)
    requires k in store
    ensures |store - {k}| == |store| - 1
  {
    assert (store - {k}).Keys == store.Keys - {k};
    assert |store.Keys| == |store| && |(store - {k}).Keys| == |store - {k}|;
  }

  /** What becomes of a send: lost, merged by the peer but not confirmed, or confirmed. */
  datatype Fate = Lost | Unconfirmed | Confirmed

  /** The peer no longer lacks, or has nothing older than, any entry that lasts until `end`. */
  ghost predicate Reached(store: Store, part: Partitioner, p: U32, end: I64, peer: Store) {
    forall k | k in store && part(k) == p && !IsExpired(store[k], end) :: Has(peer, k, store[k].timestampNanos)
  }

  ghost predicate OnlyNewer(before: Store, after: Store) {
    forall k | k in before :: Has(after, k, before[k].timestampNanos)
  }

  ghost predicate SmallEnough(store: Store) {
    |store| <= U32_MAX
  }

  /** Exports the partition into the bytes that go over the wire, which carry at most `u32::MAX` entries. */
  method ExportPayload(store: Store, part: Partitioner, p: U32, now: I64)
    returns (payload: seq<Byte>, ghost es: seq<Entry>)
    requires AllStorable(store)
    ensures IsExport(store, part, p, now, es) && |es| <= |store| && OncePerKey(es)
    ensures DecodePayload(payload) == Ok((p, Carried(es))) && (|payload| <= PAYLOAD_HEADER <==> es == [])
  {
    var exported := ExportPartition(store, part, p, now);
    payload := Wire(p, exported);
    es := exported;
  }

  method Wire(p: U32, es: seq<Entry>) returns (payload: seq<Byte>)
    requires AllEncodable(es)
    ensures DecodePayload(payload) == Ok((p, Carried(es))) && (|payload| <= PAYLOAD_HEADER <==> es == [])
  {
    payload := EncodeFragmentPayload(p, es);
    PayloadBack(p, es);
  }

  /** The peer decodes and merges the payload it is sent. */
  method Deliver(peer: Store, p: U32, payload: seq<Byte>, ghost es: seq<Entry>) returns (after: Store)
    requires DecodePayload(payload) == Ok((p, es))
    ensures after == Import(peer, es)
  {
    var r;
    after, r := ImportPartition(peer, p, payload);
  }

  lemma {:induction false} ExportReaches(
    store: Store, peer: Store, part: Partitioner, p: U32, now: I64, end: I64, es: seq<Entry>)
    requires Keyed(store) && IsExport(store, part, p, now, es) && now <= end
    ensures Reached(store, part, p, end, Import(peer, es))
  {
    ImportJoins(peer, es);
    var after := Import(peer, es);
    forall k | k in store && part(k) == p && !IsExpired(store[k], end) ensures Has(after, k, store[k].timestampNanos) {
      assert store[k] in es;
    }
  }

  lemma {:induction false} ImportGains(store: Store, peer: Store, part: Partitioner, p: U32, now: I64, es: seq<Entry>)
    requires AllStorable(store) && AllStorable(peer) && IsExport(store, part, p, now, es)
    ensures AllStorable(Import(peer, Carried(es))) && OnlyNewer(peer, Import(peer, Carried(es)))
  {
    ImportJoins(peer, Carried(es));
    assert forall e | e in Carried(es) :: e in es;
  }

  /** To a peer that has nothing of the partition, a move takes everything exactly when the count can state it. */
  lemma {:induction false} MoveTakesAllIff(
    store: Store, peer: Store, part: Partitioner, p: U32, now: I64, es: seq<Entry>)
    requires Keyed(store) && IsExport(store, part, p, now, es) && OncePerKey(es)
    requires forall k | k in peer :: part(k) != p
    ensures Reached(store, part, p, now, Import(peer, Carried(es))) <==> |es| <= U32_MAX
  {
    if |es| <= U32_MAX {
      ExportReaches(store, peer, part, p, now, now, es);
    } else {
      var cut := es[U32_MAX];
      assert cut in es;
      ImportJoins(peer, Carried(es));
      assert forall i | 0 <= i < |Carried(es)| :: Carried(es)[i] == es[i] && es[i].key != cut.key;
      assert cut.key !in Import(peer, Carried(es));
    }
  }

  lemma {:induction false} ClearedSmaller(store: Store, part: Partitioner, p: U32)
    requires AllStorable(store)
    ensures AllStorable(Cleared(store, part, p)) && |Cleared(store, part, p)| <= |store|
  {
    var c := Cleared(store, part, p);
    SubsetSize(c.Keys, store.Keys);
    assert |c.Keys| == |c| && |store.Keys| == |store|;
  }

  lemma {:induction false} SubsetSize(a: set<Key>, b: set<Key>)
    requires a <= b
    ensures |a| <= |b|
  {
    assert b == a + (b - a);
  }

  /** What a migration may do to the two stores. */
  ghost predicate Migrated(
    store: Store, peer: Store, part: Partitioner, p: U32, end: I64, after: Store, peerAfter: Store)
  {
    && AllStorable(after) && AllStorable(peerAfter) && |after| <= |store|
    && (after == store || after == Cleared(store, part, p))
    && (after != store && SmallEnough(store) ==> Reached(store, part, p, end, peerAfter))
    && OnlyNewer(peer, peerAfter)
  }

  /** Nothing of the partition is left that lasts until `end`. */
  ghost predicate Drained(store: Store, part: Partitioner, p: U32, end: I64) {
    forall k | k in store && part(k) == p :: IsExpired(store[k], end)
  }

  /**
   Export, send unless the payload is only a header, and clear after a confirmed send. Nothing that
   lasts until `end` is gone from a sender that is small enough without having reached the peer, and a
   confirmed send leaves nothing of the partition that lasts until `end`.
   */
  method MigrateOne(store: Store, peer: Store, part: Partitioner, p: U32, now: I64, fate: Fate, ghost end: I64)
    returns (after: Store, peerAfter: Store)
    requires AllStorable(store) && AllStorable(peer) && now <= end
    ensures Migrated(store, peer, part, p, end, after, peerAfter)
    ensures fate == Confirmed ==> Drained(after, part, p, end)
  {
    var payload, es := ExportPayload(store, part, p, now);
    after, peerAfter := store, peer;
    if |payload| <= PAYLOAD_HEADER || fate == Lost {
      return;
    }
    peerAfter := Deliver(peer, p, payload, Carried(es));
    ImportGains(store, peer, part, p, now, es);
    ExportReaches(store, peer, part, p, now, end, es);
    if fate == Unconfirmed {
      return;
    }
    var deleted;
    after, deleted := ClearPartition(store, part, p);
    ClearedSmaller(store, part, p);
  }

  // ---- one tick ----

  /** The partitions held here whose primary is known and is another node, in the order listed. */
  function Planned(local: seq<U32>, primary: map<U32, nat>, n: nat): (plan: seq<U32>)
    ensures forall p :: p in plan <==> p in local && p in primary && primary[p] != n
  {
    if local == [] then []
    else
      var before, p := Planned(local[..|local| - 1], primary, n), local[|local| - 1];
      if p in primary && primary[p] != n then before + [p] else before
  }

  method Plan(local: seq<U32>, primary: map<U32, nat>, n: nat) returns (plan: seq<U32>)
    ensures plan == Planned(local, primary, n)
  {
    plan := [];
    for i := 0 to |local|
      invariant plan == Planned(local[..i], primary, n)
    {
      assert local[..i + 1][..i] == local[..i];
      var p := local[i];
      if p in primary && primary[p] != n {
        plan := plan + [p];
      }
    }
    assert local[..|local|] == local;
  }

  ghost predicate Sound(stores: seq<Store>, n: nat) {
    n < |stores| && forall m | 0 <= m < |stores| :: AllStorable(stores[m])
  }

  ghost predicate Peers(primary: map<U32, nat>, nodes: nat) {
    forall p | p in primary :: primary[p] < nodes
  }

  /** What lasts until `end` is still on node `n`, or its primary has it or something newer. */
  ghost predicate NothingLost(
    before: seq<Store>, after: seq<Store>, n: nat, part: Partitioner, primary: map<U32, nat>, end: I64)
    requires |before| == |after| && n < |before| && Peers(primary, |before|)
  {
    forall k | k in before[n] && !IsExpired(before[n][k], end) ::
      || (k in after[n] && after[n][k] == before[n][k])
      || (part(k) in primary && Has(after[primary[part(k)]], k, before[n][k].timestampNanos))
  }

  /** Node `n` only ever gives up entries of partitions it does not own; the others only gain. */
  ghost predicate OthersGain(
    before: seq<Store>, after: seq<Store>, n: nat, part: Partitioner, primary: map<U32, nat>)
    requires |before| == |after| && n < |before|
  {
    && (forall m | 0 <= m < |before| && m != n :: OnlyNewer(before[m], after[m]))
    && (forall k | k in after[n] :: k in before[n] && after[n][k] == before[n][k])
    && (forall k | k in before[n] && k !in after[n] :: part(k) in primary && primary[part(k)] != n)
  }

  ghost predicate Progress(
    before: seq<Store>, after: seq<Store>, n: nat, part: Partitioner, primary: map<U32, nat>, end: I64)
  {
    && |before| == |after| && n < |before| && Peers(primary, |before|) && Sound(after, n)
    && |after[n]| <= |before[n]|
    && (SmallEnough(before[n]) ==> NothingLost(before, after, n, part, primary, end))
    && OthersGain(before, after, n, part, primary)
  }

  /** One more migration keeps what the tick has kept so far. */
  lemma {:induction false} ProgressStep(
    before: seq<Store>, now: seq<Store>, after: seq<Store>, n: nat, part: Partitioner, primary: map<U32, nat>,
    p: U32, end: I64)
    requires Progress(before, now, n, part, primary, end) && p in primary && primary[p] != n
    requires |after| == |now| && forall m | 0 <= m < |now| && m != n && m != primary[p] :: after[m] == now[m]
    requires Migrated(now[n], now[primary[p]], part, p, end, after[n], after[primary[p]])
    ensures Progress(before, after, n, part, primary, end)
  {
    forall k | SmallEnough(before[n]) && k in before[n] && !IsExpired(before[n][k], end)
      ensures || (k in after[n] && after[n][k] == before[n][k])
              || (part(k) in primary && Has(after[primary[part(k)]], k, before[n][k].timestampNanos))
    {
      if k in now[n] && now[n][k] == before[n][k] {
      } else {
        assert primary[part(k)] != n ==> OnlyNewer(now[primary[part(k)]], after[primary[part(k)]]);
      }
    }
  }

  method MigrateNext(ghost before: seq<Store>, stores: seq<Store>, n: nat, part: Partitioner, primary: map<U32, nat>,
                     p: U32, now: I64, fate: Fate, ghost end: I64)
    returns (after: seq<Store>)
    requires Progress(before, stores, n, part, primary, end) && p in primary && primary[p] != n && now <= end
    ensures Progress(before, after, n, part, primary, end)
    ensures after[n] == stores[n] || after[n] == Cleared(stores[n], part, p)
    ensures fate == Confirmed ==> Drained(after[n], part, p, end)
  {
    var peer := primary[p];
    var mine, theirs := MigrateOne(stores[n], stores[peer], part, p, now, fate, end);
    after := stores[n := mine][peer := theirs];
    ProgressStep(before, stores, after, n, part, primary, p, end);
  }

  /** A migration cannot put back what an earlier one drained. */
  lemma {:induction false} StaysDrained(before: Store, after: Store, part: Partitioner, p: U32, q: U32, end: I64)
    requires Drained(before, part, q, end) && (after == before || after == Cleared(before, part, p))
    ensures Drained(after, part, q, end)
  {
  }

  /**
   A tick on node `n`. `fates[i]` is what becomes of the `i`-th planned send and `clock[i]` the time
   of its export. Nothing that lasts until `end` is lost whatever fails, on a node of at most
   `u32::MAX` entries, and when every send is confirmed no such entry of a partition with another
   primary is left.
   */
  method RunTick(stores: seq<Store>, n: nat, part: Partitioner, local: seq<U32>, primary: map<U32, nat>,
                 clock: seq<I64>, fates: seq<Fate>, ghost end: I64)
    returns (after: seq<Store>, orphans: seq<U32>)
    requires Sound(stores, n) && Peers(primary, |stores|)
    requires forall k | k in stores[n] :: part(k) in local
    requires |clock| == |fates| == |Planned(local, primary, n)|
    requires forall i | 0 <= i < |clock| :: clock[i] <= end
    ensures orphans == Planned(local, primary, n)
    ensures Progress(stores, after, n, part, primary, end)
    ensures |stores[n]| <= U32_MAX ==>
      forall k | k in stores[n] && (stores[n][k].ttlNanos == 0 || end < stores[n][k].ttlNanos) ::
        || (k in after[n] && after[n][k] == stores[n][k])
        || (part(k) in primary && Has(after[primary[part(k)]], k, stores[n][k].timestampNanos))
    ensures (forall i | 0 <= i < |fates| :: fates[i] == Confirmed) ==>
      forall k | k in after[n] && (after[n][k].ttlNanos == 0 || end < after[n][k].ttlNanos) ::
        part(k) in primary ==> primary[part(k)] == n
    ensures (forall i | 0 <= i < |fates| :: fates[i] == Confirmed) ==>
      forall k | k in after[n] && !IsExpired(after[n][k], end) :: part(k) in primary ==> primary[part(k)] == n
  {
    orphans := Plan(local, primary, n);
    after := stores;
    for i := 0 to |orphans|
      invariant Progress(stores, after, n, part, primary, end)
      invariant forall j | 0 <= j < i && fates[j] == Confirmed :: Drained(after[n], part, orphans[j], end)
    {
      var p := orphans[i];
      assert p in orphans;
      ghost var before := after;
      after := MigrateNext(stores, after, n, part, primary, p, clock[i], fates[i], end);
      forall j | 0 <= j < i && fates[j] == Confirmed ensures Drained(after[n], part, orphans[j], end) {
        StaysDrained(before[n], after[n], part, p, orphans[j], end);
      }
    }
    if forall i | 0 <= i < |fates| :: fates[i] == Confirmed {
      DrainedIsOwned(after[n], part, orphans, end);
    }
  }

  /** With every planned partition drained, what lasts is in none of them. */
  lemma {:induction false} DrainedIsOwned(store: Store, part: Partitioner, plan: seq<U32>, end: I64)
    requires forall j | 0 <= j < |plan| :: Drained(store, part, plan[j], end)
    ensures forall k | k in store && !IsExpired(store[k], end) :: part(k) !in plan
  {
  }
}
