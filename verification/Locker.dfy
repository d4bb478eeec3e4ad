/**
 The per-key lock registry as interleaved atomic steps: one program counter per thread, the map
 guarded by its own mutex, and the reference counts and inner mutexes of the entries.
 */
module Locker {
  import opened Wrappers
  import opened Bytes

  datatype Key = Key(dmap: string, key: seq<Byte>)

  /**
   Where a thread stands. `owns` says that it still holds the inner mutex: dropping a guard first
   runs the clean-up and only then releases the inner mutex.
   */
  datatype Pc =
    | Idle
    | Cloned(key: Key, entry: nat)                  // has the entry, has not counted itself
    | Waiting(key: Key, entry: nat)                 // counted, awaiting the inner mutex
    | Holding(key: Key, entry: nat)
    | Sweeping(key: Key, entry: nat, owns: bool)    // brought the count to zero, will lock the map
    | Removing(key: Key, entry: nat, owns: bool)    // holds the map, saw a zero count
    | Unlocking(key: Key, entry: nat)               // will release the inner mutex

  datatype LockEntry = LockEntry(key: Key, refcount: int, owner: Option<nat>)

  /** Entries are named by their place of allocation; `mapOwner` holds the registry's mutex. */
  datatype State = State(threads: seq<Pc>, entries: seq<LockEntry>, registry: map<Key, nat>, mapOwner: Option<nat>)

  datatype Action =
    | Clone(t: nat, key: Key)
    | Count(t: nat)
    | Acquire(t: nat)
    | Leave(t: nat)       // a waiter's timeout or a holder's drop
    | Sweep(t: nat)
    | Remove(t: nat)
    | Unlock(t: nat)

  /** `n` idle threads and an empty registry. */
  function Start(n: nat): State {
    State(seq(n, _ => Idle), [], map[], None)
  }

  // ---- steps ----

  /** Threads refer to allocated entries of their key, and so does the registry. */
  ghost predicate Typed(s: State) {
    && (forall t | 0 <= t < |s.threads| :: PcTyped(s, s.threads[t]))
    && (forall k | k in s.registry :: s.registry[k] < |s.entries| && s.entries[s.registry[k]].key == k)
  }

  predicate PcTyped(s: State, pc: Pc) {
    pc.Idle? || (pc.entry < |s.entries| && s.entries[pc.entry].key == pc.key)
  }

  predicate Enabled(s: State, a: Action) {
    a.t < |s.threads| &&
    var pc := s.threads[a.t];
    (pc.Idle? || pc.entry < |s.entries|) &&
    match a
    case Clone(_, _) => pc.Idle? && s.mapOwner.None?
    case Count(_) => pc.Cloned?
    case Acquire(_) => pc.Waiting? && s.entries[pc.entry].owner.None?
    case Leave(_) => pc.Waiting? || pc.Holding?
    case Sweep(_) => pc.Sweeping? && s.mapOwner.None?
    case Remove(_) => pc.Removing?
    case Unlock(_) => pc.Unlocking?
  }

  function SetThread(s: State, t: nat, pc: Pc): State
    requires t < |s.threads|
  {
    s.(threads := s.threads[t := pc])
  }

  function SetEntry(s: State, e: nat, entry: LockEntry): State
    requires e < |s.entries|
  {
    s.(entries := s.entries[e := entry])
  }

  /** The clean-up is over: a guard being dropped goes on to release the inner mutex. */
  function Done(pc: Pc): Pc
    requires pc.Sweeping? || pc.Removing?
  {
    if pc.owns then Unlocking(pc.key, pc.entry) else Idle
  }

  function Apply(s: State, a: Action): State
    requires Enabled(s, a)
  {
    var t, pc := a.t, s.threads[a.t];
    match a
    case Clone(_, k) =>
      if k in s.registry then SetThread(s, t, Cloned(k, s.registry[k]))
      else
        var e := |s.entries|;
        SetThread(s.(entries := s.entries + [LockEntry(k, 0, None)], registry := s.registry[k := e]), t, Cloned(k, e))
    case Count(_) =>
      var entry := s.entries[pc.entry];
      SetThread(SetEntry(s, pc.entry, entry.(refcount := entry.refcount + 1)), t, Waiting(pc.key, pc.entry))
    case Acquire(_) =>
      SetThread(SetEntry(s, pc.entry, s.entries[pc.entry].(owner := Some(t))), t, Holding(pc.key, pc.entry))
    case Leave(_) =>
      var entry := s.entries[pc.entry];
      var next :=
        if entry.refcount == 1 then Sweeping(pc.key, pc.entry, pc.Holding?)
        else if pc.Holding? then Unlocking(pc.key, pc.entry) else Idle;
      SetThread(SetEntry(s, pc.entry, entry.(refcount := entry.refcount - 1)), t, next)
    case Sweep(_) =>
      if s.entries[pc.entry].refcount != 0 then SetThread(s, t, Done(pc))
      else SetThread(s, t, Removing(pc.key, pc.entry, pc.owns)).(mapOwner := Some(t))
    case Remove(_) =>
      var registry :=
        if pc.key in s.registry && s.registry[pc.key] == pc.entry then s.registry - {pc.key} else s.registry;
      SetThread(s, t, Done(pc)).(registry := registry, mapOwner := None)
    case Unlock(_) =>
      SetThread(SetEntry(s, pc.entry, s.entries[pc.entry].(owner := None)), t, Idle)
  }

  // ---- what every interleaving keeps ----

  /** A holder or a waiter of entry `e`. */
  predicate Counted(pc: Pc, e: nat) {
    (pc.Waiting? || pc.Holding?) && pc.entry == e
  }

  function HoldersAndWaiters(threads: seq<Pc>, e: nat): nat {
    if threads == [] then 0
    else HoldersAndWaiters(threads[..|threads| - 1], e) + (if Counted(threads[|threads| - 1], e) then 1 else 0)
  }

  predicate Owns(pc: Pc, e: nat) {
    match pc
    case Holding(_, x) => x == e
    case Unlocking(_, x) => x == e
    case Sweeping(_, x, owns) => owns && x == e
    case Removing(_, x, owns) => owns && x == e
    case _ => false
  }

  /** About to count itself on `e`, or about to reap `e`. */
  predicate Tends(pc: Pc, e: nat) {
    (pc.Cloned? || pc.Sweeping? || pc.Removing?) && pc.entry == e
  }

  ghost predicate Counts(s: State) {
    forall e | 0 <= e < |s.entries| :: s.entries[e].refcount == HoldersAndWaiters(s.threads, e)
  }

  ghost predicate Owners(s: State) {
    forall e, t | 0 <= e < |s.entries| && 0 <= t < |s.threads| ::
      Owns(s.threads[t], e) <==> s.entries[e].owner == Some(t)
  }

  ghost predicate OwnersExist(s: State) {
    forall e | 0 <= e < |s.entries| :: s.entries[e].owner.Some? ==> s.entries[e].owner.value < |s.threads|
  }

  ghost predicate MapMutex(s: State) {
    && (s.mapOwner.Some? ==> s.mapOwner.value < |s.threads|)
    && forall t | 0 <= t < |s.threads| :: s.threads[t].Removing? <==> s.mapOwner == Some(t)
  }

  ghost predicate Tended(s: State, e: nat) {
    exists t | 0 <= t < |s.threads| :: Tends(s.threads[t], e)
  }

  ghost predicate NoLeak(s: State)
    requires Typed(s)
  {
    forall k | k in s.registry :: s.entries[s.registry[k]].refcount == 0 ==> Tended(s, s.registry[k])
  }

  ghost predicate Inv(s: State) {
    Typed(s) && Counts(s) && Owners(s) && OwnersExist(s) && MapMutex(s) && NoLeak(s)
  }

  lemma {:induction false} CountUpdate(threads: seq<Pc>, t: nat, pc: Pc, e: nat)
    requires t < |threads|
    ensures HoldersAndWaiters(threads[t := pc], e) + (if Counted(threads[t], e) then 1 else 0)
         == HoldersAndWaiters(threads, e) + (if Counted(pc, e) then 1 else 0)
  {
    var n := |threads| - 1;
    if t < n {
      assert threads[t := pc][..n] == threads[..n][t := pc];
      CountUpdate(threads[..n], t, pc, e);
    } else {
      assert threads[t := pc][..n] == threads[..n];
    }
  }

  lemma {:induction false} CountPositive(threads: seq<Pc>, t: nat, e: nat)
    requires t < |threads| && Counted(threads[t], e)
    ensures HoldersAndWaiters(threads, e) > 0
  {
    var n := |threads| - 1;
    if t < n {
      CountPositive(threads[..n], t, e);
    }
  }

  lemma {:induction false} CountUnallocated(threads: seq<Pc>, e: nat)
    requires forall t | 0 <= t < |threads| :: threads[t].Idle? || threads[t].entry < e
    ensures HoldersAndWaiters(threads, e) == 0
  {
    if threads != [] {
      CountUnallocated(threads[..|threads| - 1], e);
    }
  }

  lemma {:induction false} TypedKept(s: State, a: Action)
    requires Typed(s) && Enabled(s, a)
    ensures Typed(Apply(s, a))
  {
  }

  lemma {:induction false} CountsKept(s: State, a: Action)
    requires Typed(s) && Counts(s) && Enabled(s, a)
    ensures Counts(Apply(s, a))
  {
    var s' := Apply(s, a);
    forall e | 0 <= e < |s'.entries| ensures s'.entries[e].refcount == HoldersAndWaiters(s'.threads, e) {
      CountUpdate(s.threads, a.t, s'.threads[a.t], e);
      if e == |s.entries| {
        CountUnallocated(s.threads, e);
      }
    }
  }

  lemma {:induction false} OwnersKept(s: State, a: Action)
    requires Typed(s) && Owners(s) && OwnersExist(s) && Enabled(s, a)
    ensures Owners(Apply(s, a)) && OwnersExist(Apply(s, a))
  {
    var s' := Apply(s, a);
    forall e, t | 0 <= e < |s'.entries| && 0 <= t < |s'.threads|
      ensures Owns(s'.threads[t], e) <==> s'.entries[e].owner == Some(t)
    {
      if e < |s.entries| {
        assert Owns(s.threads[t], e) <==> s.entries[e].owner == Some(t);
      }
    }
  }

  lemma {:induction false} MapMutexKept(s: State, a: Action)
    requires Typed(s) && MapMutex(s) && Enabled(s, a)
    ensures MapMutex(Apply(s, a))
  {
  }

  lemma {:induction false} StillTended(s: State, s': State, t: nat, e: nat)
    requires |s.threads| == |s'.threads| && Tended(s, e)
    requires forall u | 0 <= u < |s.threads| && u != t :: s'.threads[u] == s.threads[u]
    requires t < |s.threads| && (Tends(s.threads[t], e) ==> Tends(s'.threads[t], e))
    ensures Tended(s', e)
  {
    var u :| 0 <= u < |s.threads| && Tends(s.threads[u], e);
    assert Tends(s'.threads[u], e);
  }

  lemma {:induction false} NoLeakKept(s: State, a: Action)
    requires Typed(s) && Counts(s) && NoLeak(s) && Enabled(s, a)
    ensures Typed(Apply(s, a)) && NoLeak(Apply(s, a))
  {
    TypedKept(s, a);
    CountsKept(s, a);
    var s', t := Apply(s, a), a.t;
    forall k | k in s'.registry && s'.entries[s'.registry[k]].refcount == 0 ensures Tended(s', s'.registry[k]) {
      var e := s'.registry[k];
      if Tends(s'.threads[t], e) {
      } else {
        if Counted(s'.threads[t], e) {
          CountPositive(s'.threads, t, e);
        }
        StillTended(s, s', t, e);
      }
    }
  }

  lemma {:induction false} InvKept(s: State, a: Action)
    requires Inv(s) && Enabled(s, a)
    ensures Inv(Apply(s, a))
  {
    TypedKept(s, a);
    CountsKept(s, a);
    OwnersKept(s, a);
    MapMutexKept(s, a);
    NoLeakKept(s, a);
  }

  // ---- runs ----

  /** The state after a sequence of steps, if each was enabled in its turn. */
  function Run(s: State, actions: seq<Action>): Option<State> {
    if actions == [] then Some(s)
    else
      var before := Run(s, actions[..|actions| - 1]);
      var a := actions[|actions| - 1];
      if before.None? || !Enabled(before.value, a) then None else Some(Apply(before.value, a))
  }

  lemma {:induction false} RunKeepsInv(s: State, actions: seq<Action>)
    requires Inv(s)
    ensures Run(s, actions).Some? ==> Inv(Run(s, actions).value)
  {
    if actions != [] && Run(s, actions).Some? {
      var init := actions[..|actions| - 1];
      RunKeepsInv(s, init);
      InvKept(Run(s, init).value, actions[|actions| - 1]);
    }
  }

  lemma {:induction false} StartInv(n: nat)
    ensures Inv(Start(n)) && Safe(Start(n))
  {
  }

  /**
   In every interleaving the counts are exact, a registered entry that nobody counts is about to be
   counted or reaped, and so the registry is empty once every thread is idle.
   */
  lemma {:induction false} RegistryNeverLeaks(n: nat, actions: seq<Action>)
    ensures var r := Run(Start(n), actions);
      r.Some? ==>
      && Counts(r.value) && Typed(r.value) && NoLeak(r.value)
      && ((forall t | 0 <= t < |r.value.threads| :: r.value.threads[t].Idle?) ==> r.value.registry == map[])
  {
    StartInv(n);
    RunKeepsInv(Start(n), actions);
    var r := Run(Start(n), actions);
    if r.Some? && (forall t | 0 <= t < |r.value.threads| :: r.value.threads[t].Idle?) {
      forall k ensures k !in r.value.registry {
        if k in r.value.registry {
          AllIdle(r.value.threads, r.value.registry[k]);
        }
      }
    }
  }

  lemma {:induction false} AllIdle(threads: seq<Pc>, e: nat)
    requires forall t | 0 <= t < |threads| :: threads[t].Idle?
    ensures HoldersAndWaiters(threads, e) == 0
  {
    if threads != [] {
      AllIdle(threads[..|threads| - 1], e);
    }
  }

  // ---- mutual exclusion ----

  predicate Refers(pc: Pc) {
    pc.Cloned? || pc.Waiting? || pc.Holding?
  }

  /** Whoever is on the way in or inside uses the registered entry. */
  ghost predicate Registered(s: State) {
    forall t | 0 <= t < |s.threads| :: Refers(s.threads[t]) ==>
      s.threads[t].key in s.registry && s.registry[s.threads[t].key] == s.threads[t].entry
  }

  predicate ClonedOn(pc: Pc, e: nat) {
    pc.Cloned? && pc.entry == e
  }

  /** The entry being removed is uncounted and nobody is about to count on it. */
  ghost predicate Quiet(s: State)
    requires Typed(s)
  {
    forall t | 0 <= t < |s.threads| :: s.threads[t].Removing? ==>
      && s.entries[s.threads[t].entry].refcount == 0
      && forall u | 0 <= u < |s.threads| :: !ClonedOn(s.threads[u], s.threads[t].entry)
  }

  ghost predicate Safe(s: State) {
    Typed(s) && Registered(s) && Quiet(s)
  }

  /** A reap finds the count at zero only while no thread stands between its clone and its increment. */
  predicate Careful(s: State, a: Action)
    requires Enabled(s, a)
  {
    a.Sweep? && s.entries[s.threads[a.t].entry].refcount == 0 ==>
      forall u | 0 <= u < |s.threads| :: !ClonedOn(s.threads[u], s.threads[a.t].entry)
  }

  lemma {:induction false} QuietKept(s: State, a: Action)
    requires Inv(s) && Safe(s) && Enabled(s, a) && Careful(s, a)
    ensures Typed(Apply(s, a)) && Quiet(Apply(s, a))
  {
    TypedKept(s, a);
    MapMutexKept(s, a);
    var s' := Apply(s, a);
    forall t | 0 <= t < |s'.threads| && s'.threads[t].Removing?
      ensures s'.entries[s'.threads[t].entry].refcount == 0
      ensures forall u | 0 <= u < |s'.threads| :: !ClonedOn(s'.threads[u], s'.threads[t].entry)
    {
      var e := s'.threads[t].entry;
      if t != a.t {
        assert s.threads[t].Removing? && s.mapOwner == Some(t);
        if a.Leave? && s.threads[a.t].entry == e {
          CountPositive(s.threads, a.t, e);
        }
      }
    }
  }

  lemma {:induction false} RegisteredKept(s: State, a: Action)
    requires Inv(s) && Safe(s) && Enabled(s, a)
    ensures Registered(Apply(s, a))
  {
    var s' := Apply(s, a);
    forall u | 0 <= u < |s'.threads| && Refers(s'.threads[u])
      ensures s'.threads[u].key in s'.registry && s'.registry[s'.threads[u].key] == s'.threads[u].entry
    {
      if a.Remove? && u != a.t && s'.threads[u].key == s.threads[a.t].key {
        if Counted(s.threads[u], s.threads[a.t].entry) {
          CountPositive(s.threads, u, s.threads[a.t].entry);
        }
      }
    }
  }

  /** One step keeps the registry faithful exactly when it is careful. */
  lemma {:induction false} SafeKeptIffCareful(s: State, a: Action)
    requires Inv(s) && Safe(s) && Enabled(s, a)
    ensures Safe(Apply(s, a)) <==> Careful(s, a)
  {
    if Careful(s, a) {
      TypedKept(s, a);
      QuietKept(s, a);
      RegisteredKept(s, a);
    } else {
      var e := s.threads[a.t].entry;
      var u :| 0 <= u < |s.threads| && ClonedOn(s.threads[u], e);
      var s' := Apply(s, a);
      assert s'.threads[a.t].Removing? && ClonedOn(s'.threads[u], e);
    }
  }

  predicate CarefulRun(s: State, actions: seq<Action>) {
    actions == [] ||
    var before := Run(s, actions[..|actions| - 1]);
    && CarefulRun(s, actions[..|actions| - 1])
    && (before.Some? && Enabled(before.value, actions[|actions| - 1]) ==> Careful(before.value, actions[|actions| - 1]))
  }

  lemma {:induction false} CarefulRunSafe(s: State, actions: seq<Action>)
    requires Inv(s) && Safe(s) && CarefulRun(s, actions)
    ensures Run(s, actions).Some? ==> Safe(Run(s, actions).value)
  {
    if actions != [] {
      var init := actions[..|actions| - 1];
      CarefulRunSafe(s, init);
      RunKeepsInv(s, init);
      if Run(s, actions).Some? {
        SafeKeptIffCareful(Run(s, init).value, actions[|actions| - 1]);
      }
    }
  }

  ghost predicate Exclusive(s: State) {
    forall t, u | 0 <= t < u < |s.threads| ::
      !(s.threads[t].Holding? && s.threads[u].Holding? && s.threads[t].key == s.threads[u].key)
  }

  lemma {:induction false} SafeIsExclusive(s: State)
    requires Inv(s) && Safe(s)
    ensures Exclusive(s)
    ensures forall e | 0 <= e < |s.entries| && s.entries[e].refcount > 0 ::
      s.entries[e].key in s.registry && s.registry[s.entries[e].key] == e
  {
    forall t, u | 0 <= t < u < |s.threads| && s.threads[t].Holding? && s.threads[u].Holding?
      ensures s.threads[t].key != s.threads[u].key
    {
      assert s.entries[s.threads[t].entry].owner == Some(t);
      assert s.entries[s.threads[u].entry].owner == Some(u);
    }
    forall e | 0 <= e < |s.entries| && s.entries[e].refcount > 0
      ensures s.entries[e].key in s.registry && s.registry[s.entries[e].key] == e
    {
      var t := SomeCounted(s.threads, e);
    }
  }

  lemma {:induction false} SomeCounted(threads: seq<Pc>, e: nat) returns (t: nat)
    requires HoldersAndWaiters(threads, e) > 0
    ensures t < |threads| && Counted(threads[t], e)
  {
    t := |threads| - 1;
    if !Counted(threads[t], e) {
      t := SomeCounted(threads[..t], e);
    }
  }

  /**
   In every interleaving of any number of threads whose reaps are careful, counts equal holders plus
   waiters, every counted entry is the registered one, and no key has two holders.
   */
  lemma {:induction false} CarefulRunsExclude(n: nat, actions: seq<Action>)
    requires CarefulRun(Start(n), actions) && Run(Start(n), actions).Some?
    ensures var s := Run(Start(n), actions).value;
      && Exclusive(s)
      && forall e | 0 <= e < |s.entries| ::
           && s.entries[e].refcount == HoldersAndWaiters(s.threads, e)
           && (s.entries[e].refcount > 0 ==> s.entries[e].key in s.registry && s.registry[s.entries[e].key] == e)
  {
    StartInv(n);
    RunKeepsInv(Start(n), actions);
    CarefulRunSafe(Start(n), actions);
    SafeIsExclusive(Run(Start(n), actions).value);
  }

  // ---- a careless reap ----

  ghost predicate Reaches(s: State, s': State) {
    exists actions :: Run(s, actions) == Some(s')
  }

  lemma {:induction false} ReachesStep(s: State, m: State, a: Action)
    requires Inv(s) && Reaches(s, m) && Inv(m) && Enabled(m, a)
    ensures Reaches(s, Apply(m, a)) && Inv(Apply(m, a))
  {
    var actions :| Run(s, actions) == Some(m);
    InvKept(m, a);
    var more := actions + [a];
    assert more[..|more| - 1] == actions;
    assert Run(s, more) == Some(Apply(m, a));
  }

  /** Apart from the thread `v` and the owner of `e`, nothing differs. */
  ghost predicate OnlyFreed(m: State, m': State, e: nat, v: nat)
    requires e < |m.entries|
  {
    && m'.registry == m.registry && m'.mapOwner == m.mapOwner
    && m'.entries == m.entries[e := m.entries[e].(owner := None)]
    && |m'.threads| == |m.threads|
    && forall w | 0 <= w < |m.threads| && w != v :: m'.threads[w] == m.threads[w]
  }

  /** A thread that left entry `e` but still owns its inner mutex can go on and release it. */
  lemma {:induction false} Release(s: State, m: State, e: nat, v: nat) returns (m': State)
    requires Inv(s) && Reaches(s, m) && Inv(m) && m.mapOwner.None?
    requires e < |m.entries| && m.entries[e].refcount != 0 && v < |m.threads|
    requires m.threads[v].Unlocking? || (m.threads[v].Sweeping? && m.threads[v].owns)
    requires m.threads[v].entry == e
    ensures Reaches(s, m') && Inv(m') && OnlyFreed(m, m', e, v) && m'.threads[v].Idle?
  {
    m' := m;
    if m.threads[v].Sweeping? {
      ReachesStep(s, m', Sweep(v));
      m' := Apply(m', Sweep(v));
    }
    ReachesStep(s, m', Unlock(v));
    m' := Apply(m', Unlock(v));
  }

  /** Threads `t` and `u` stand at `pt` and `pu`; the others have not moved. */
  ghost predicate OnlyMoved(s: State, m: State, t: nat, pt: Pc, u: nat, pu: Pc) {
    && |m.threads| == |s.threads| && t < |m.threads| && u < |m.threads|
    && m.threads[t] == pt && m.threads[u] == pu
    && forall w | 0 <= w < |m.threads| && w != t && w != u :: m.threads[w] == s.threads[w]
  }

  lemma {:induction false} CountedDuringReap(s: State, t: nat, u: nat) returns (m: State)
    requires Inv(s) && Safe(s) && t < |s.threads| && u < |s.threads|
    requires Enabled(s, Sweep(t)) && ClonedOn(s.threads[u], s.threads[t].entry)
    requires s.entries[s.threads[t].entry].refcount == 0
    ensures Reaches(s, m) && Inv(m) && m.registry == s.registry
    ensures var k, e := s.threads[u].key, s.threads[u].entry;
      && OnlyMoved(s, m, t, Removing(k, e, s.threads[t].owns), u, Waiting(k, e))
      && k in m.registry && m.registry[k] == e
      && |m.entries| == |s.entries| && m.entries[e].refcount == 1
  {
    assert Run(s, []) == Some(s);
    ReachesStep(s, s, Sweep(t));
    var swept := Apply(s, Sweep(t));
    ReachesStep(s, swept, Count(u));
    m := Apply(swept, Count(u));
  }

  /** Thread `t` finds the count of `e` at zero while `u` has cloned `e`; the entry is removed under `u`. */
  lemma {:induction false} RemovedUnder(s: State, t: nat, u: nat) returns (m: State)
    requires Inv(s) && Safe(s) && t < |s.threads| && u < |s.threads|
    requires Enabled(s, Sweep(t)) && ClonedOn(s.threads[u], s.threads[t].entry)
    requires s.entries[s.threads[t].entry].refcount == 0
    ensures Reaches(s, m) && Inv(m) && m.mapOwner.None?
    ensures var k, e := s.threads[u].key, s.threads[u].entry;
      && OnlyMoved(s, m, t, Done(s.threads[t]), u, Waiting(k, e))
      && k !in m.registry && |m.entries| == |s.entries| && m.entries[e].refcount == 1
  {
    var counted := CountedDuringReap(s, t, u);
    ReachesStep(s, counted, Remove(t));
    m := Apply(counted, Remove(t));
  }

  lemma {:induction false} InnerFreed(s: State, t: nat, u: nat, m: State) returns (m': State)
    requires Inv(s) && Safe(s) && t < |s.threads| && u < |s.threads|
    requires Enabled(s, Sweep(t)) && ClonedOn(s.threads[u], s.threads[t].entry)
    requires s.entries[s.threads[t].entry].refcount == 0
    requires Reaches(s, m) && Inv(m) && m.mapOwner.None?
    requires OnlyMoved(s, m, t, Done(s.threads[t]), u, Waiting(s.threads[u].key, s.threads[u].entry))
    requires s.threads[u].entry < |m.entries| && m.entries[s.threads[u].entry].refcount != 0
    ensures Reaches(s, m') && Inv(m') && |m'.threads| == |m.threads|
    ensures m'.threads[t].Idle? && m'.threads[u] == m.threads[u]
    ensures m'.registry == m.registry && m'.mapOwner.None?
    ensures |m'.entries| == |m.entries| && m'.entries[s.threads[u].entry].owner.None?
  {
    var e := s.threads[u].entry;
    if m.entries[e].owner.None? {
      m' := m;
      assert !Owns(m.threads[t], e);
    } else {
      var v := m.entries[e].owner.value;
      assert Owns(m.threads[v], e);
      if v != t {
        assert s.threads[v] == m.threads[v];
        if s.threads[v].Holding? {
          CountPositive(s.threads, v, e);
        }
        assert !Owns(m.threads[t], e);
      }
      m' := Release(s, m, e, v);
    }
  }

  /** Thread `t` enters through a new entry while `u` enters through the removed one. */
  lemma {:induction false} BothEnter(s: State, m: State, t: nat, u: nat) returns (m': State)
    requires Inv(s) && Reaches(s, m) && Inv(m) && m.mapOwner.None?
    requires t < |m.threads| && u < |m.threads| && m.threads[t].Idle?
    requires m.threads[u].Waiting? && m.threads[u].key !in m.registry
    requires m.entries[m.threads[u].entry].owner.None?
    ensures Reaches(s, m') && |m'.threads| == |m.threads|
    ensures m'.threads[t].Holding? && m'.threads[u].Holding? && m'.threads[t].key == m'.threads[u].key
  {
    var k := m.threads[u].key;
    ReachesStep(s, m, Acquire(u));
    var m1 := Apply(m, Acquire(u));
    ReachesStep(s, m1, Clone(t, k));
    var m2 := Apply(m1, Clone(t, k));
    ReachesStep(s, m2, Count(t));
    var m3 := Apply(m2, Count(t));
    ReachesStep(s, m3, Acquire(t));
    m' := Apply(m3, Acquire(t));
  }

  lemma {:induction false} TwoHolders(s: State, t: nat, u: nat)
    requires t < |s.threads| && u < |s.threads| && t != u
    requires s.threads[t].Holding? && s.threads[u].Holding? && s.threads[t].key == s.threads[u].key
    ensures !Exclusive(s)
  {
    var low, high := if t < u then t else u, if t < u then u else t;
    assert s.threads[low].Holding? && s.threads[high].Holding?;
  }

  lemma {:induction false} ReapUnderClone(s: State, t: nat, u: nat) returns (s': State)
    requires Inv(s) && Safe(s) && t < |s.threads| && u < |s.threads|
    requires Enabled(s, Sweep(t)) && ClonedOn(s.threads[u], s.threads[t].entry)
    requires s.entries[s.threads[t].entry].refcount == 0
    ensures Reaches(s, s') && !Exclusive(s')
  {
    var m := RemovedUnder(s, t, u);
    var freed := InnerFreed(s, t, u, m);
    s' := BothEnter(s, freed, t, u);
    TwoHolders(s', t, u);
  }

  /** After any careless reap the run can go on to a state in which two threads hold the same key. */
  lemma {:induction false} CarelessReapBreaksExclusion(s: State, t: nat)
    requires Inv(s) && Safe(s) && Enabled(s, Sweep(t)) && !Careful(s, Sweep(t))
    ensures exists s' :: Reaches(s, s') && !Exclusive(s')
  {
    var u :| 0 <= u < |s.threads| && ClonedOn(s.threads[u], s.threads[t].entry);
    var s' := ReapUnderClone(s, t, u);
  }

  /** A reap over a clone is a real run: the first thread leaves just as the second has cloned the entry. */
  lemma {:induction false} CarelessReapReachable(n: nat, k: Key) returns (s: State)
    requires n >= 2
    ensures Reaches(Start(n), s) && Inv(s) && Safe(s) && Enabled(s, Sweep(0)) && !Careful(s, Sweep(0))
  {
    StartInv(n);
    var s0 := Start(n);
    assert Run(s0, []) == Some(s0);
    ReachesStep(s0, s0, Clone(0, k));
    SafeKeptIffCareful(s0, Clone(0, k));
    var s1 := Apply(s0, Clone(0, k));
    ReachesStep(s0, s1, Count(0));
    SafeKeptIffCareful(s1, Count(0));
    var s2 := Apply(s1, Count(0));
    ReachesStep(s0, s2, Leave(0));
    SafeKeptIffCareful(s2, Leave(0));
    var s3 := Apply(s2, Leave(0));
    ReachesStep(s0, s3, Clone(1, k));
    SafeKeptIffCareful(s3, Clone(1, k));
    s := Apply(s3, Clone(1, k));
    assert ClonedOn(s.threads[1], s.threads[0].entry);
  }

  lemma {:induction false} ReachesTrans(s: State, m: State, actions: seq<Action>, r: State)
    requires Inv(s) && Reaches(s, m) && Inv(m) && Run(m, actions) == Some(r)
    ensures Reaches(s, r)
    decreases |actions|
  {
    if actions != [] {
      var init, a := actions[..|actions| - 1], actions[|actions| - 1];
      var before := Run(m, init).value;
      ReachesTrans(s, m, init, before);
      RunKeepsInv(m, init);
      ReachesStep(s, before, a);
    }
  }

  /** From the start, two or more threads can come to hold the same key. */
  lemma {:induction false} ExclusionBreaksFromStart(n: nat, k: Key) returns (s: State)
    requires n >= 2
    ensures Reaches(Start(n), s) && !Exclusive(s)
  {
    StartInv(n);
    var m := CarelessReapReachable(n, k);
    CarelessReapBreaksExclusion(m, 0);
    s :| Reaches(m, s) && !Exclusive(s);
    var actions :| Run(m, actions) == Some(s);
    ReachesTrans(Start(n), m, actions, s);
  }
}
