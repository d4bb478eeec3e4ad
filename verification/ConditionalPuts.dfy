/** Puts that ask for a missing key (NX) or a present one (XX), on the log of committed writes. */
module ConditionalPuts {
  import opened Wrappers
  import opened Bytes
  import opened Replication
  import opened ReplicationRuns

  /** Some write before place `n` of the log is of the key. */
  predicate WrittenBefore(log: seq<Write>, n: nat, k: Key) {
    exists y | 0 <= y < n && y < |log| :: log[y].key == k
  }

  lemma {:induction false} LastForExists(log: seq<Write>, k: Key)
    ensures LastFor(log, k).Some? <==> WrittenBefore(log, |log|, k)
  {
    if log != [] {
      var n := |log| - 1;
      LastForExists(log[..n], k);
      if WrittenBefore(log[..n], n, k) {
        var y :| 0 <= y < n && log[..n][y].key == k;
        assert log[y].key == k;
      }
      if WrittenBefore(log, |log|, k) && log[n].key != k {
        var y :| 0 <= y < |log| && log[y].key == k;
        assert log[..n][y].key == k;
      }
    }
  }

  /** The primary refuses a put exactly when the log so far breaks its condition. */
  predicate Refused(s: State, r: Request) {
    || (r.nx && WrittenBefore(s.log, |s.log|, r.write.key))
    || (r.xx && !WrittenBefore(s.log, |s.log|, r.write.key))
  }

  /** A refused put changes nothing but its own state, and its client is told so. */
  lemma {:induction false} CommitRefusedIff(s: State, i: nat, targets: seq<nat>)
    requires Inv(s) && Enabled(s, Commit(i, targets))
    ensures var r, s' := s.requests[i], Apply(s, Commit(i, targets));
      if Refused(s, r) then
        && s' == s.(requests := s.requests[i := r.(phase := Rejected)])
        && forall quorum: nat :: SyncReply(s'.requests[i], quorum) == ConditionFailed
      else
        && s'.log == s.log + [r.write] && s'.requests[i].phase == Committed
        && r.write.key in s'.primary && s'.primary[r.write.key] == r.write
  {
    LastForExists(s.log, s.requests[i].write.key);
  }

  /** What the log says about a request that was committed or rejected. */
  ghost predicate Decided(s: State, r: Request) {
    && (r.phase == Committed ==>
          && r.place < |s.log| && s.log[r.place] == r.write
          && (r.nx ==> !WrittenBefore(s.log, r.place, r.write.key))
          && (r.xx ==> WrittenBefore(s.log, r.place, r.write.key)))
    && (r.phase == Rejected ==> r.nx || r.xx)
  }

  ghost predicate AllDecided(s: State) {
    forall i | 0 <= i < |s.requests| :: Decided(s, s.requests[i])
  }

  ghost predicate OwnPlaces(s: State) {
    forall i, j | 0 <= i < j < |s.requests| && s.requests[i].phase == Committed && s.requests[j].phase == Committed ::
      s.requests[i].place != s.requests[j].place
  }

  lemma {:induction false} LogGrows(log: seq<Write>, w: Write, n: nat, k: Key)
    requires n <= |log|
    ensures WrittenBefore(log + [w], n, k) <==> WrittenBefore(log, n, k)
  {
    if WrittenBefore(log, n, k) {
      var y :| 0 <= y < n && log[y].key == k;
      assert (log + [w])[y].key == k;
    }
    if WrittenBefore(log + [w], n, k) {
      var y :| 0 <= y < n && (log + [w])[y].key == k;
      assert log[y].key == k;
    }
  }

  lemma {:induction false} DecidedKept(s: State, a: Action)
    requires Inv(s) && AllDecided(s) && Enabled(s, a)
    ensures AllDecided(Apply(s, a))
  {
    var s' := Apply(s, a);
    forall i | 0 <= i < |s'.requests| ensures Decided(s', s'.requests[i]) {
      var r' := s'.requests[i];
      assert i < |s.requests| ==> Decided(s, s.requests[i]);
      if a.Commit? && !Refused(s, s.requests[a.i]) && r'.phase == Committed {
        CommitRefusedIff(s, a.i, a.targets);
        LogGrows(s.log, s.requests[a.i].write, r'.place, r'.write.key);
      } else if a.Commit? {
        CommitRefusedIff(s, a.i, a.targets);
      }
    }
  }

  lemma {:induction false} OwnPlacesKept(s: State, a: Action)
    requires AllDecided(s) && OwnPlaces(s) && Enabled(s, a)
    ensures OwnPlaces(Apply(s, a))
  {
    var s' := Apply(s, a);
    forall i, j | 0 <= i < j < |s'.requests| && s'.requests[i].phase == Committed && s'.requests[j].phase == Committed
      ensures s'.requests[i].place != s'.requests[j].place
    {
      assert i < |s.requests| ==> Decided(s, s.requests[i]);
      assert j < |s.requests| ==> Decided(s, s.requests[j]);
    }
  }

  /**
   In every run each committed put has its own place in the log; one with NX has no earlier write of its
   key there, one with XX has one, and only puts with NX or XX are ever rejected.
   */
  lemma {:induction false} ConditionsHoldInEveryRun(n: nat, actions: seq<Action>)
    requires Run(Start(n), actions).Some?
    ensures AllDecided(Run(Start(n), actions).value) && OwnPlaces(Run(Start(n), actions).value)
  {
    if actions != [] {
      var init := actions[..|actions| - 1];
      ConditionsHoldInEveryRun(n, init);
      StartInv(n);
      RunKeepsInv(Start(n), init);
      DecidedKept(Run(Start(n), init).value, actions[|actions| - 1]);
      OwnPlacesKept(Run(Start(n), init).value, actions[|actions| - 1]);
    }
  }

  /** The put of request `i`: what was asked for, its stamp, and whether it was decided. */
  lemma {:induction false} BeginKeepsRequest(s: State, a: Action)
    requires a.Begin?
    ensures var s' := Apply(s, a);
      var r := s'.requests[|s.requests|];
      && s'.requests[..|s.requests|] == s.requests && |s'.requests| == |s.requests| + 1
      && r.write.key == a.key && r.write.value == a.value && r.nx == a.nx && r.xx == a.xx && r.phase == Stamped
      && (a.override.Some? ==> r.write.stamp == a.override.value)
      && r.write.stamp <= s'.clock && s.clock <= s'.clock
  {
  }
}
