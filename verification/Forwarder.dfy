/**
 One pooled connection between nodes: callers with permits and timeouts, a writer task, a reader task
 and a peer that answers every command it receives once and in order.
 */
module Forwarder {
  import opened Wrappers

  /** What a caller is told; a reply is named by the command it answers. */
  datatype Outcome = Reply(to: nat) | ServerGone

  datatype Writer =
    | Waiting                                     // for the next queued command
    | Taken(call: nat)                            // before it looks at the terminal flag
    | Checked(call: nat)                          // the flag was clear
    | Pushed(call: nat)                           // slot in flight, frame not yet written
    | Broken(call: nat, reached: bool)            // write failed; the peer may have it all the same
    | Closed                                      // command channel closed
    | Stopping                                    // in-flight slots failed, flag not yet set
    | WriterDone
    | Aborted(call: nat)                          // stopped by a shutdown in the middle of a write

  datatype Reader = Running | Broke | Drained | ReaderDone

  /**
   Calls are numbered in the order they start. `wire` lists the commands the peer received and `read`
   counts the replies taken from it; `gone` are callers that gave up.
   */
  datatype State = State(
    next: nat, acquiring: set<nat>, admitted: set<nat>, queue: seq<nat>, inFlight: seq<nat>,
    writer: Writer, reader: Reader, wire: seq<nat>, read: nat, terminal: bool, free: nat,
    gone: set<nat>, outcomes: map<nat, Outcome>)

  datatype Action =
    | Call | Acquire(c: nat) | Enqueue(c: nat) | GiveUp(c: nat)
    | Take | Check | Push | WriteOk | WriteErr(reached: bool) | CloseChannel | WriterFailAll | WriterEnd
    | ReadReply | ReadErr | ReaderFailAll | ReaderEnd
    | Shutdown | AbortWriter | AbortReader | DropQueue | DropInFlight

  function Start(cap: nat): State {
    State(0, {}, {}, [], [], Waiting, Running, [], 0, false, cap, {}, map[])
  }

  /** Sends into a one-shot channel: only the first send to a caller still listening is seen. */
  function Resolve(s: State, c: nat, o: Outcome): State {
    if c in s.outcomes || c in s.gone then s else s.(outcomes := s.outcomes[c := o])
  }

  function FailAll(s: State, slots: seq<nat>): State {
    s.(outcomes := s.outcomes + map c | c in slots && c !in s.outcomes && c !in s.gone :: ServerGone)
  }

  /** The writer task is over and has dropped its end of the queue. */
  predicate Finished(w: Writer) {
    w.WriterDone? || w.Aborted?
  }

  predicate Enabled(s: State, a: Action) {
    match a
    case Call => true
    case Acquire(c) => c in s.acquiring && s.free > 0
    case Enqueue(c) => c in s.admitted
    case GiveUp(c) => c < s.next && c !in s.outcomes && c !in s.gone
    case Take => s.writer.Waiting? && s.queue != []
    case Check => s.writer.Taken?
    case Push => s.writer.Checked?
    case WriteOk => s.writer.Pushed?
    case WriteErr(_) => s.writer.Pushed?
    case CloseChannel => s.writer.Waiting? && s.queue == []
    case WriterFailAll => s.writer.Broken? || s.writer.Closed?
    case WriterEnd => s.writer.Stopping?
    case ReadReply => s.reader.Running? && s.read < |s.wire|
    case ReadErr => s.reader.Running?
    case ReaderFailAll => s.reader.Broke?
    case ReaderEnd => s.reader.Drained?
    case Shutdown => true
    case AbortWriter => s.terminal && (s.writer.Waiting? || s.writer.Pushed?)
    case AbortReader => s.terminal && s.reader.Running?
    case DropQueue => Finished(s.writer)
    case DropInFlight => Finished(s.writer) && s.reader.ReaderDone?
  }

  function Apply(s: State, a: Action): State
    requires Enabled(s, a)
  {
    match a
    case Call =>
      var started := s.(next := s.next + 1);
      if s.terminal then Resolve(started, s.next, ServerGone)
      else started.(acquiring := s.acquiring + {s.next})
    case Acquire(c) => s.(acquiring := s.acquiring - {c}, admitted := s.admitted + {c}, free := s.free - 1)
    case Enqueue(c) =>
      if Finished(s.writer) then Resolve(s, c, ServerGone).(admitted := s.admitted - {c}, free := s.free + 1)
      else s.(admitted := s.admitted - {c}, queue := s.queue + [c])
    case GiveUp(c) =>
      s.(gone := s.gone + {c}, acquiring := s.acquiring - {c}, admitted := s.admitted - {c},
         free := if c in s.admitted then s.free + 1 else s.free)
    case Take => s.(writer := Taken(s.queue[0]), queue := s.queue[1..])
    case Check =>
      var c := s.writer.call;
      if s.terminal then Resolve(s, c, ServerGone).(writer := Waiting, free := s.free + 1)
      else s.(writer := Checked(c))
    case Push => s.(inFlight := s.inFlight + [s.writer.call], writer := Pushed(s.writer.call))
    case WriteOk => s.(wire := s.wire + [s.writer.call], writer := Waiting)
    case WriteErr(reached) =>
      s.(wire := if reached then s.wire + [s.writer.call] else s.wire, writer := Broken(s.writer.call, reached))
    case CloseChannel => s.(writer := Closed)
    case WriterFailAll => FailAll(s, s.inFlight).(inFlight := [], free := s.free + |s.inFlight|, writer := Stopping)
    case WriterEnd => s.(terminal := true, writer := WriterDone)
    case ReadReply =>
      var taken := s.(read := s.read + 1);
      if s.inFlight == [] then taken
      else Resolve(taken, s.inFlight[0], Reply(s.wire[s.read])).(inFlight := s.inFlight[1..], free := s.free + 1)
    case ReadErr => s.(reader := Broke)
    case ReaderFailAll => FailAll(s, s.inFlight).(inFlight := [], free := s.free + |s.inFlight|, reader := Drained)
    case ReaderEnd => s.(terminal := true, reader := ReaderDone)
    case Shutdown => s.(terminal := true)
    case AbortWriter => s.(writer := if s.writer.Pushed? then Aborted(s.writer.call) else WriterDone)
    case AbortReader => s.(reader := ReaderDone)
    case DropQueue => FailAll(s, s.queue).(queue := [], free := s.free + |s.queue|)
    case DropInFlight => FailAll(s, s.inFlight).(inFlight := [], free := s.free + |s.inFlight|)
  }

  // ---- invariants ----

  /** Permits held by the writer task itself, outside the queue and the in-flight list. */
  function HeldByWriter(w: Writer): nat {
    if w.Taken? || w.Checked? then 1 else 0
  }

  function Held(s: State): nat {
    |s.admitted| + |s.queue| + HeldByWriter(s.writer) + |s.inFlight|
  }

  /** Permits are neither lost nor made. */
  predicate PermitsConserved(s: State, cap: nat) {
    s.free + Held(s) == cap
  }

  /** The slot pushed last has no command on the wire. */
  predicate Unwritten(w: Writer) {
    w.Pushed? || w.Aborted? || (w.Broken? && !w.reached)
  }

  predicate Ended(w: Writer) {
    w.Stopping? || w.WriterDone?
  }

  /** The slots in flight are the commands whose replies are still to be read, in order. */
  ghost predicate Aligned(s: State) {
    && s.read <= |s.wire|
    && |s.inFlight| == |s.wire| - s.read + (if Unwritten(s.writer) then 1 else 0)
    && (forall i | 0 <= i < |s.wire| - s.read :: s.inFlight[i] == s.wire[s.read + i])
    && (Unwritten(s.writer) ==> s.inFlight[|s.wire| - s.read] == s.writer.call)
  }

  /** As long as replies are read, slots are aligned, or the writer has failed them all and ended. */
  ghost predicate InStep(s: State) {
    s.reader.Running? ==>
      || Aligned(s)
      || (s.inFlight == [] && Ended(s.writer))
  }

  ghost predicate OwnReplies(s: State) {
    forall c | c in s.outcomes && s.outcomes[c].Reply? :: s.outcomes[c].to == c
  }

  ghost predicate Inv(s: State, cap: nat) {
    PermitsConserved(s, cap) && InStep(s) && OwnReplies(s) && Started(s) && NoneForgotten(s) && OnePlace(s)
  }

  /** A caller waits for one permit at most, and holds none meanwhile. */
  ghost predicate Started(s: State) {
    && (forall c | c in s.acquiring :: c < s.next && c !in s.admitted)
    && (forall c | c in s.admitted :: c < s.next)
    && (forall c | c in s.gone :: c < s.next)
  }

  /** The call still has its slot somewhere. */
  predicate Placed(s: State, c: nat) {
    || c in s.acquiring || c in s.admitted || c in s.queue || c in s.inFlight
    || ((s.writer.Taken? || s.writer.Checked?) && s.writer.call == c)
  }

  /** Every call is still placed, was answered, or gave up. */
  ghost predicate NoneForgotten(s: State) {
    forall c: nat | c < s.next :: Remembered(s, c)
  }

  predicate Remembered(s: State, c: nat) {
    Placed(s, c) || c in s.outcomes || c in s.gone
  }

  function Once(b: bool): nat {
    if b then 1 else 0
  }

  /** In how many places the call's slot is. */
  function Places(s: State, c: nat): nat {
    Once(c in s.acquiring) + Once(c in s.admitted) + Once(c in s.queue) + Once(c in s.inFlight)
    + Once((s.writer.Taken? || s.writer.Checked?) && s.writer.call == c)
  }

  predicate NoRepeat(cs: seq<nat>) {
    forall i, j | 0 <= i < j < |cs| :: cs[i] != cs[j]
  }

  /** A slot is in one place at most, and in none once its call is answered. */
  ghost predicate OnePlace(s: State) {
    && NoRepeat(s.queue) && NoRepeat(s.inFlight)
    && (forall c: nat :: AtOnePlace(s, c))
    && (forall c | c in s.outcomes :: c < s.next)
  }

  predicate AtOnePlace(s: State, c: nat) {
    Placed(s, c) ==> Places(s, c) == 1 && c < s.next && c !in s.outcomes
  }

  lemma {:induction false} NoRepeatKept(s: State, a: Action)
    requires OnePlace(s) && Enabled(s, a)
    ensures NoRepeat(Apply(s, a).queue) && NoRepeat(Apply(s, a).inFlight)
  {
    if a.Enqueue? {
      assert AtOnePlace(s, a.c);
    } else if a.Push? {
      assert AtOnePlace(s, s.writer.call);
    }
  }

  /** Steps that fail a whole list at once. */
  predicate FailsList(a: Action) {
    a.WriterFailAll? || a.ReaderFailAll? || a.DropQueue? || a.DropInFlight?
  }

  lemma {:induction false} PlaceKeptByFailing(s: State, a: Action, c: nat)
    requires OnePlace(s) && Enabled(s, a) && FailsList(a)
    ensures AtOnePlace(Apply(s, a), c)
  {
    assert AtOnePlace(s, c);
  }

  lemma {:induction false} PlaceKeptByCaller(s: State, a: Action, c: nat)
    requires OnePlace(s) && Enabled(s, a) && ByCaller(a)
    ensures AtOnePlace(Apply(s, a), c)
  {
    assert AtOnePlace(s, c);
  }

  lemma {:induction false} PlaceKeptByMoving(s: State, a: Action, c: nat)
    requires OnePlace(s) && Enabled(s, a) && (a.Take? || a.ReadReply?)
    ensures AtOnePlace(Apply(s, a), c)
  {
    assert AtOnePlace(s, c);
    var list := if a.Take? then s.queue else s.inFlight;
    if list != [] {
      assert c in list <==> c == list[0] || c in list[1..];
      assert list[0] !in list[1..];
    }
  }

  lemma {:induction false} PlaceKeptByTasks(s: State, a: Action, c: nat)
    requires OnePlace(s) && Enabled(s, a) && !FailsList(a) && !ByCaller(a) && !a.Take? && !a.ReadReply?
    ensures AtOnePlace(Apply(s, a), c)
  {
    assert AtOnePlace(s, c);
  }

  lemma {:induction false} AnsweredStarted(s: State, a: Action)
    requires OnePlace(s) && Enabled(s, a)
    ensures forall c | c in Apply(s, a).outcomes :: c < Apply(s, a).next
  {
    forall c | c in Apply(s, a).outcomes && c !in s.outcomes ensures c < Apply(s, a).next {
      assert AtOnePlace(s, c);
    }
  }

  lemma {:induction false} OnePlaceKept(s: State, a: Action)
    requires OnePlace(s) && Enabled(s, a)
    ensures OnePlace(Apply(s, a))
  {
    NoRepeatKept(s, a);
    AnsweredStarted(s, a);
    forall c: nat ensures AtOnePlace(Apply(s, a), c) {
      if FailsList(a) {
        PlaceKeptByFailing(s, a, c);
      } else if ByCaller(a) {
        PlaceKeptByCaller(s, a, c);
      } else if a.Take? || a.ReadReply? {
        PlaceKeptByMoving(s, a, c);
      } else {
        PlaceKeptByTasks(s, a, c);
      }
    }
  }

  lemma {:induction false} NoneForgottenKept(s: State, a: Action)
    requires NoneForgotten(s) && Enabled(s, a)
    ensures NoneForgotten(Apply(s, a))
  {
    forall c: nat | c < Apply(s, a).next ensures Remembered(Apply(s, a), c) {
      assert c < s.next ==> Remembered(s, c);
      RememberedKept(s, a, c);
    }
  }

  lemma {:induction false} HeadOrTail(xs: seq<nat>, c: nat)
    requires xs != []
    ensures c in xs <==> c == xs[0] || c in xs[1..]
  {
  }

  lemma {:induction false} RememberedByMoving(s: State, a: Action, c: nat)
    requires Enabled(s, a) && Remembered(s, c) && (a.Take? || a.ReadReply?)
    ensures Remembered(Apply(s, a), c)
  {
    if a.Take? {
      HeadOrTail(s.queue, c);
    } else if s.inFlight != [] {
      HeadOrTail(s.inFlight, c);
    }
  }

  lemma {:induction false} RememberedByFailing(s: State, a: Action, c: nat)
    requires Enabled(s, a) && Remembered(s, c) && FailsList(a)
    ensures Remembered(Apply(s, a), c)
  {
  }

  lemma {:induction false} RememberedByCaller(s: State, a: Action, c: nat)
    requires Enabled(s, a) && (c < s.next ==> Remembered(s, c)) && c < Apply(s, a).next && ByCaller(a)
    ensures Remembered(Apply(s, a), c)
  {
  }

  lemma {:induction false} RememberedKept(s: State, a: Action, c: nat)
    requires Enabled(s, a) && (c < s.next ==> Remembered(s, c)) && c < Apply(s, a).next
    ensures Remembered(Apply(s, a), c)
  {
    if a.Take? || a.ReadReply? {
      RememberedByMoving(s, a, c);
    } else if FailsList(a) {
      RememberedByFailing(s, a, c);
    } else if ByCaller(a) {
      RememberedByCaller(s, a, c);
    }
  }

  predicate ByCaller(a: Action) {
    a.Call? || a.Acquire? || a.Enqueue? || a.GiveUp?
  }

  lemma {:induction false} Added(xs: set<nat>, c: nat)
    requires c !in xs
    ensures |xs + {c}| == |xs| + 1 && xs - {c} == xs
  {
  }

  lemma {:induction false} Removed(xs: set<nat>, c: nat)
    requires c in xs
    ensures |xs - {c}| == |xs| - 1
  {
  }

  lemma {:induction false} PermitsKeptByCaller(s: State, a: Action, cap: nat)
    requires PermitsConserved(s, cap) && Started(s) && Enabled(s, a) && ByCaller(a)
    ensures PermitsConserved(Apply(s, a), cap)
  {
    match a
    case Call =>
    case Acquire(c) => Added(s.admitted, c);
    case Enqueue(c) => Removed(s.admitted, c);
    case GiveUp(c) =>
      if c in s.admitted {
        Removed(s.admitted, c);
      } else {
        Added(s.admitted, c);
      }
  }

  lemma {:induction false} PermitsKept(s: State, a: Action, cap: nat)
    requires PermitsConserved(s, cap) && Started(s) && Enabled(s, a)
    ensures PermitsConserved(Apply(s, a), cap)
  {
    if ByCaller(a) {
      PermitsKeptByCaller(s, a, cap);
    }
  }

  lemma {:induction false} StartedKept(s: State, a: Action)
    requires Started(s) && Enabled(s, a)
    ensures Started(Apply(s, a))
  {
  }

  lemma {:induction false} AlignedByRead(s: State)
    requires Aligned(s) && Enabled(s, ReadReply)
    ensures Aligned(Apply(s, ReadReply))
  {
    var s' := Apply(s, ReadReply);
    forall i | 0 <= i < |s'.wire| - s'.read ensures s'.inFlight[i] == s'.wire[s'.read + i] {
      assert s.inFlight[i + 1] == s.wire[s.read + (i + 1)];
    }
  }

  lemma {:induction false} AlignedByWrite(s: State, a: Action)
    requires Aligned(s) && Enabled(s, a) && (a.Push? || a.WriteOk? || a.WriteErr?)
    ensures Aligned(Apply(s, a))
  {
  }

  lemma {:induction false} InStepKept(s: State, a: Action)
    requires InStep(s) && Enabled(s, a)
    ensures InStep(Apply(s, a))
  {
    if s.reader.Running? && Aligned(s) {
      if a.ReadReply? {
        AlignedByRead(s);
      } else if a.Push? || a.WriteOk? || a.WriteErr? {
        AlignedByWrite(s, a);
      }
    }
  }

  /** The reply at the head of the stream belongs to the slot at the head of the list. */
  lemma {:induction false} OwnRepliesKept(s: State, a: Action)
    requires InStep(s) && OwnReplies(s) && Enabled(s, a)
    ensures OwnReplies(Apply(s, a))
  {
    if a.ReadReply? && s.inFlight != [] {
      assert Aligned(s);
      assert s.inFlight[0] == s.wire[s.read + 0];
    }
  }

  lemma {:induction false} InvKept(s: State, a: Action, cap: nat)
    requires Inv(s, cap) && Enabled(s, a)
    ensures Inv(Apply(s, a), cap)
  {
    PermitsKept(s, a, cap);
    InStepKept(s, a);
    OwnRepliesKept(s, a);
    NoneForgottenKept(s, a);
    StartedKept(s, a);
    OnePlaceKept(s, a);
  }

  // ---- runs ----

  /** The state after a sequence of steps, if each was enabled in its turn. */
  function Run(cap: nat, actions: seq<Action>): Option<State> {
    if actions == [] then Some(Start(cap))
    else
      var before := Run(cap, actions[..|actions| - 1]);
      var a := actions[|actions| - 1];
      if before.None? || !Enabled(before.value, a) then None else Some(Apply(before.value, a))
  }

  lemma {:induction false} RunKeepsInv(cap: nat, actions: seq<Action>)
    ensures Run(cap, actions).Some? ==> Inv(Run(cap, actions).value, cap)
  {
    if actions != [] && Run(cap, actions).Some? {
      var init := actions[..|actions| - 1];
      RunKeepsInv(cap, init);
      InvKept(Run(cap, init).value, actions[|actions| - 1], cap);
    }
  }

  /**
   In every interleaving of callers, timeouts, writer, reader and failures, a reply reaches only the
   caller of the command it answers, permits are conserved, and at most `cap` commands are in flight.
   */
  lemma {:induction false} RepliesMatchAndPermitsBalance(cap: nat, actions: seq<Action>)
    ensures var r := Run(cap, actions);
      r.Some? ==>
      && (forall c, d | c in r.value.outcomes && r.value.outcomes[c] == Reply(d) :: c == d)
      && r.value.free + Held(r.value) == cap && |r.value.inFlight| <= cap
      && (forall c: nat | c < r.value.next :: Remembered(r.value, c))
  {
    RunKeepsInv(cap, actions);
  }

  /** What a caller was told never changes, and nobody who gave up is told anything. */
  lemma {:induction false} OutcomesFinal(s: State, a: Action)
    requires Enabled(s, a)
    ensures forall c | c in s.outcomes :: c in Apply(s, a).outcomes && Apply(s, a).outcomes[c] == s.outcomes[c]
    ensures forall c | c in s.gone && c !in s.outcomes :: c in Apply(s, a).gone && c !in Apply(s, a).outcomes
  {
  }

  // ---- after the connection is marked terminal ----

  /** The command is neither sent nor past the writer's look at the flag. */
  predicate NotYetChecked(s: State, c: nat) {
    && c !in s.wire && c !in s.inFlight
    && !((s.writer.Checked? || s.writer.Pushed? || s.writer.Broken? || s.writer.Aborted?) && s.writer.call == c)
  }

  lemma {:induction false} TerminalStep(s: State, a: Action, c: nat)
    requires s.terminal && NotYetChecked(s, c) && Enabled(s, a)
    ensures Apply(s, a).terminal && NotYetChecked(Apply(s, a), c)
  {
  }

  /** The state after more steps from `s`, if each is enabled in its turn. */
  function Continue(s: State, actions: seq<Action>): Option<State> {
    if actions == [] then Some(s)
    else
      var before := Continue(s, actions[..|actions| - 1]);
      var a := actions[|actions| - 1];
      if before.None? || !Enabled(before.value, a) then None else Some(Apply(before.value, a))
  }

  /** Once the connection is terminal, no command the writer has not already let through is ever sent. */
  lemma {:induction false} TerminalSendsNothingNew(s: State, actions: seq<Action>, c: nat)
    requires s.terminal && NotYetChecked(s, c) && Continue(s, actions).Some?
    ensures Continue(s, actions).value.terminal && c !in Continue(s, actions).value.wire
      && NotYetChecked(Continue(s, actions).value, c)
  {
    if actions != [] {
      var init := actions[..|actions| - 1];
      TerminalSendsNothingNew(s, init, c);
      TerminalStep(Continue(s, init).value, actions[|actions| - 1], c);
    }
  }

  /** A call on a terminal connection is told so at once and takes no permit. */
  lemma {:induction false} CallAfterTerminal(s: State, cap: nat)
    requires Inv(s, cap) && s.terminal
    ensures var r := Apply(s, Call);
      s.next in r.outcomes && r.outcomes[s.next] == ServerGone && r.free == s.free && r.queue == s.queue
  {
    assert s.next !in s.outcomes && s.next !in s.gone;
  }

  // ---- slots the reader has passed ----

  predicate ReaderPassed(s: State) {
    s.reader.Drained? || s.reader.ReaderDone?
  }

  /** An unanswered call whose slot is in the list the reader will not look at again. */
  predicate Stranded(s: State, c: nat) {
    ReaderPassed(s) && c in s.inFlight && c !in s.outcomes
  }

  /** A push behind a reader that has failed the slots, or the end of a reader with slots in flight. */
  predicate Strands(s: State, a: Action, c: nat)
    requires Enabled(s, a)
  {
    (a.Push? && ReaderPassed(s) && s.writer.call == c) || (a.AbortReader? && c in s.inFlight)
  }

  /** Exactly those two steps strand a call. */
  lemma {:induction false} StrandedIff(s: State, a: Action, c: nat, cap: nat)
    requires Inv(s, cap) && Enabled(s, a) && !Stranded(s, c)
    ensures Stranded(Apply(s, a), c) <==> Strands(s, a, c)
  {
    OnePlaceKept(s, a);
    assert AtOnePlace(s, c) && AtOnePlace(Apply(s, a), c);
  }

  /** A stranded call stays so exactly until the writer fails every slot or the list is dropped with both tasks. */
  lemma {:induction false} StrandedUntilDropped(s: State, a: Action, c: nat, cap: nat)
    requires Inv(s, cap) && Enabled(s, a) && Stranded(s, c)
    ensures Stranded(Apply(s, a), c) <==> !(a.WriterFailAll? || a.DropInFlight?)
    ensures !Stranded(Apply(s, a), c) ==> c in Apply(s, a).outcomes || c in Apply(s, a).gone
  {
    OnePlaceKept(s, a);
    assert AtOnePlace(s, c) && AtOnePlace(Apply(s, a), c);
  }

  predicate SmoothRun(cap: nat, actions: seq<Action>) {
    actions == [] ||
    var before, a := Run(cap, actions[..|actions| - 1]), actions[|actions| - 1];
    && SmoothRun(cap, actions[..|actions| - 1])
    && (before.Some? && Enabled(before.value, a) ==>
          !(a.Push? && ReaderPassed(before.value)) && !(a.AbortReader? && before.value.inFlight != []))
  }

  /** In a run without those steps no call is ever stranded. */
  lemma {:induction false} SmoothRunsStrandNobody(cap: nat, actions: seq<Action>, c: nat)
    requires SmoothRun(cap, actions) && Run(cap, actions).Some?
    ensures !Stranded(Run(cap, actions).value, c)
  {
    if actions != [] {
      var init := actions[..|actions| - 1];
      SmoothRunsStrandNobody(cap, init, c);
      RunKeepsInv(cap, init);
      StrandedIff(Run(cap, init).value, actions[|actions| - 1], c, cap);
    }
  }

  lemma {:induction false} RunIsContinue(cap: nat, actions: seq<Action>)
    ensures Run(cap, actions) == Continue(Start(cap), actions)
  {
    if actions != [] {
      RunIsContinue(cap, actions[..|actions| - 1]);
    }
  }

  /** The writer can look at the flag before the reader fails the slots and push its own afterwards. */
  lemma {:induction false} RacingPushStrands(cap: nat) returns (actions: seq<Action>, s: State)
    requires cap > 0
    ensures Run(cap, actions) == Some(s) && Stranded(s, 0) && 0 !in s.gone && !s.terminal
  {
    var start := Start(cap);
    assert Inv(start, cap);
    var taken, s1 := CallIsTaken(start, cap);
    ContinueStep(start, taken, ReadErr, s1);
    var s2 := Apply(s1, ReadErr);
    ContinueStep(start, taken + [ReadErr], ReaderFailAll, s2);
    var s3 := Apply(s2, ReaderFailAll);
    ContinueStep(start, taken + [ReadErr] + [ReaderFailAll], Push, s3);
    actions, s := taken + [ReadErr] + [ReaderFailAll] + [Push], Apply(s3, Push);
    RunIsContinue(cap, actions);
    assert s.inFlight[0] == 0;
  }

  // ---- a call that succeeds ----

  /** Nothing queued or in flight, both tasks running, every reply read, and a permit free. */
  predicate Ready(s: State) {
    && s.queue == [] && s.inFlight == [] && s.writer.Waiting? && s.reader.Running? && !s.terminal
    && s.read == |s.wire| && s.free > 0
  }

  lemma {:induction false} ContinueStep(s: State, actions: seq<Action>, a: Action, m: State)
    requires Continue(s, actions) == Some(m) && Enabled(m, a)
    ensures Continue(s, actions + [a]) == Some(Apply(m, a))
  {
    assert (actions + [a])[..|actions|] == actions;
  }

  lemma {:induction false} ContinueOnce(s: State, a: Action)
    requires Enabled(s, a)
    ensures Continue(s, [a]) == Some(Apply(s, a))
  {
    assert [a][..0] == [];
    assert Continue(s, []) == Some(s);
  }

  /** The call gets a permit and is queued. */
  lemma {:induction false} CallIsQueued(s: State, cap: nat) returns (actions: seq<Action>, r: State)
    requires Inv(s, cap) && Ready(s)
    ensures Continue(s, actions) == Some(r)
    ensures r == s.(next := s.next + 1, queue := [s.next], free := s.free - 1)
  {
    var c := s.next;
    ContinueOnce(s, Call);
    var s1 := Apply(s, Call);
    var a1 := [Call];
    ContinueStep(s, a1, Acquire(c), s1);
    var s2 := Apply(s1, Acquire(c));
    assert s2.acquiring == s.acquiring;
    var a2 := a1 + [Acquire(c)];
    ContinueStep(s, a2, Enqueue(c), s2);
    actions, r := a2 + [Enqueue(c)], Apply(s2, Enqueue(c));
    assert r.queue == [c] && r.admitted == s.admitted;
  }

  /** Then it is taken and let through. */
  lemma {:induction false} CallIsTaken(s: State, cap: nat) returns (actions: seq<Action>, r: State)
    requires Inv(s, cap) && Ready(s)
    ensures Continue(s, actions) == Some(r)
    ensures r == s.(next := s.next + 1, writer := Checked(s.next), free := s.free - 1)
  {
    var queued, m := CallIsQueued(s, cap);
    ContinueStep(s, queued, Take, m);
    var s1 := Apply(m, Take);
    assert s1.queue == [];
    ContinueStep(s, queued + [Take], Check, s1);
    actions, r := queued + [Take] + [Check], Apply(s1, Check);
  }

  /** A call on a ready connection can be sent and answered; then the connection is ready again. */
  lemma {:induction false} CallCanComplete(s: State, cap: nat) returns (actions: seq<Action>, r: State)
    requires Inv(s, cap) && Ready(s)
    ensures Continue(s, actions) == Some(r) && Ready(r) && r.free == s.free
    ensures s.next in r.outcomes && r.outcomes[s.next] == Reply(s.next) && r.wire == s.wire + [s.next]
  {
    var c := s.next;
    var taken, m := CallIsTaken(s, cap);
    assert c !in s.outcomes && c !in s.gone;
    ContinueStep(s, taken, Push, m);
    var s1 := Apply(m, Push);
    assert s1.inFlight == [c];
    var a1 := taken + [Push];
    ContinueStep(s, a1, WriteOk, s1);
    var s2 := Apply(s1, WriteOk);
    ContinueStep(s, a1 + [WriteOk], ReadReply, s2);
    actions, r := a1 + [WriteOk] + [ReadReply], Apply(s2, ReadReply);
  }
}
