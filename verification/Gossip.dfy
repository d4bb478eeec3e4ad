/** The piggyback queue: pending events, each with a transmit budget. */
module Gossip {
  import opened Arithmetic
  import opened Bytes
  import opened Membership

  const FANOUT_MULT: nat := 3

  // ---- budgets ----

  /** Position of the highest set bit, from 1; `32 - leading_zeros` for a `u32`. */
  function BitLength(n: nat): nat {
    if n == 0 then 0 else 1 + BitLength(n / 2)
  }

  function BudgetFor(liveMembers: nat): (b: nat)
    ensures b >= 1
  {
    var n := if liveMembers == 0 then 1 else if liveMembers > U32_MAX then U32_MAX else liveMembers;
    FANOUT_MULT * BitLength(n)
  }

  function Pow2(k: nat): (p: nat)
    ensures p >= 1
  {
    if k == 0 then 1 else 2 * Pow2(k - 1)
  }

  /** `k` is the logarithm of `n` to base 2, rounded up. */
  predicate IsCeilLog2(n: nat, k: nat) {
    n <= Pow2(k) && (k > 0 ==> Pow2(k - 1) < n)
  }

  lemma {:induction false} Pow2Grows(a: nat, b: nat)
    requires a <= b
    ensures Pow2(a) <= Pow2(b)
    decreases b
  {
    if a < b {
      Pow2Grows(a, b - 1);
    }
  }

  lemma {:induction false} BitLengthIsLog(n: nat)
    ensures IsCeilLog2(n + 1, BitLength(n))
  {
    if n > 0 {
      BitLengthIsLog(n / 2);
    }
  }

  lemma {:induction false} CeilLog2Unique(n: nat, j: nat, k: nat)
    requires IsCeilLog2(n, j) && IsCeilLog2(n, k)
    ensures j == k
  {
    if j < k {
      Pow2Grows(j, k - 1);
    } else if k < j {
      Pow2Grows(k, j - 1);
    }
  }

  lemma {:induction false} LogGrows(m: nat, n: nat, j: nat, k: nat)
    requires IsCeilLog2(m, j) && IsCeilLog2(n, k) && m <= Pow2(j) < n
    ensures j < k
  {
    if k <= j {
      Pow2Grows(k, j);
    }
  }

  lemma {:induction false} Pow2Of32()
    ensures Pow2(32) == 0x1_0000_0000
  {
    assert Pow2(8) == 256;
    assert Pow2(16) == 65536;
    assert Pow2(24) == 0x100_0000;
  }

  /** The budget is three times the logarithm of `n + 1`, rounded up, exactly for 1 to `u32::MAX` members. */
  lemma {:induction false} BudgetIsLogIff(n: nat, k: nat)
    requires IsCeilLog2(n + 1, k)
    ensures BudgetFor(n) == FANOUT_MULT * k <==> 1 <= n <= U32_MAX
  {
    if 1 <= n <= U32_MAX {
      BitLengthIsLog(n);
      CeilLog2Unique(n + 1, k, BitLength(n));
    } else if n == 0 {
      CeilLog2Unique(1, k, 0);
    } else {
      BitLengthIsLog(U32_MAX);
      Pow2Of32();
      CeilLog2Unique(U32_MAX + 1, 32, BitLength(U32_MAX));
      LogGrows(U32_MAX + 1, n + 1, 32, k);
    }
  }

  // ---- the queue ----

  datatype Pending = Pending(event: Event, budget: nat)

  type Queue = seq<Pending>

  ghost predicate Fit(q: Queue, capacity: nat) {
    && (capacity > 0 ==> |q| <= capacity)
    && (forall i | 0 <= i < |q| :: q[i].budget >= 1)
    && (forall i, j | 0 <= i < j < |q| :: q[i].event != q[j].event)
  }

  /** Place of an event in the queue, or its length. */
  function Find(q: Queue, e: Event): (i: nat)
    ensures i <= |q|
    ensures i < |q| ==> q[i].event == e
    ensures forall j | 0 <= j < i :: q[j].event != e
  {
    if q == [] then 0
    else
      var i := Find(q[..|q| - 1], e);
      if i < |q| - 1 then i else if q[|q| - 1].event == e then |q| - 1 else |q|
  }

  function Evicts(q: Queue, capacity: nat, e: Event): bool {
    Find(q, e) == |q| && |q| == capacity && capacity > 0
  }

  function Pushed(q: Queue, capacity: nat, e: Event, liveMembers: nat): Queue {
    var i := Find(q, e);
    if i < |q| then q[i := Pending(e, Max(q[i].budget, BudgetFor(liveMembers)))]
    else if Evicts(q, capacity, e) then q[1..] + [Pending(e, BudgetFor(liveMembers))]
    else q + [Pending(e, BudgetFor(liveMembers))]
  }

  function Min(a: nat, b: nat): nat {
    if a < b then a else b
  }

  /** The events chosen, each with one transmission less, without those that have none left. */
  function Spent(q: Queue): Queue {
    if q == [] then []
    else
      var before, p := Spent(q[..|q| - 1]), q[|q| - 1];
      if p.budget <= 1 then before else before + [Pending(p.event, p.budget - 1)]
  }

  function Drained(q: Queue, max: nat): Queue {
    var m := Min(max, |q|);
    Spent(q[..m]) + q[m..]
  }

  function EventsOf(q: Queue): (es: seq<Event>)
    ensures |es| == |q|
  {
    seq(|q|, i requires 0 <= i < |q| => q[i].event)
  }

  function Total(q: Queue): nat {
    if q == [] then 0 else Total(q[..|q| - 1]) + q[|q| - 1].budget
  }

  lemma {:induction false} PushFits(q: Queue, capacity: nat, e: Event, liveMembers: nat)
    requires Fit(q, capacity)
    ensures Fit(Pushed(q, capacity, e, liveMembers), capacity)
  {
  }

  /** A pushed event is pending with at least its budget; otherwise only the oldest event, if full, is gone. */
  lemma {:induction false} PushKeepsOthers(q: Queue, capacity: nat, e: Event, liveMembers: nat)
    requires Fit(q, capacity)
    ensures var r := Pushed(q, capacity, e, liveMembers);
      && (exists i | 0 <= i < |r| :: r[i].event == e && r[i].budget >= BudgetFor(liveMembers))
      && (forall p | p in q && p.event != e :: p in r || (p == q[0] && Evicts(q, capacity, e)))
      && (forall p | p in r && p.event != e :: p in q)
      && (forall i, j | 0 <= i < j < |r| && r[i].event != e && r[j].event != e ::
            exists x, y | 0 <= x < y < |q| :: q[x] == r[i] && q[y] == r[j])
  {
    var r, i := Pushed(q, capacity, e, liveMembers), Find(q, e);
    var shift := if Evicts(q, capacity, e) then 1 else 0;
    if i == |q| {
      assert r[|r| - 1].event == e;
      assert forall x | 0 <= x < |r| - 1 :: r[x] == q[x + shift];
    } else {
      assert r[i].event == e;
    }
    forall p | p in q && p.event != e ensures p in r || (p == q[0] && Evicts(q, capacity, e)) {
      var x :| 0 <= x < |q| && q[x] == p;
      if x >= shift {
        assert r[x - shift] == p;
      }
    }
    forall x, y | 0 <= x < y < |r| && r[x].event != e && r[y].event != e
      ensures exists a, b | 0 <= a < b < |q| :: q[a] == r[x] && q[b] == r[y]
    {
      assert q[x + shift] == r[x] && q[y + shift] == r[y];
    }
  }

  lemma {:induction false} SpentTotal(q: Queue)
    requires forall i | 0 <= i < |q| :: q[i].budget >= 1
    ensures |Spent(q)| <= |q| && Total(Spent(q)) + |q| == Total(q)
  {
    if q != [] {
      var n := |q| - 1;
      SpentTotal(q[..n]);
      if q[n].budget > 1 {
        assert Spent(q)[..|Spent(q)| - 1] == Spent(q[..n]);
      }
    }
  }

  /** What is left of the chosen events comes from them. */
  lemma {:induction false} SpentFrom(q: Queue, i: nat) returns (x: nat)
    requires i < |Spent(q)|
    ensures x < |q| && q[x].budget > 1 && Spent(q)[i] == Pending(q[x].event, q[x].budget - 1)
  {
    var n := |q| - 1;
    if i < |Spent(q[..n])| {
      x := SpentFrom(q[..n], i);
    } else {
      x := n;
    }
  }

  lemma {:induction false} SpentDistinct(q: Queue)
    requires forall i | 0 <= i < |q| :: q[i].budget >= 1
    requires forall i, j | 0 <= i < j < |q| :: q[i].event != q[j].event
    ensures forall i, j | 0 <= i < j < |Spent(q)| :: Spent(q)[i].event != Spent(q)[j].event
  {
    if q != [] {
      var n := |q| - 1;
      SpentDistinct(q[..n]);
      var before := Spent(q[..n]);
      forall i | 0 <= i < |before| ensures before[i].event != q[n].event {
        var x := SpentFrom(q[..n], i);
        assert q[x].event != q[n].event;
      }
    }
  }

  lemma {:induction false} TotalConcat(a: Queue, b: Queue)
    ensures Total(a + b) == Total(a) + Total(b)
  {
    if b == [] {
      assert a + b == a;
    } else {
      var n := |b| - 1;
      assert (a + b)[..|a| + n] == a + b[..n];
      TotalConcat(a, b[..n]);
    }
  }

  lemma {:induction false} FrontFits(front: Queue, rest: Queue, capacity: nat)
    requires Fit(front + rest, capacity)
    ensures (forall i | 0 <= i < |front| :: front[i].budget >= 1) && (forall i | 0 <= i < |rest| :: rest[i].budget >= 1)
    ensures forall i, j | 0 <= i < j < |front| :: front[i].event != front[j].event
    ensures forall i, j | 0 <= i < j < |rest| :: rest[i].event != rest[j].event
    ensures forall i, j | 0 <= i < |front| && 0 <= j < |rest| :: front[i].event != rest[j].event
  {
    var q := front + rest;
    assert forall i | 0 <= i < |front| :: front[i] == q[i];
    assert forall j | 0 <= j < |rest| :: rest[j] == q[|front| + j];
  }

  lemma {:induction false} BothFit(a: Queue, b: Queue, capacity: nat)
    requires capacity > 0 ==> |a| + |b| <= capacity
    requires (forall i | 0 <= i < |a| :: a[i].budget >= 1) && (forall i | 0 <= i < |b| :: b[i].budget >= 1)
    requires forall i, j | 0 <= i < j < |a| :: a[i].event != a[j].event
    requires forall i, j | 0 <= i < j < |b| :: b[i].event != b[j].event
    requires forall i, j | 0 <= i < |a| && 0 <= j < |b| :: a[i].event != b[j].event
    ensures Fit(a + b, capacity)
  {
  }

  lemma {:induction false} SpendFront(front: Queue, rest: Queue, capacity: nat)
    requires Fit(front + rest, capacity)
    ensures Fit(Spent(front) + rest, capacity)
    ensures Total(Spent(front) + rest) + |front| == Total(front + rest)
  {
    FrontFits(front, rest, capacity);
    SpentTotal(front);
    SpentDistinct(front);
    TotalConcat(front, rest);
    var s := Spent(front);
    TotalConcat(s, rest);
    forall i, j | 0 <= i < |s| && 0 <= j < |rest| ensures s[i].event != rest[j].event {
      var x := SpentFrom(front, i);
      assert front[x].event != rest[j].event;
    }
    forall i | 0 <= i < |s| ensures s[i].budget >= 1 {
      var x := SpentFrom(front, i);
    }
    BothFit(s, rest, capacity);
  }

  /** A drain keeps the queue fit and takes exactly one from the total budget for each event sent. */
  lemma {:induction false} DrainFits(q: Queue, capacity: nat, max: nat)
    requires Fit(q, capacity)
    ensures Fit(Drained(q, max), capacity)
    ensures Total(Drained(q, max)) + Min(max, |q|) == Total(q)
  {
    var m := Min(max, |q|);
    assert q[..m] + q[m..] == q;
    SpendFront(q[..m], q[m..], capacity);
  }

  // ---- runs ----

  datatype Op = Push(event: Event, liveMembers: nat) | Drain(max: nat)

  /** The queue with what was granted to events, sent, and thrown out with evicted events. */
  datatype Ledger = Ledger(queue: Queue, granted: nat, sent: nat, lost: nat)

  function Step(s: Ledger, capacity: nat, op: Op): Ledger {
    match op
    case Push(e, n) =>
      var i := Find(s.queue, e);
      var grant := if i < |s.queue| then Max(s.queue[i].budget, BudgetFor(n)) - s.queue[i].budget else BudgetFor(n);
      var lost := if Evicts(s.queue, capacity, e) then s.queue[0].budget else 0;
      Ledger(Pushed(s.queue, capacity, e, n), s.granted + grant, s.sent, s.lost + lost)
    case Drain(max) =>
      Ledger(Drained(s.queue, max), s.granted, s.sent + Min(max, |s.queue|), s.lost)
  }

  function Run(capacity: nat, ops: seq<Op>): Ledger {
    if ops == [] then Ledger([], 0, 0, 0) else Step(Run(capacity, ops[..|ops| - 1]), capacity, ops[|ops| - 1])
  }

  lemma {:induction false} TotalUpdate(q: Queue, i: nat, p: Pending)
    requires i < |q|
    ensures Total(q[i := p]) + q[i].budget == Total(q) + p.budget
  {
    var n := |q| - 1;
    if i < n {
      assert q[i := p][..n] == q[..n][i := p];
      TotalUpdate(q[..n], i, p);
    } else {
      assert q[i := p][..n] == q[..n];
    }
  }

  lemma {:induction false} PushBalances(s: Ledger, capacity: nat, e: Event, n: nat)
    requires Fit(s.queue, capacity)
    ensures var t := Step(s, capacity, Push(e, n));
      t.granted + Total(s.queue) + s.lost == s.granted + Total(t.queue) + t.lost
  {
    var i, p := Find(s.queue, e), Pending(e, BudgetFor(n));
    if i < |s.queue| {
      TotalUpdate(s.queue, i, Pending(e, Max(s.queue[i].budget, BudgetFor(n))));
    } else if Evicts(s.queue, capacity, e) {
      var first, rest := s.queue[..1], s.queue[1..];
      TotalConcat(first, rest);
      TotalConcat(rest, [p]);
      TotalOne(p);
      TotalOne(s.queue[0]);
      assert first == [s.queue[0]] && first + rest == s.queue;
    } else {
      TotalConcat(s.queue, [p]);
      TotalOne(p);
    }
  }

  lemma {:induction false} TotalOne(p: Pending)
    ensures Total([p]) == p.budget
  {
    assert [p][..0] == [];
  }

  /**
   In every run pending events are distinct, within capacity and have budget left, and every
   transmission granted was used, is still pending, or went with an evicted event.
   */
  lemma {:induction false} QueueStaysFit(capacity: nat, ops: seq<Op>)
    ensures var s := Run(capacity, ops);
      Fit(s.queue, capacity) && s.granted == s.sent + Total(s.queue) + s.lost
  {
    if ops != [] {
      var init, op := ops[..|ops| - 1], ops[|ops| - 1];
      QueueStaysFit(capacity, init);
      var s := Run(capacity, init);
      match op
      case Push(e, n) =>
        PushFits(s.queue, capacity, e, n);
        PushBalances(s, capacity, e, n);
      case Drain(max) =>
        DrainFits(s.queue, capacity, max);
    }
  }

  // ---- the queue as it is updated in place ----

  /** After `n` rounds the queue holds what is left of the first `n` events, then the others. */
  ghost predicate DrainedTo(start: Queue, n: nat, q: Queue, idx: nat) {
    n <= |start| && idx <= |q| && q[..idx] == Spent(start[..n]) && q[idx..] == start[n..]
  }

  lemma {:induction false} NothingDrained(start: Queue)
    ensures DrainedTo(start, 0, start, 0)
  {
    assert start[..0] == [] && start[0..] == start;
  }

  /** One round: the event at the index is removed or goes on with one transmission less. */
  lemma {:induction false} DrainStep(start: Queue, n: nat, q: Queue, idx: nat)
    requires DrainedTo(start, n, q, idx) && idx < |q|
    ensures n < |start| && q[idx] == start[n]
    ensures q[idx].budget <= 1 ==> DrainedTo(start, n + 1, q[..idx] + q[idx + 1..], idx)
    ensures q[idx].budget > 1 ==>
      DrainedTo(start, n + 1, q[idx := q[idx].(budget := q[idx].budget - 1)], idx + 1)
  {
    assert q[idx] == q[idx..][0] && q[idx..][1..] == q[idx + 1..];
    assert start[n..][1..] == start[n + 1..] && start[..n + 1][..n] == start[..n];
    if q[idx].budget <= 1 {
      var r := q[..idx] + q[idx + 1..];
      assert r[..idx] == q[..idx] && r[idx..] == q[idx + 1..];
    } else {
      var x := q[idx].(budget := q[idx].budget - 1);
      var r := q[idx := x];
      assert r[..idx + 1] == q[..idx] + [x] && r[idx + 1..] == q[idx + 1..];
    }
  }

  lemma {:induction false} AllDrained(start: Queue, n: nat, q: Queue, idx: nat, max: nat)
    requires DrainedTo(start, n, q, idx) && n <= max && (n >= max || idx >= |q|)
    ensures n == Min(max, |start|) && q == Drained(start, max)
  {
    assert |q[idx..]| == |start[n..]|;
    assert q == q[..idx] + q[idx..];
  }

  method DrainRound(q: Queue, idx: nat, ghost start: Queue, ghost n: nat) returns (event: Event, rest: Queue, next: nat)
    requires DrainedTo(start, n, q, idx) && idx < |q|
    ensures n < |start| && event == start[n].event && DrainedTo(start, n + 1, rest, next)
  {
    DrainStep(start, n, q, idx);
    var pending := q[idx];
    event := pending.event;
    var left := if pending.budget == 0 then 0 else pending.budget - 1;
    if left == 0 {
      rest, next := q[..idx] + q[idx + 1..], idx;
    } else {
      rest, next := q[idx := pending.(budget := left)], idx + 1;
    }
  }

  method DrainLoop(start: Queue, max: nat) returns (q: Queue, out: seq<Event>)
    ensures q == Drained(start, max) && out == EventsOf(start)[..Min(max, |start|)]
  {
    q, out := start, [];
    var idx: nat := 0;
    NothingDrained(start);
    while |out| < max && idx < |q|
      invariant |out| <= |start| && |out| <= max
      invariant forall i | 0 <= i < |out| :: out[i] == start[i].event
      invariant DrainedTo(start, |out|, q, idx)
      decreases |start| - |out|
    {
      var event, rest, next := DrainRound(q, idx, start, |out|);
      q, idx, out := rest, next, out + [event];
    }
    AllDrained(start, |out|, q, idx, max);
    assert out == EventsOf(start)[..Min(max, |start|)];
  }

  class GossipQueue {
    var q: Queue
    const capacity: nat

    constructor WithCapacity(capacity: nat)
      ensures q == [] && this.capacity == capacity && Fit(q, capacity)
    {
      q := [];
      this.capacity := capacity;
    }

    method Push(e: Event, liveMembers: nat)
      requires Fit(q, capacity)
      modifies this
      ensures q == Pushed(old(q), capacity, e, liveMembers) && Fit(q, capacity)
    {
      PushFits(q, capacity, e, liveMembers);
      var pos := Find(q, e);
      if pos < |q| {
        q := q[pos := q[pos].(budget := Max(q[pos].budget, BudgetFor(liveMembers)))];
        return;
      }
      if |q| == capacity && capacity > 0 {
        q := q[1..];
      }
      q := q + [Pending(e, BudgetFor(liveMembers))];
    }

    /** Sends the oldest events, taking one from the budget of each and dropping those used up. */
    method DrainForSend(max: nat) returns (out: seq<Event>)
      requires Fit(q, capacity)
      modifies this
      ensures q == Drained(old(q), max) && Fit(q, capacity)
      ensures out == EventsOf(old(q))[..Min(max, |old(q)|)]
      ensures Total(q) + |out| == Total(old(q))
    {
      DrainFits(q, capacity, max);
      q, out := DrainLoop(q, max);
    }
  }
}
