/** Whole runs of engine operations, against stacks of versions and against a plain map. */
module RamBlockRuns {
  import opened Wrappers
  import opened Bytes
  import opened Entries
  import opened Tables
  import opened RamBlockModel

  datatype Op = OpPut(key: U64, entry: Entry) | OpDelete(key: U64) | OpCompact(over: (nat, nat) -> bool)

  function Empty(tableCapacity: nat): Engine {
    [TableView(ReadWrite, tableCapacity, 0, 0, map[])]
  }

  function Step(vs: Engine, tableCapacity: nat, op: Op): (r: Engine)
    requires vs != []
    ensures r != []
  {
    match op
    case OpPut(k, e) => Put(vs, tableCapacity, k, e)
    case OpDelete(k) => RamBlockModel.Delete(vs, k)
    case OpCompact(over) => Compact(vs, over)
  }

  function Run(vs: Engine, tableCapacity: nat, ops: seq<Op>): (r: Engine)
    requires vs != []
    ensures r != []
  {
    if ops == [] then vs
    else Step(Run(vs, tableCapacity, ops[..|ops| - 1]), tableCapacity, ops[|ops| - 1])
  }

  // ---- the abstract machine: one stack of versions per key ----

  datatype Label = Push(key: U64, entry: Entry) | Replace(key: U64, entry: Entry) | Drop(key: U64) | Skip

  /** What an operation does to the stacks when it starts in `vs`. */
  function LabelOf(vs: Engine, op: Op): Label
    requires vs != []
  {
    match op
    case OpPut(k, e) =>
      if !Encodable(e) then (if k in Head(vs).content then Skip else Drop(k))
      else if Shadows(vs, k, e) then Push(k, e)
      else Replace(k, e)
    case OpDelete(k) => Drop(k)
    case OpCompact(_) => Skip
  }

  function Labels(vs: Engine, tableCapacity: nat, ops: seq<Op>): seq<Label>
    requires vs != []
  {
    if ops == [] then []
    else
      var before := ops[..|ops| - 1];
      Labels(vs, tableCapacity, before) + [LabelOf(Run(vs, tableCapacity, before), ops[|ops| - 1])]
  }

  function Apply(stack: seq<Entry>, l: Label, q: U64): seq<Entry> {
    match l
    case Push(k, e) => if k == q then [e] + stack else stack
    case Replace(k, e) => if k == q then SetTop(stack, e) else stack
    case Drop(k) => if k == q then Pop(stack) else stack
    case Skip => stack
  }

  function ApplyAll(stack: seq<Entry>, ls: seq<Label>, q: U64): seq<Entry> {
    if ls == [] then stack else Apply(ApplyAll(stack, ls[..|ls| - 1], q), ls[|ls| - 1], q)
  }

  lemma {:induction false} PutRefines(vs: Engine, tableCapacity: nat, k: U64, e: Entry, q: U64)
    requires Inv(vs)
    ensures Inv(Put(vs, tableCapacity, k, e))
    ensures Versions(Put(vs, tableCapacity, k, e), q) == Apply(Versions(vs, q), LabelOf(vs, OpPut(k, e)), q)
  {
    if Encodable(e) {
      PutReplacesOrPushes(vs, tableCapacity, k, e, q);
    } else {
      RefusedPutPops(vs, tableCapacity, k, e, q);
    }
  }

  lemma {:induction false} StepRefines(vs: Engine, tableCapacity: nat, op: Op, q: U64)
    requires Inv(vs)
    ensures Inv(Step(vs, tableCapacity, op))
    ensures Versions(Step(vs, tableCapacity, op), q) == Apply(Versions(vs, q), LabelOf(vs, op), q)
  {
    match op
    case OpPut(k, e) => PutRefines(vs, tableCapacity, k, e, q);
    case OpDelete(k) => DeletePops(vs, k, q); DeleteKeepsInv(vs, k);
    case OpCompact(over) => CompactKeeps(vs, over, q);
  }

  /** In every run the engine is the map of version stacks, whatever was compacted when. */
  lemma {:induction false} RunRefinesStacks(vs: Engine, tableCapacity: nat, ops: seq<Op>, q: U64)
    requires Inv(vs)
    ensures Inv(Run(vs, tableCapacity, ops))
    ensures Versions(Run(vs, tableCapacity, ops), q)
         == ApplyAll(Versions(vs, q), Labels(vs, tableCapacity, ops), q)
  {
    if ops != [] {
      var before := ops[..|ops| - 1];
      RunRefinesStacks(vs, tableCapacity, before, q);
      StepRefines(Run(vs, tableCapacity, before), tableCapacity, ops[|ops| - 1], q);
      var ls := Labels(vs, tableCapacity, ops);
      assert ls[..|ls| - 1] == Labels(vs, tableCapacity, before);
    }
  }

  // ---- the plain map ----

  function MapStep(m: map<U64, Entry>, op: Op): map<U64, Entry> {
    match op
    case OpPut(k, e) => m[k := e]
    case OpDelete(k) => m - {k}
    case OpCompact(_) => m
  }

  function MapRun(ops: seq<Op>): map<U64, Entry> {
    if ops == [] then map[] else MapStep(MapRun(ops[..|ops| - 1]), ops[|ops| - 1])
  }

  predicate AllEncodable(ops: seq<Op>) {
    forall i | 0 <= i < |ops| && ops[i].OpPut? :: Encodable(ops[i].entry)
  }

  predicate NoPush(ls: seq<Label>) {
    forall i | 0 <= i < |ls| :: !ls[i].Push?
  }

  function Stacked(m: map<U64, Entry>, q: U64): seq<Entry> {
    if q in m then [m[q]] else []
  }

  lemma {:induction false} PlainStep(vs: Engine, tableCapacity: nat, op: Op, m: map<U64, Entry>, q: U64)
    requires Inv(vs) && Versions(vs, q) == Stacked(m, q)
    requires op.OpPut? ==> Encodable(op.entry)
    requires !LabelOf(vs, op).Push?
    ensures Versions(Step(vs, tableCapacity, op), q) == Stacked(MapStep(m, op), q)
  {
    StepRefines(vs, tableCapacity, op, q);
  }

  /** A run in which no put seals the table holding its key's record is a run of a plain map. */
  lemma {:induction false} PlainMapWithoutPush(tableCapacity: nat, ops: seq<Op>, q: U64)
    requires AllEncodable(ops) && NoPush(Labels(Empty(tableCapacity), tableCapacity, ops))
    ensures Versions(Run(Empty(tableCapacity), tableCapacity, ops), q) == Stacked(MapRun(ops), q)
  {
    var vs := Empty(tableCapacity);
    if ops == [] {
      assert Versions(vs, q) == [];
    } else {
      var before := ops[..|ops| - 1];
      var ls := Labels(vs, tableCapacity, ops);
      assert ls[..|ls| - 1] == Labels(vs, tableCapacity, before);
      assert !ls[|ls| - 1].Push?;
      PlainMapWithoutPush(tableCapacity, before, q);
      RunRefinesStacks(vs, tableCapacity, before, q);
      PlainStep(Run(vs, tableCapacity, before), tableCapacity, ops[|ops| - 1], MapRun(before), q);
    }
  }

  // ---- where the engine is not a plain map ----

  /** A delete leaves its key absent exactly when the key had at most one version. */
  lemma {:induction false} DeleteRemovesIff(vs: Engine, k: U64)
    requires Inv(vs)
    ensures Versions(RamBlockModel.Delete(vs, k), k) == [] <==> |Versions(vs, k)| <= 1
  {
    DeletePops(vs, k, k);
  }

  /**
   Putting and then deleting a key that had at most one version removes it exactly when
   the put did not seal the table holding the old record.
   */
  lemma {:induction false} PutThenDeleteRemovesIff(vs: Engine, tableCapacity: nat, k: U64, e: Entry)
    requires Inv(vs) && Encodable(e) && |Versions(vs, k)| <= 1
    ensures Versions(RamBlockModel.Delete(Put(vs, tableCapacity, k, e), k), k) == []
            <==> !Shadows(vs, k, e)
  {
    PutReplacesOrPushes(vs, tableCapacity, k, e, k);
    DeletePops(Put(vs, tableCapacity, k, e), k, k);
    FindLiveTop(vs, k);
  }

  /** What the delete then exposes is the value that had been overwritten. */
  lemma {:induction false} ShadowedPutThenDelete(vs: Engine, tableCapacity: nat, k: U64, e: Entry)
    requires Inv(vs) && Encodable(e) && Shadows(vs, k, e)
    ensures Top(Versions(RamBlockModel.Delete(Put(vs, tableCapacity, k, e), k), k)) == Some(Head(vs).content[k])
  {
    PutReplacesOrPushes(vs, tableCapacity, k, e, k);
    DeletePops(Put(vs, tableCapacity, k, e), k, k);
  }

  /** Such a put is reachable: two 30-byte records in a table of 31 bytes. */
  lemma {:induction false} ShadowReachable(a: Entry, b: Entry)
    requires |a.key| + |a.value| == |b.key| + |b.value| == 1
    ensures var vs := Run(Empty(31), 31, [OpPut(7, a)]);
      Inv(vs) && Shadows(vs, 7, b) && Head(vs).content[7] == a
  {
    var v0 := Empty(31);
    assert [OpPut(7, a)][..0] == [];
    assert Run(v0, 31, [OpPut(7, a)]) == Put(v0, 31, 7, a);
    PutReplacesOrPushes(v0, 31, 7, a, 7);
    assert DropSealed(v0, 7) == v0;
    assert AppendToHead(v0, 7, a) == [Head(v0).Append(7, a)];
  }

  // ---- how many records the engine reports ----

  function Len(vs: Engine): nat {
    if vs == [] then 0 else Len(Older(vs)) + |Head(vs).content|
  }

  function Keys(vs: Engine): set<U64> {
    if vs == [] then {} else Keys(Older(vs)) + Head(vs).content.Keys
  }

  lemma {:induction false} KeysHaveVersions(vs: Engine, k: U64)
    ensures k in Keys(vs) <==> Versions(vs, k) != []
  {
    if vs != [] {
      KeysHaveVersions(Older(vs), k);
    }
  }

  ghost predicate NoShadow(vs: Engine) {
    forall k: U64 :: |Versions(vs, k)| <= 1
  }

  lemma {:induction false} VersionCount(vs: Engine, k: U64)
    requires vs != []
    ensures |Versions(vs, k)| == |Versions(Older(vs), k)| + if k in Head(vs).content then 1 else 0
    ensures k in Keys(Older(vs)) <==> |Versions(Older(vs), k)| > 0
  {
    KeysHaveVersions(Older(vs), k);
  }

  lemma {:induction false} NoShadowStep(vs: Engine)
    requires vs != []
    ensures NoShadow(vs) <==> NoShadow(Older(vs)) && Keys(Older(vs)) !! Head(vs).content.Keys
  {
    if NoShadow(vs) {
      forall k: U64
        ensures |Versions(Older(vs), k)| <= 1
        ensures !(k in Keys(Older(vs)) && k in Head(vs).content.Keys)
      {
        VersionCount(vs, k);
        assert |Versions(vs, k)| <= 1;
      }
    } else if NoShadow(Older(vs)) {
      var k: U64 :| |Versions(vs, k)| > 1;
      VersionCount(vs, k);
      assert |Versions(Older(vs), k)| <= 1;
    }
  }

  /** `len` is the number of distinct keys exactly when no key has a shadowed version. */
  lemma {:induction false} LenCountsKeysIff(vs: Engine)
    ensures Len(vs) >= |Keys(vs)|
    ensures Len(vs) == |Keys(vs)| <==> NoShadow(vs)
  {
    if vs == [] {
      assert NoShadow(vs);
    } else {
      LenCountsKeysIff(Older(vs));
      UnionSize(Keys(Older(vs)), Head(vs).content.Keys);
      NoShadowStep(vs);
      assert |Head(vs).content.Keys| == |Head(vs).content|;
    }
  }

  lemma {:induction false} UnionSize(a: set<U64>, b: set<U64>)
    ensures |a| + |b| >= |a + b|
    ensures |a| + |b| == |a + b| <==> a !! b
  {
    assert |a| + |b| == |a + b| + |a * b|;
  }

  // ---- what a scan visits ----

  /** How often a list of visits names the key. */
  function Times(visits: seq<(U64, Entry)>, k: U64): nat {
    if visits == [] then 0
    else Times(visits[..|visits| - 1], k) + if visits[|visits| - 1].0 == k then 1 else 0
  }

  lemma {:induction false} TimesConcat(a: seq<(U64, Entry)>, b: seq<(U64, Entry)>, k: U64)
    ensures Times(a + b, k) == Times(a, k) + Times(b, k)
  {
    if b == [] {
      assert a + b == a;
    } else {
      var n := |b| - 1;
      assert (a + b)[..|a| + n] == a + b[..n];
      TimesConcat(a, b[..n], k);
    }
  }

  /** The visits name each key as often as it has versions. */
  ghost predicate Faithful(visits: seq<(U64, Entry)>, vs: Engine) {
    forall k: U64 :: Times(visits, k) == |Versions(vs, k)|
  }

  ghost predicate AtMostOnce(visits: seq<(U64, Entry)>) {
    forall k: U64 :: Times(visits, k) <= 1
  }

  /** Such visits name each key at most once exactly when no key has a shadowed version. */
  lemma {:induction false} VisitsOnceIff(visits: seq<(U64, Entry)>, vs: Engine)
    requires Faithful(visits, vs)
    ensures AtMostOnce(visits) <==> NoShadow(vs)
  {
    if NoShadow(vs) {
      forall k: U64 ensures Times(visits, k) <= 1 {
        assert |Versions(vs, k)| <= 1;
      }
    }
    if AtMostOnce(visits) {
      forall k: U64 ensures |Versions(vs, k)| <= 1 {
        assert Times(visits, k) <= 1;
      }
    }
  }

  /** Bytes of all live records, shadowed ones included. */
  function InUse(vs: Engine): nat {
    if vs == [] then 0 else InUse(Older(vs)) + Head(vs).liveBytes
  }

  // ---- tables have the configured capacity ----

  ghost predicate AtLeast(vs: Engine, capacity: nat) {
    forall i | 0 <= i < |vs| :: vs[i].capacity >= capacity
  }

  /** In every run all tables have the configured capacity or more. */
  lemma {:induction false} TablesAreLargeEnough(tableCapacity: nat, ops: seq<Op>)
    ensures AtLeast(Run(Empty(tableCapacity), tableCapacity, ops), tableCapacity)
  {
    if ops != [] {
      var before := ops[..|ops| - 1];
      TablesAreLargeEnough(tableCapacity, before);
      LargeEnoughStep(Run(Empty(tableCapacity), tableCapacity, before), tableCapacity, ops[|ops| - 1]);
    }
  }

  lemma {:induction false} LargeEnoughStep(vs: Engine, tableCapacity: nat, op: Op)
    requires vs != [] && AtLeast(vs, tableCapacity)
    ensures AtLeast(Step(vs, tableCapacity, op), tableCapacity)
  {
  }

  // ---- offsets stay within 32 bits ----

  /** A table up to this size has no room for a record that starts beyond 32 bits. */
  const LARGEST_SAFE_TABLE: nat := U32_MAX + HEADER_OVERHEAD

  /** The smallest record would be appended at an offset that does not fit a `u32`. */
  predicate Overflows(v: TableView) {
    v.size > U32_MAX && Fits(v, HEADER_OVERHEAD)
  }

  /** A larger table was made for one record and is full. */
  predicate Slim(v: TableView) {
    v.capacity <= LARGEST_SAFE_TABLE || v.size == v.capacity
  }

  /** The put encodes, or is refused without asking for more room than that. */
  predicate Tame(op: Op) {
    op.OpPut? ==> Encodable(op.entry) || EncodedLen(op.entry) <= LARGEST_SAFE_TABLE
  }

  ghost predicate AllTame(ops: seq<Op>) {
    forall i | 0 <= i < |ops| :: Tame(ops[i])
  }

  /** Only a put that is not tame, which is refused, leaves a head that is too large and not full. */
  lemma {:induction false} SlimStepIff(vs: Engine, tableCapacity: nat, op: Op)
    requires Inv(vs) && Slim(Head(vs)) && tableCapacity <= LARGEST_SAFE_TABLE
    ensures Slim(Head(Step(vs, tableCapacity, op))) <==> Tame(op)
    ensures !Tame(op) ==> Head(Step(vs, tableCapacity, op)) == Fresh(EncodedLen(op.entry), tableCapacity)
  {
    match op
    case OpPut(k, e) =>
      DropSealedFacts(vs, k, k);
      var w := EnsureWritable(DropSealed(vs, k), EncodedLen(e), tableCapacity);
      EnsureWritableFacts(DropSealed(vs, k), EncodedLen(e), tableCapacity, k);
      Snoc(Older(w), Head(w).Append(k, e), k);
    case OpDelete(k) =>
    case OpCompact(over) =>
  }

  lemma {:induction false} SlimRun(vs: Engine, tableCapacity: nat, ops: seq<Op>)
    requires Inv(vs) && Slim(Head(vs)) && AllTame(ops) && tableCapacity <= LARGEST_SAFE_TABLE
    ensures Slim(Head(Run(vs, tableCapacity, ops)))
  {
    if ops != [] {
      var before := ops[..|ops| - 1];
      SlimRun(vs, tableCapacity, before);
      RunRefinesStacks(vs, tableCapacity, before, 0);
      SlimStepIff(Run(vs, tableCapacity, before), tableCapacity, ops[|ops| - 1]);
    }
  }

  /** In every run of tame puts, the head that takes the next record starts it within 32 bits. */
  lemma {:induction false} OffsetsFitU32(tableCapacity: nat, ops: seq<Op>, e: Entry)
    requires AllTame(ops) && tableCapacity <= LARGEST_SAFE_TABLE
    ensures var head := Head(Run(Empty(tableCapacity), tableCapacity, ops));
      !Overflows(head) && (Fits(head, EncodedLen(e)) ==> head.size <= U32_MAX)
  {
    SlimRun(Empty(tableCapacity), tableCapacity, ops);
  }

  /** A record of exactly 4 GiB. */
  ghost function Filler(): (e: Entry)
    ensures Encodable(e) && EncodedLen(e) == U32_MAX + 1
  {
    Entry([], 0, 0, 0, seq(U32_MAX + 1 - HEADER_OVERHEAD, _ => 0))
  }

  /** An empty head above the limit overflows after one such record. */
  lemma {:induction false} FillerOverflows(vs: Engine, tableCapacity: nat)
    requires Inv(vs) && Head(vs).size == 0 && Head(vs).capacity > LARGEST_SAFE_TABLE && Head(vs).content == map[]
    ensures Overflows(Head(Run(vs, tableCapacity, [OpPut(0, Filler())])))
  {
    var e := Filler();
    assert [OpPut(0, e)][..0] == [];
    assert Run(vs, tableCapacity, [OpPut(0, e)]) == Put(vs, tableCapacity, 0, e);
    DropSealedFacts(vs, 0, 0);
    var d := DropSealed(vs, 0);
    Snoc(Older(d), Head(d).Append(0, e), 0);
  }

  /**
   After tame puts, the next put leaves every continuation by puts that encode within 32 bits exactly
   when it is tame too.
   */
  lemma {:induction false} OffsetsStayFitIff(tableCapacity: nat, ops: seq<Op>, op: Op)
    requires AllTame(ops) && tableCapacity <= LARGEST_SAFE_TABLE
    ensures var vs := Step(Run(Empty(tableCapacity), tableCapacity, ops), tableCapacity, op);
      (forall more | AllEncodable(more) :: !Overflows(Head(Run(vs, tableCapacity, more)))) <==> Tame(op)
  {
    var before := Run(Empty(tableCapacity), tableCapacity, ops);
    RunRefinesStacks(Empty(tableCapacity), tableCapacity, ops, 0);
    SlimRun(Empty(tableCapacity), tableCapacity, ops);
    SlimStepIff(before, tableCapacity, op);
    StepRefines(before, tableCapacity, op, 0);
    SlimContinues(Step(before, tableCapacity, op), tableCapacity);
  }

  /** From a head that is slim, or empty and too large, all continuations fit exactly if it is slim. */
  lemma {:induction false} SlimContinues(vs: Engine, tableCapacity: nat)
    requires Inv(vs) && tableCapacity <= LARGEST_SAFE_TABLE
    requires Slim(Head(vs)) || (Head(vs).size == 0 && Head(vs).content == map[])
    ensures (forall more | AllEncodable(more) :: !Overflows(Head(Run(vs, tableCapacity, more)))) <==> Slim(Head(vs))
  {
    if Slim(Head(vs)) {
      forall more | AllEncodable(more) ensures !Overflows(Head(Run(vs, tableCapacity, more))) {
        SlimRun(vs, tableCapacity, more);
      }
    } else {
      FillerOverflows(vs, tableCapacity);
      assert AllEncodable([OpPut(0, Filler())]);
    }
  }

  /** Tables made larger than the limit overflow from the start. */
  lemma {:induction false} LargeTablesOverflow(tableCapacity: nat)
    requires tableCapacity > LARGEST_SAFE_TABLE
    ensures Overflows(Head(Run(Empty(tableCapacity), tableCapacity, [OpPut(0, Filler())])))
  {
    FillerOverflows(Empty(tableCapacity), tableCapacity);
  }

  // ---- last write wins ----

  datatype Write = Write(key: U64, entry: Entry)

  function PutLww(vs: Engine, tableCapacity: nat, w: Write): (r: Engine)
    requires vs != []
    ensures r != []
  {
    var existing := Top(Versions(vs, w.key));
    if existing.Some? && existing.value.timestampNanos >= w.entry.timestampNanos then vs
    else Put(vs, tableCapacity, w.key, w.entry)
  }

  function RunLww(vs: Engine, tableCapacity: nat, ws: seq<Write>): (r: Engine)
    requires vs != []
    ensures r != []
  {
    if ws == [] then vs else PutLww(RunLww(vs, tableCapacity, ws[..|ws| - 1]), tableCapacity, ws[|ws| - 1])
  }

  ghost predicate Highest(r: Option<Entry>, ws: seq<Write>, q: U64) {
    && (r.None? ==> forall w | w in ws :: w.key != q)
    && (r.Some? ==> Write(q, r.value) in ws)
    && (r.Some? ==> forall w | w in ws && w.key == q ::
         w.entry.timestampNanos <= r.value.timestampNanos)
  }

  lemma {:induction false} PutLwwStep(vs: Engine, tableCapacity: nat, w: Write, q: U64)
    requires Inv(vs) && Encodable(w.entry)
    ensures Inv(PutLww(vs, tableCapacity, w))
    ensures var before, after := Top(Versions(vs, q)), Top(Versions(PutLww(vs, tableCapacity, w), q));
      after == if w.key == q && (before.None? || before.value.timestampNanos < w.entry.timestampNanos)
               then Some(w.entry) else before
  {
    PutReplacesOrPushes(vs, tableCapacity, w.key, w.entry, q);
  }

  /** After any sequence of merges every key reads its highest-timestamp write. */
  lemma {:induction false} LwwReadsHighest(tableCapacity: nat, ws: seq<Write>, q: U64)
    requires forall w | w in ws :: Encodable(w.entry)
    ensures var vs := RunLww(Empty(tableCapacity), tableCapacity, ws);
      Inv(vs) && Highest(Top(Versions(vs, q)), ws, q)
  {
    if ws == [] {
      assert Versions(Empty(tableCapacity), q) == [];
    } else {
      var before, w := ws[..|ws| - 1], ws[|ws| - 1];
      assert ws == before + [w];
      assert forall x | x in before :: x in ws;
      LwwReadsHighest(tableCapacity, before, q);
      PutLwwStep(RunLww(Empty(tableCapacity), tableCapacity, before), tableCapacity, w, q);
    }
  }

  /** The order and the repetition of merges do not matter. */
  lemma {:induction false} LwwOrderFree(tableCapacity: nat, ws: seq<Write>, ws': seq<Write>, q: U64)
    requires forall w | w in ws :: Encodable(w.entry)
    requires forall w :: w in ws <==> w in ws'
    requires forall v, w | v in ws && w in ws && v.key == w.key
               && v.entry.timestampNanos == w.entry.timestampNanos :: v == w
    ensures Top(Versions(RunLww(Empty(tableCapacity), tableCapacity, ws), q))
         == Top(Versions(RunLww(Empty(tableCapacity), tableCapacity, ws'), q))
  {
    LwwReadsHighest(tableCapacity, ws, q);
    LwwReadsHighest(tableCapacity, ws', q);
    var a := Top(Versions(RunLww(Empty(tableCapacity), tableCapacity, ws), q));
    var b := Top(Versions(RunLww(Empty(tableCapacity), tableCapacity, ws'), q));
    if a.Some? && b.Some? {
      assert Write(q, a.value) == Write(q, b.value);
    }
  }
}
