/** Whole runs of appends and deletes on one table, down to the bytes of its block. */
module TableRuns {
  import opened Wrappers
  import opened Bytes
  import opened Entries
  import opened TableModel

  datatype Op = Append(key: U64, entry: Entry) | Delete(key: U64)

  /** The block and the records still indexed in it. */
  datatype Block = Block(memory: seq<Byte>, live: seq<Record>)

  predicate Accepts(size: nat, capacity: nat, e: Entry) {
    size + EncodedLen(e) <= capacity && Encodable(e)
  }

  ghost function Step(b: Block, capacity: nat, op: Op): Block {
    match op
    case Append(k, e) =>
      if Accepts(|b.memory|, capacity, e) then
        Block(b.memory + Layout(e), Appended(b.live, |b.memory|, k, e))
      else b
    case Delete(k) => b.(live := Without(b.live, k))
  }

  ghost function Run(capacity: nat, ops: seq<Op>): Block {
    if ops == [] then Block([], []) else Step(Run(capacity, ops[..|ops| - 1]), capacity, ops[|ops| - 1])
  }

  /** The entry last appended for a key and not deleted since. */
  ghost function Latest(capacity: nat, ops: seq<Op>, q: U64): Option<Entry> {
    if ops == [] then None
    else
      var init, op := ops[..|ops| - 1], ops[|ops| - 1];
      if op.key != q then Latest(capacity, init, q)
      else if op.Delete? then None
      else if Accepts(|Run(capacity, init).memory|, capacity, op.entry) then Some(op.entry)
      else Latest(capacity, init, q)
  }

  ghost predicate Sound(b: Block, capacity: nat) {
    Wf(b.live, |b.memory|) && Stored(b.memory, b.live) && |b.memory| <= capacity
  }

  lemma {:induction false} StepSound(b: Block, capacity: nat, op: Op)
    requires Sound(b, capacity) && capacity <= U32_MAX + 1
    ensures Sound(Step(b, capacity, op), capacity)
    ensures Live(Step(b, capacity, op).live)
         == if op.Delete? then Live(b.live) - {op.key}
            else if Accepts(|b.memory|, capacity, op.entry) then Live(b.live)[op.key := op.entry] else Live(b.live)
  {
    var k := op.key;
    WithoutFacts(b.live, |b.memory|, k);
    StoredWithout(b.memory, b.live, k);
    if op.Append? && Accepts(|b.memory|, capacity, op.entry) {
      AppendFacts(b.live, |b.memory|, k, op.entry);
      StoredAppend(b.memory, Layout(op.entry), Without(b.live, k), k, op.entry);
    }
  }

  lemma {:induction false} RunSound(capacity: nat, ops: seq<Op>, q: U64)
    requires capacity <= U32_MAX + 1
    ensures Sound(Run(capacity, ops), capacity)
    ensures var l := Live(Run(capacity, ops).live);
      Latest(capacity, ops, q) == if q in l then Some(l[q]) else None
  {
    if ops != [] {
      var init := ops[..|ops| - 1];
      RunSound(capacity, init, q);
      StepSound(Run(capacity, init), capacity, ops[|ops| - 1]);
    }
  }

  /**
   After any run, on a table of at most 4 GiB, exactly the keys last appended are indexed, and the
   bytes at a key's offset decode to the entry last appended for it.
   */
  lemma {:induction false} IndexDecodesLatest(capacity: nat, ops: seq<Op>, q: U64)
    requires capacity <= U32_MAX + 1
    ensures var b := Run(capacity, ops);
      && (q in Index(b.live) <==> Latest(capacity, ops, q).Some?)
      && (q in Index(b.live) ==>
            Index(b.live)[q] <= |b.memory|
            && Decode(b.memory[Index(b.live)[q]..])
               == Ok((Latest(capacity, ops, q).value, EncodedLen(Latest(capacity, ops, q).value))))
  {
    var b := Run(capacity, ops);
    RunSound(capacity, ops, q);
    KeysAgree(b.live);
    if q in Index(b.live) {
      var r := Find(b.memory, b.live, |b.memory|, q);
      var tail := b.memory[r.start..];
      assert tail[..EncodedLen(r.entry)] == b.memory[r.start..r.start + EncodedLen(r.entry)];
      DecodeFront(tail, r.entry);
    }
  }
}
