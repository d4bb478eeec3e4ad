/** What a table stands for: its live records, in the order they were appended. */
module TableModel {
  import opened Bytes
  import opened Entries

  datatype Record = Record(hkey: U64, entry: Entry, start: nat)

  function Init(live: seq<Record>): seq<Record>
    requires live != []
  {
    live[..|live| - 1]
  }

  function Last(live: seq<Record>): Record
    requires live != []
  {
    live[|live| - 1]
  }

  /** The key-to-entry map the records spell. */
  function Live(live: seq<Record>): map<U64, Entry> {
    if live == [] then map[] else Live(Init(live))[Last(live).hkey := Last(live).entry]
  }

  /** Where each key's record starts. */
  function Index(live: seq<Record>): map<U64, nat> {
    if live == [] then map[] else Index(Init(live))[Last(live).hkey := Last(live).start]
  }

  /** Bytes the live records occupy. */
  function LiveBytes(live: seq<Record>): nat {
    if live == [] then 0 else LiveBytes(Init(live)) + EncodedLen(Last(live).entry)
  }

  function Starts(live: seq<Record>): set<nat> {
    if live == [] then {} else Starts(Init(live)) + {Last(live).start}
  }

  /** The block spells out `r` at the offset recorded for it. */
  ghost predicate Holds(memory: seq<Byte>, r: Record) {
    && r.start <= U32_MAX
    && Encodable(r.entry)
    && r.start + EncodedLen(r.entry) <= |memory|
    && memory[r.start..r.start + EncodedLen(r.entry)] == Layout(r.entry)
  }

  ghost predicate Stored(memory: seq<Byte>, live: seq<Record>) {
    live != [] ==> Stored(memory, Init(live)) && Holds(memory, Last(live))
  }

  /** Records sit one after another within the first `size` bytes; no key is live twice. */
  ghost predicate Wf(live: seq<Record>, size: nat) {
    live != [] ==>
      && Wf(Init(live), Last(live).start)
      && Encodable(Last(live).entry)
      && Last(live).start + EncodedLen(Last(live).entry) <= size
      && Last(live).hkey !in Live(Init(live))
  }

  /** Drops the record of `k`, whose bytes become garbage. */
  function Without(live: seq<Record>, k: U64): seq<Record> {
    if live == [] then []
    else if Last(live).hkey == k then Without(Init(live), k)
    else Without(Init(live), k) + [Last(live)]
  }

  /** `k` now has the record `e`, newest of all. */
  function Appended(live: seq<Record>, size: nat, k: U64, e: Entry): seq<Record> {
    Without(live, k) + [Record(k, e, size)]
  }

  lemma {:induction false} Ends(live: seq<Record>, r: Record)
    ensures Init(live + [r]) == live && Last(live + [r]) == r
  {
  }

  lemma {:induction false} WfGrows(live: seq<Record>, size: nat, bigger: nat)
    requires Wf(live, size) && size <= bigger
    ensures Wf(live, bigger)
  {
  }

  lemma {:induction false} SnocFacts(live: seq<Record>, size: nat, r: Record)
    requires Wf(live, r.start) && Encodable(r.entry) && r.hkey !in Live(live)
    requires r.start + EncodedLen(r.entry) <= size
    ensures Wf(live + [r], size)
    ensures Live(live + [r]) == Live(live)[r.hkey := r.entry]
    ensures Index(live + [r]) == Index(live)[r.hkey := r.start]
    ensures LiveBytes(live + [r]) == LiveBytes(live) + EncodedLen(r.entry)
    ensures Starts(live + [r]) == Starts(live) + {r.start}
  {
    Ends(live, r);
  }

  lemma {:induction false} KeysAgree(live: seq<Record>)
    ensures Index(live).Keys == Live(live).Keys
  {
    if live != [] {
      KeysAgree(Init(live));
    }
  }

  /** A live key's record is in the block where the index says, and its bytes are counted. */
  lemma {:induction false} Find(memory: seq<Byte>, live: seq<Record>, size: nat, k: U64) returns (r: Record)
    requires Wf(live, size) && k in Live(live)
    ensures r.hkey == k && r.entry == Live(live)[k]
    ensures k in Index(live) && Index(live)[k] == r.start && r.start in Starts(live)
    ensures r.start + EncodedLen(r.entry) <= size
    ensures EncodedLen(r.entry) <= LiveBytes(live)
    ensures Stored(memory, live) ==> Holds(memory, r)
  {
    if Last(live).hkey == k {
      r := Last(live);
    } else {
      r := Find(memory, Init(live), Last(live).start, k);
    }
  }

  lemma {:induction false} StoredAt(memory: seq<Byte>, live: seq<Record>, i: nat)
    requires Stored(memory, live) && i < |live|
    ensures Holds(memory, live[i])
  {
    if i < |live| - 1 {
      StoredAt(memory, Init(live), i);
    }
  }

  /** Appending to the block moves nothing that is already there. */
  lemma {:induction false} StoredGrows(memory: seq<Byte>, tail: seq<Byte>, live: seq<Record>)
    requires Stored(memory, live)
    ensures Stored(memory + tail, live)
  {
    if live != [] {
      StoredGrows(memory, tail, Init(live));
      var r := Last(live);
      var n := r.start + EncodedLen(r.entry);
      assert (memory + tail)[r.start..n] == memory[r.start..n];
    }
  }

  lemma {:induction false} StoredWithout(memory: seq<Byte>, live: seq<Record>, k: U64)
    requires Stored(memory, live)
    ensures Stored(memory, Without(live, k))
  {
    if live != [] {
      StoredWithout(memory, Init(live), k);
      if Last(live).hkey == k {
        assert Without(live, k) == Without(Init(live), k);
      } else {
        Ends(Without(Init(live), k), Last(live));
      }
    }
  }

  lemma {:induction false} BytesFit(live: seq<Record>, size: nat)
    requires Wf(live, size)
    ensures LiveBytes(live) <= size
  {
    if live != [] {
      BytesFit(Init(live), Last(live).start);
    }
  }

  lemma {:induction false} RecordFacts(live: seq<Record>, size: nat, i: nat)
    requires Wf(live, size) && i < |live|
    ensures Encodable(live[i].entry) && live[i].start + EncodedLen(live[i].entry) <= size
    ensures live[i].hkey in Live(live) && Live(live)[live[i].hkey] == live[i].entry
    ensures live[i].hkey in Index(live) && Index(live)[live[i].hkey] == live[i].start
  {
    if i < |live| - 1 {
      RecordFacts(Init(live), Last(live).start, i);
      assert Init(live)[i] == live[i];
    }
  }

  /** Live extents never overlap: each record ends before the next one starts. */
  lemma {:induction false} ExtentsDisjoint(live: seq<Record>, size: nat, i: nat, j: nat)
    requires Wf(live, size) && i < j < |live|
    ensures live[i].start + EncodedLen(live[i].entry) <= live[j].start
    ensures live[i].hkey != live[j].hkey
  {
    if j < |live| - 1 {
      ExtentsDisjoint(Init(live), Last(live).start, i, j);
      assert Init(live)[i] == live[i] && Init(live)[j] == live[j];
    } else {
      RecordFacts(Init(live), Last(live).start, i);
      assert Init(live)[i] == live[i];
    }
  }

  lemma {:induction false} WithoutLast(live: seq<Record>, size: nat, k: U64)
    requires Wf(live, size) && live != [] && Last(live).hkey == k
    ensures Without(live, k) == Init(live)
    ensures Live(live) - {k} == Live(Init(live)) && Index(live) - {k} == Index(Init(live))
  {
    WithoutAbsent(Init(live), k);
    KeysAgree(Init(live));
  }

  /** Dropping a key removes it from both indexes and nothing else, and frees its bytes. */
  lemma {:induction false} WithoutFacts(live: seq<Record>, size: nat, k: U64)
    requires Wf(live, size)
    ensures Wf(Without(live, k), size)
    ensures Live(Without(live, k)) == Live(live) - {k}
    ensures Index(Without(live, k)) == Index(live) - {k}
    ensures LiveBytes(Without(live, k)) ==
            LiveBytes(live) - if k in Live(live) then EncodedLen(Live(live)[k]) else 0
  {
    if live != [] {
      var i, l := Init(live), Last(live);
      if l.hkey == k {
        WithoutLast(live, size, k);
        WfGrows(i, l.start, size);
      } else {
        WithoutFacts(i, l.start, k);
        SnocFacts(Without(i, k), size, l);
        assert Live(live) - {k} == (Live(i) - {k})[l.hkey := l.entry];
        assert Index(live) - {k} == (Index(i) - {k})[l.hkey := l.start];
      }
    }
  }

  lemma {:induction false} StartsBound(live: seq<Record>, size: nat)
    requires Wf(live, size)
    ensures forall o | o in Starts(live) :: o < size
  {
    if live != [] {
      StartsBound(Init(live), Last(live).start);
    }
  }

  /** The offset index loses exactly the dropped record's offset. */
  lemma {:induction false} WithoutStarts(live: seq<Record>, size: nat, k: U64)
    requires Wf(live, size)
    ensures Starts(Without(live, k)) == Starts(live) - if k in Index(live) then {Index(live)[k]} else {}
  {
    if live != [] {
      var i, l := Init(live), Last(live);
      WithoutStarts(i, l.start, k);
      StartsBound(i, l.start);
      KeysAgree(i);
      if l.hkey == k {
        assert Without(live, k) == Without(i, k);
      } else {
        Ends(Without(i, k), l);
        if k in Index(i) {
          var r := Find([], i, l.start, k);
        }
      }
    }
  }

  /** An append puts the new record in both indexes, in place of the old one. */
  lemma {:induction false} AppendFacts(live: seq<Record>, size: nat, k: U64, e: Entry)
    requires Wf(live, size) && Encodable(e)
    ensures Wf(Appended(live, size, k, e), size + EncodedLen(e))
    ensures Live(Appended(live, size, k, e)) == Live(live)[k := e]
    ensures Index(Appended(live, size, k, e)) == Index(live)[k := size]
    ensures LiveBytes(Appended(live, size, k, e)) == EncodedLen(e)
            + LiveBytes(live) - if k in Live(live) then EncodedLen(Live(live)[k]) else 0
    ensures Starts(Appended(live, size, k, e)) == Starts(Without(live, k)) + {size}
  {
    WithoutFacts(live, size, k);
    SnocFacts(Without(live, k), size + EncodedLen(e), Record(k, e, size));
  }

  lemma {:induction false} WithoutAbsent(live: seq<Record>, k: U64)
    requires k !in Live(live)
    ensures Without(live, k) == live
  {
    if live != [] {
      WithoutAbsent(Init(live), k);
    }
  }

  /** Writing an encoding at the end of the block stores the new record and keeps the others. */
  lemma {:induction false} StoredAppend(
    memory: seq<Byte>, bytes: seq<Byte>, live: seq<Record>, k: U64, e: Entry)
    requires Stored(memory, live) && |memory| <= U32_MAX && Encodable(e) && bytes == Layout(e)
    ensures Stored(memory + bytes, live + [Record(k, e, |memory|)])
  {
    StoredGrows(memory, bytes, live);
    Ends(live, Record(k, e, |memory|));
  }
}
