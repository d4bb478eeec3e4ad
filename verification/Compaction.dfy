/** Rewriting a table without its garbage. */
module Compaction {
  import opened Wrappers
  import opened Bytes
  import opened Entries
  import opened TableModel
  import opened Tables

  /** The live records packed from offset zero, in the same order. */
  function Packed(live: seq<Record>): (r: seq<Record>)
    ensures |r| == |live|
  {
    if live == [] then []
    else Packed(Init(live)) + [Record(Last(live).hkey, Last(live).entry, LiveBytes(Init(live)))]
  }

  /** Packing keeps the key-to-entry map, leaves no gap, and takes exactly the live bytes. */
  lemma {:induction false} PackedFacts(live: seq<Record>, size: nat)
    requires Wf(live, size)
    ensures Wf(Packed(live), LiveBytes(live))
    ensures Live(Packed(live)) == Live(live)
    ensures LiveBytes(Packed(live)) == LiveBytes(live) <= size
  {
    if live != [] {
      PackedFacts(Init(live), Last(live).start);
      SnocFacts(Packed(Init(live)), LiveBytes(live), Last(Packed(live)));
    }
  }

  /** Packing keeps the scan order and only moves records towards the front. */
  lemma {:induction false} PackedOrder(live: seq<Record>, size: nat)
    requires Wf(live, size)
    ensures Visits(Packed(live)) == Visits(live)
    ensures forall i | 0 <= i < |live| :: Packed(live)[i].start <= live[i].start
  {
    if live != [] {
      PackedOrder(Init(live), Last(live).start);
      BytesFit(Init(live), Last(live).start);
      forall i | 0 <= i < |live|
        ensures Packed(live)[i].start <= live[i].start
        ensures Visits(Packed(live))[i] == Visits(live)[i]
      {
        if i < |live| - 1 {
          assert Packed(live)[i] == Packed(Init(live))[i] && Init(live)[i] == live[i];
          assert Visits(Packed(Init(live)))[i] == Visits(Init(live))[i];
        }
      }
    }
  }

  lemma {:induction false} BytesMonotone(live: seq<Record>, i: nat)
    requires i <= |live|
    ensures LiveBytes(live[..i]) <= LiveBytes(live)
  {
    if i < |live| {
      BytesMonotone(Init(live), i);
      assert Init(live)[..i] == live[..i];
    } else {
      assert live[..i] == live;
    }
  }

  lemma {:induction false} WfPrefix(live: seq<Record>, size: nat, i: nat)
    requires Wf(live, size) && i < |live|
    ensures Wf(live[..i], live[i].start) && live[i].hkey !in Live(live[..i])
  {
    if i == |live| - 1 {
      assert live[..i] == Init(live);
    } else {
      WfPrefix(Init(live), Last(live).start, i);
      assert Init(live)[..i] == live[..i];
    }
  }

  /** One more record fits at the next packed offset, which the index can represent. */
  lemma {:induction false} PackStep(memory: seq<Byte>, live: seq<Record>, size: nat, i: nat)
    requires Wf(live, size) && Stored(memory, live) && i < |live|
    ensures Packed(live[..i + 1]) ==
            Appended(Packed(live[..i]), LiveBytes(live[..i]), live[i].hkey, live[i].entry)
    ensures LiveBytes(live[..i + 1]) == LiveBytes(live[..i]) + EncodedLen(live[i].entry) <= LiveBytes(live)
    ensures LiveBytes(live[..i]) <= U32_MAX && Encodable(live[i].entry)
  {
    assert Init(live[..i + 1]) == live[..i] && Last(live[..i + 1]) == live[i];
    WfPrefix(live, size, i);
    PackedFacts(live[..i], live[i].start);
    WithoutAbsent(Packed(live[..i]), live[i].hkey);
    StoredAt(memory, live, i);
    BytesMonotone(live, i + 1);
  }

  ghost predicate Copied(dst: Table, src: seq<Record>, cap: nat, i: nat)
    requires i <= |src|
    reads dst
  {
    && dst.state == ReadWrite && dst.capacity == cap
    && dst.offset == LiveBytes(src[..i]) && dst.live == Packed(src[..i])
  }

  /** The scan callback: appends one visit to the copy. The append is never refused. */
  method Copy(dst: Table, visit: (U64, Entry), ghost src: seq<Record>, ghost size: nat,
              ghost memory: seq<Byte>, ghost cap: nat, ghost i: nat)
    requires dst.Valid() && i < |src| && Copied(dst, src, cap, i)
    requires Wf(src, size) && Stored(memory, src) && LiveBytes(src) <= cap
    requires visit == (src[i].hkey, src[i].entry)
    modifies dst
    ensures dst.Valid() && Copied(dst, src, cap, i + 1)
  {
    PackStep(memory, src, size, i);
    var appended := dst.Append(visit.0, visit.1);
    assert appended == Ok(true);
  }

  method CopyAll(dst: Table, visits: seq<(U64, Entry)>, ghost src: seq<Record>, ghost size: nat,
                 ghost memory: seq<Byte>, ghost cap: nat)
    requires dst.Valid() && Copied(dst, src, cap, 0)
    requires Wf(src, size) && Stored(memory, src) && LiveBytes(src) <= cap
    requires visits == Visits(src)
    modifies dst
    ensures dst.Valid() && Copied(dst, src, cap, |src|)
  {
    for i := 0 to |visits|
      invariant dst.Valid() && Copied(dst, src, cap, i)
    {
      Copy(dst, visits[i], src, size, memory, cap, i);
    }
  }

  method ScanAll(src: Table) returns (visits: seq<(U64, Entry)>)
    requires src.Valid()
    ensures visits == Visits(src.live)
  {
    var finished;
    visits, finished := src.Scan(_ => true);
  }

  /** Copies every live record of `src` into a fresh table. */
  method CompactTable(src: Table, capacity: nat) returns (dst: Table)
    requires src.Valid()
    ensures fresh(dst) && dst.Valid() && dst.garbageBytes == 0
    ensures dst.capacity == if capacity >= src.liveBytes then capacity else src.liveBytes
    ensures dst.View() == src.View().(
      state := ReadWrite, capacity := dst.capacity, size := src.liveBytes)
    ensures dst.live == Packed(src.live)
  {
    var cap := if capacity >= src.liveBytes then capacity else src.liveBytes;
    dst := new Table.WithCapacity(cap);
    var visits := ScanAll(src);
    assert src.live[..0] == [];
    CopyAll(dst, visits, src.live, src.offset, src.memory, cap);
    assert src.live[..|src.live|] == src.live;
    PackedFacts(src.live, src.offset);
  }
}
