/** Append-only memory block with a hash-key to offset index. */
module Tables {
  import opened Wrappers
  import opened Arithmetic
  import opened Bytes
  import opened Entries
  import opened TableModel

  datatype TableState = ReadWrite | ReadOnly | Recycled

  /** What the engine sees of a table. */
  datatype TableView = TableView(
    state: TableState, capacity: nat, size: nat, liveBytes: nat, content: map<U64, Entry>)
  {
    function BytesOf(k: U64): nat {
      if k in content then EncodedLen(content[k]) else 0
    }

    function Append(k: U64, e: Entry): TableView {
      this.(size := size + EncodedLen(e),
            liveBytes := SaturatingSub(liveBytes, BytesOf(k)) + EncodedLen(e),
            content := content[k := e])
    }

    function Delete(k: U64): TableView {
      this.(liveBytes := SaturatingSub(liveBytes, BytesOf(k)), content := content - {k})
    }

    function AppendOutcome(e: Entry): Result<bool, StorageError> {
      if size + EncodedLen(e) > capacity then Ok(false)
      else if EncodeError(e).Some? then Err(EncodeError(e).value)
      else Ok(true)
    }
  }

  lemma {:induction false} DeleteAbsent(v: TableView, k: U64)
    requires k !in v.content
    ensures v.Delete(k) == v
  {
    assert v.content - {k} == v.content;
  }

  /** Both indexes and every counter are exactly what the live records dictate. */
  ghost predicate Consistent(
    live: seq<Record>, hkeys: map<U64, nat>, offsetIndex: set<nat>,
    offset: nat, garbageBytes: nat, liveBytes: nat)
  {
    && Wf(live, offset)
    && hkeys == Index(live)
    && offsetIndex == Starts(live)
    && liveBytes == LiveBytes(live)
    && liveBytes + garbageBytes == offset
  }

  /** Indexing a record written at the end keeps them consistent. */
  lemma {:induction false} InsertKeeps(
    live: seq<Record>, hkeys: map<U64, nat>, offsetIndex: set<nat>,
    offset: nat, garbageBytes: nat, liveBytes: nat, k: U64, e: Entry)
    requires Consistent(live, hkeys, offsetIndex, offset, garbageBytes, liveBytes)
    requires Encodable(e) && k !in Live(live)
    ensures Live(live + [Record(k, e, offset)]) == Live(live)[k := e]
    ensures Consistent(
      live + [Record(k, e, offset)], hkeys[k := offset], offsetIndex + {offset},
      offset + EncodedLen(e), garbageBytes, liveBytes + EncodedLen(e))
  {
    SnocFacts(live, offset + EncodedLen(e), Record(k, e, offset));
  }

  /** Dropping a record turns its bytes to garbage; the subtraction does not saturate. */
  lemma {:induction false} DeleteKeeps(
    live: seq<Record>, hkeys: map<U64, nat>, offsetIndex: set<nat>,
    offset: nat, garbageBytes: nat, liveBytes: nat, k: U64)
    requires Consistent(live, hkeys, offsetIndex, offset, garbageBytes, liveBytes)
    requires k in hkeys
    ensures k in Live(live) && EncodedLen(Live(live)[k]) <= liveBytes
    ensures Live(Without(live, k)) == Live(live) - {k}
    ensures var freed := EncodedLen(Live(live)[k]);
      Consistent(
        Without(live, k), hkeys - {k}, offsetIndex - {hkeys[k]},
        offset, garbageBytes + freed, liveBytes - freed)
  {
    KeysAgree(live);
    WithoutStarts(live, offset, k);
    WithoutFacts(live, offset, k);
    var r := Find([], live, offset, k);
  }

  class Table {
    const capacity: nat
    var memory: seq<Byte>
    var hkeys: map<U64, nat>
    var offsetIndex: set<nat>
    var offset: nat
    var garbageBytes: nat
    var liveBytes: nat
    var state: TableState
    ghost var live: seq<Record>

    ghost predicate Valid()
      reads this
    {
      var consistent := Consistent(live, hkeys, offsetIndex, offset, garbageBytes, liveBytes);
      var stored := Stored(memory, live);
      offset == |memory| <= capacity && consistent && stored
    }

    ghost function View(): TableView
      reads this
    {
      TableView(state, capacity, offset, liveBytes, Live(live))
    }

    constructor WithCapacity(capacity: nat)
      ensures Valid() && View() == TableView(ReadWrite, capacity, 0, 0, map[]) && live == []
    {
      this.capacity := capacity;
      memory, hkeys, offsetIndex := [], map[], {};
      offset, garbageBytes, liveBytes := 0, 0, 0;
      state, live := ReadWrite, [];
    }

    /** Reads back the record of a live key. */
    method DecodeAt(off: nat, ghost k: U64) returns (entry: Entry)
      requires Valid() && k in hkeys && off == hkeys[k]
      ensures k in Live(live) && entry == Live(live)[k]
    {
      KeysAgree(live);
      ghost var r := Find(memory, live, offset, k);
      assert memory[off..][..EncodedLen(r.entry)] == memory[off..off + EncodedLen(r.entry)];
      DecodeFront(memory[off..], r.entry);
      entry := Decode(memory[off..]).value.0;
    }

    /** Adds the encoding of a key that has no live record at the end of the block. */
    method Write(hkey: U64, ghost entry: Entry, bytes: seq<Byte>)
      requires Valid() && offset + EncodedLen(entry) <= capacity && offset <= U32_MAX
      requires Encodable(entry) && bytes == Layout(entry) && hkey !in Live(live)
      modifies this
      ensures Valid() && View() == old(View()).Append(hkey, entry)
      ensures live == old(live) + [Record(hkey, entry, old(offset))]
    {
      InsertKeeps(live, hkeys, offsetIndex, offset, garbageBytes, liveBytes, hkey, entry);
      StoredAppend(memory, bytes, live, hkey, entry);
      memory := memory + bytes;
      hkeys := hkeys[hkey := offset];
      offsetIndex := offsetIndex + {offset};
      liveBytes := liveBytes + |bytes|;
      live := live + [Record(hkey, entry, offset)];
      offset := offset + |bytes|;
    }

    /** The previous record of `hkey`, if any, turns to garbage and the new one is indexed. */
    method Append(hkey: U64, entry: Entry) returns (r: Result<bool, StorageError>)
      requires Valid()
      requires state == ReadWrite
      requires offset + EncodedLen(entry) <= capacity ==> offset <= U32_MAX
      modifies this
      ensures Valid()
      ensures r == old(View()).AppendOutcome(entry)
      ensures View() == if r == Ok(true) then old(View()).Append(hkey, entry) else old(View())
      ensures live == if r == Ok(true) then Appended(old(live), old(offset), hkey, entry) else old(live)
    {
      if offset + EncodedLen(entry) > capacity {
        return Ok(false);
      }
      var encoded := Encode(entry);
      if encoded.Err? {
        return Err(encoded.error);
      }
      Replace(hkey, entry, encoded.value);
      r := Ok(true);
    }

    method Replace(hkey: U64, ghost entry: Entry, bytes: seq<Byte>)
      requires Valid() && offset + EncodedLen(entry) <= capacity && offset <= U32_MAX
      requires Encodable(entry) && bytes == Layout(entry)
      modifies this
      ensures Valid() && View() == old(View()).Append(hkey, entry)
      ensures live == Appended(old(live), old(offset), hkey, entry)
    {
      WithoutFacts(live, offset, hkey);
      var overwritten := Delete(hkey);
      Write(hkey, entry, bytes);
    }

    method Contains(hkey: U64) returns (r: bool)
      requires Valid()
      ensures r == (hkey in View().content)
    {
      KeysAgree(live);
      r := hkey in hkeys;
    }

    method Get(hkey: U64) returns (r: Option<Entry>)
      requires Valid()
      ensures r == if hkey in View().content then Some(View().content[hkey]) else None
    {
      KeysAgree(live);
      if hkey !in hkeys {
        return None;
      }
      var entry := DecodeAt(hkeys[hkey], hkey);
      r := Some(entry);
    }

    method Delete(hkey: U64) returns (deleted: bool)
      requires Valid()
      modifies this
      ensures Valid()
      ensures deleted == (hkey in old(View()).content)
      ensures View() == old(View()).Delete(hkey)
      ensures live == Without(old(live), hkey)
    {
      KeysAgree(live);
      if hkey !in hkeys {
        WithoutAbsent(live, hkey);
        DeleteAbsent(View(), hkey);
        return false;
      }
      Demote(hkey);
      deleted := true;
    }

    /** Takes a live record out of both indexes and counts its bytes as garbage. */
    method Demote(hkey: U64)
      requires Valid() && hkey in hkeys
      modifies this
      ensures Valid() && View() == old(View()).Delete(hkey)
      ensures live == Without(old(live), hkey)
    {
      DeleteKeeps(live, hkeys, offsetIndex, offset, garbageBytes, liveBytes, hkey);
      StoredWithout(memory, live, hkey);
      var off := hkeys[hkey];
      var prev := DecodeAt(off, hkey);
      hkeys := hkeys - {hkey};
      offsetIndex := offsetIndex - {off};
      garbageBytes := garbageBytes + EncodedLen(prev);
      liveBytes := SaturatingSub(liveBytes, EncodedLen(prev));
      live := Without(live, hkey);
    }

    /** The bitmap iterator: offsets come out in ascending order. */
    method NextOffset(rest: set<nat>, ghost n: nat) returns (off: nat)
      requires Valid() && n <= |live| && rest == Starts(live) - Starts(live[..n]) != {}
      ensures n < |live| && off == live[n].start && off in rest
      ensures rest - {off} == Starts(live) - Starts(live[..n + 1])
    {
      NextStart(live, offset, n);
      off :| off in rest && forall o | o in rest :: off <= o;
    }

    /** The visit a scan makes at one offset of the index. */
    method VisitAt(off: nat, byOffset: map<nat, U64>, ghost n: nat) returns (visit: (U64, Entry))
      requires Valid() && n < |live| && off == live[n].start
      requires forall k | k in hkeys :: hkeys[k] in byOffset && byOffset[hkeys[k]] == k
      ensures visit == (live[n].hkey, live[n].entry)
    {
      RecordFacts(live, offset, n);
      var entry := DecodeAt(off, live[n].hkey);
      visit := (byOffset[off], entry);
    }

    /** The first `n` live records have been visited; `rest` are the offsets of the others. */
    ghost predicate Scanned(rest: set<nat>, visited: seq<(U64, Entry)>, n: nat)
      reads this
    {
      n <= |live| && rest == Starts(live) - Starts(live[..n]) && visited == Visits(live)[..n]
    }

    method VisitNext(rest: set<nat>, byOffset: map<nat, U64>, ghost visited: seq<(U64, Entry)>, ghost n: nat)
      returns (left: set<nat>, visit: (U64, Entry))
      requires Valid() && rest != {} && Scanned(rest, visited, n)
      requires forall k | k in hkeys :: hkeys[k] in byOffset && byOffset[hkeys[k]] == k
      ensures left < rest && n < |live| && Scanned(left, visited + [visit], n + 1)
    {
      var off := NextOffset(rest, n);
      left := rest - {off};
      visit := VisitAt(off, byOffset, n);
    }

    /** The index from offsets back to keys. */
    method Inverted() returns (byOffset: map<nat, U64>)
      requires Valid()
      ensures forall k | k in hkeys :: hkeys[k] in byOffset && byOffset[hkeys[k]] == k
    {
      IndexInjective(live, offset);
      byOffset := map k | k in hkeys :: hkeys[k] := k;
    }

    /**
     Visits the live records in offset order until the callback says stop: `go(i)` is what it answers
     to the `i`-th visit. `finished` says that it never did.
     */
    method Scan(go: nat -> bool) returns (visited: seq<(U64, Entry)>, finished: bool)
      requires Valid()
      ensures visited <= Visits(live) && Heeds(go, |visited|, |live|, finished)
    {
      var byOffset := Inverted();
      var rest := offsetIndex;
      visited, finished := [], true;
      NothingVisited(live);
      while rest != {}
        invariant Scanned(rest, visited, |visited|)
        invariant forall i | 0 <= i < |visited| :: go(i)
        decreases rest
      {
        var left, visit := VisitNext(rest, byOffset, visited, |visited|);
        rest, visited := left, visited + [visit];
        if !go(|visited| - 1) {
          return visited, false;
        }
      }
      AllVisited(live, offset, |visited|);
    }

    method Seal()
      requires Valid()
      modifies this
      ensures Valid() && live == old(live)
      ensures View() == old(View()).(state := if old(state).ReadWrite? then ReadOnly else old(state))
    {
      if state == ReadWrite {
        state := ReadOnly;
      }
    }

    method Recycle()
      requires Valid()
      modifies this
      ensures Valid() && View() == old(View()).(state := Recycled)
    {
      state := Recycled;
    }
  }

  /** What a full scan visits. */
  /** The callback was asked after each visit, and the scan stopped at its first refusal. */
  predicate Heeds(go: nat -> bool, visited: nat, total: nat, finished: bool) {
    && visited <= total && (forall i | 0 <= i < visited - 1 :: go(i))
    && (finished ==> visited == total && (visited > 0 ==> go(visited - 1)))
    && (!finished ==> visited > 0 && !go(visited - 1))
  }

  function Visits(live: seq<Record>): (v: seq<(U64, Entry)>)
    ensures |v| == |live|
  {
    seq(|live|, i requires 0 <= i < |live| => (live[i].hkey, live[i].entry))
  }

  lemma {:induction false} NothingVisited(live: seq<Record>)
    ensures Starts(live[..0]) == {} && Visits(live)[..0] == []
  {
    assert live[..0] == [];
  }

  /** Distinct keys sit at distinct offsets, so the index can be inverted. */
  lemma {:induction false} IndexInjective(live: seq<Record>, size: nat)
    requires Wf(live, size)
    ensures forall k, l | k in Index(live) && l in Index(live) && Index(live)[k] == Index(live)[l] :: k == l
  {
    forall k, l | k in Index(live) && l in Index(live) && Index(live)[k] == Index(live)[l]
      ensures k == l
    {
      KeysAgree(live);
      var r := Find([], live, size, k);
      var s := Find([], live, size, l);
      if k != l { StartsDistinct(live, size, k, l); }
    }
  }

  lemma {:induction false} StartsDistinct(live: seq<Record>, size: nat, k: U64, l: U64)
    requires Wf(live, size) && k in Index(live) && l in Index(live) && k != l
    ensures Index(live)[k] != Index(live)[l]
  {
    var i := Init(live);
    KeysAgree(i);
    if k in Index(i) { var r := Find([], i, Last(live).start, k); }
    if l in Index(i) { var s := Find([], i, Last(live).start, l); }
    if k in Index(i) && l in Index(i) { StartsDistinct(i, Last(live).start, k, l); }
  }

  lemma {:induction false} StartsOf(live: seq<Record>, o: nat) returns (j: nat)
    requires o in Starts(live)
    ensures j < |live| && live[j].start == o
  {
    if Last(live).start == o { j := |live| - 1; } else { j := StartsOf(Init(live), o); }
  }

  lemma {:induction false} StartIn(live: seq<Record>, i: nat)
    requires i < |live|
    ensures live[i].start in Starts(live)
  {
    if i < |live| - 1 { StartIn(Init(live), i); }
  }

  /** The least offset still to visit belongs to the next record. */
  lemma {:induction false} NextStart(live: seq<Record>, size: nat, n: nat)
    requires Wf(live, size) && n <= |live| && Starts(live) - Starts(live[..n]) != {}
    ensures n < |live|
    ensures live[n].start in Starts(live) - Starts(live[..n])
    ensures forall o | o in Starts(live) - Starts(live[..n]) :: live[n].start <= o
    ensures Starts(live) - Starts(live[..n]) - {live[n].start} == Starts(live) - Starts(live[..n + 1])
  {
    forall o | o in Starts(live) - Starts(live[..n])
      ensures n < |live| && live[n].start <= o
    {
      var j := StartsOf(live, o);
      if j < n { StartIn(live[..n], j); }
      if n < j { ExtentsDisjoint(live, size, n, j); }
    }
    var x :| x in Starts(live) - Starts(live[..n]);
    assert n < |live|;
    StartIn(live, n);
    if live[n].start in Starts(live[..n]) {
      var j := StartsOf(live[..n], live[n].start);
      ExtentsDisjoint(live, size, j, n);
      assert false;
    }
    assert Init(live[..n + 1]) == live[..n];
  }

  lemma {:induction false} AllVisited(live: seq<Record>, size: nat, n: nat)
    requires Wf(live, size) && n <= |live| && Starts(live) - Starts(live[..n]) == {}
    ensures n == |live| && Visits(live)[..n] == Visits(live)
  {
    if n < |live| {
      StartIn(live, n);
      var j := StartsOf(live[..n], live[n].start);
      ExtentsDisjoint(live, size, j, n);
    }
  }
}
