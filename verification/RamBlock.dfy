/** The in-memory engine: sealed tables plus one that takes writes. */
module RamBlocks {
  import opened Wrappers
  import opened Arithmetic
  import opened Bytes
  import opened Entries
  import opened TableModel
  import opened Tables
  import opened Compaction
  import opened RamBlockModel
  import RamBlockRuns

  ghost function Views(ts: seq<Table>): (vs: Engine)
    reads ts
    ensures |vs| == |ts|
    ensures forall i | 0 <= i < |ts| :: vs[i] == ts[i].View()
  {
    seq(|ts|, i requires 0 <= i < |ts| reads ts => ts[i].View())
  }

  ghost predicate AllValid(ts: seq<Table>)
    reads ts
  {
    forall t {:trigger t in ts} | t in ts :: t.Valid()
  }

  predicate Distinct(ts: seq<Table>) {
    forall i, j | 0 <= i < j < |ts| :: ts[i] != ts[j]
  }

  lemma {:induction false} NotRecycled(vs: Engine, i: nat)
    requires Inv(vs) && i < |vs|
    ensures vs[i].state != Recycled
  {
    if i < |vs| - 1 { assert vs[i] == Older(vs)[i]; }
  }

  /** The visits of a scan over all tables, oldest table first. */
  ghost function AllVisits(ts: seq<Table>): seq<(U64, Entry)>
    reads ts
  {
    if ts == [] then [] else AllVisits(ts[..|ts| - 1]) + Visits(ts[|ts| - 1].live)
  }

  /** A table's scan names exactly its live keys, once each. */
  lemma {:induction false} VisitsTimes(live: seq<Record>, size: nat, k: U64)
    requires Wf(live, size)
    ensures RamBlockRuns.Times(Visits(live), k) == if k in Live(live) then 1 else 0
  {
    if live != [] {
      VisitsTimes(TableModel.Init(live), TableModel.Last(live).start, k);
      assert Visits(live)[..|live| - 1] == Visits(TableModel.Init(live));
    }
  }

  /** A scan of all tables names each key as often as it has versions. */
  lemma {:induction false} AllVisitsTimes(ts: seq<Table>, k: U64)
    requires AllValid(ts)
    ensures RamBlockRuns.Times(AllVisits(ts), k) == |Versions(Views(ts), k)|
  {
    if ts != [] {
      var init, last := ts[..|ts| - 1], ts[|ts| - 1];
      assert last in ts && last.Valid() && forall t | t in init :: t in ts;
      AllVisitsTimes(init, k);
      VisitsTimes(last.live, last.offset, k);
      RamBlockRuns.TimesConcat(AllVisits(init), Visits(last.live), k);
      assert Older(Views(ts)) == Views(init) && Head(Views(ts)) == last.View();
    }
  }

  lemma {:induction false} Extended(ts: seq<Table>, i: nat)
    requires i < |ts|
    ensures AllVisits(ts[..i + 1]) == AllVisits(ts[..i]) + Visits(ts[i].live)
    ensures AllVisits(ts[..i + 1]) <= AllVisits(ts)
    decreases |ts|
  {
    assert ts[..i + 1][..i] == ts[..i];
    if i + 1 == |ts| {
      assert ts[..i + 1] == ts;
    } else {
      var init := ts[..|ts| - 1];
      assert init[..i + 1] == ts[..i + 1] && init[..i] == ts[..i];
      Extended(init, i);
    }
  }

  /** The callback as the next table's scan sees it, after `base` visits. */
  function Shifted(go: nat -> bool, base: nat): nat -> bool {
    (j: nat) => go(base + j)
  }

  lemma {:induction false} HeedsShifted(go: nat -> bool, base: nat, more: nat, size: nat, total: nat, done: bool)
    requires (forall j | 0 <= j < base :: go(j)) && base + size <= total
    requires Heeds(Shifted(go, base), more, size, done)
    ensures base + more <= total && (done ==> more == size && forall j | 0 <= j < base + more :: go(j))
    ensures !done ==> Heeds(go, base + more, total, false)
  {
    forall j | base <= j < base + more - 1 ensures go(j) {
      assert Shifted(go, base)(j - base);
    }
    if more > 0 {
      assert Shifted(go, base)(more - 1) == go(base + more - 1);
    }
  }

  class RamBlock {
    var tables: seq<Table>
    const tableCapacity: nat
    const overThreshold: (nat, nat) -> bool

    ghost predicate Valid()
      reads this, tables
    {
      Distinct(tables) && AllValid(tables) && Inv(Views(tables))
    }

    constructor (tableCapacity: nat, overThreshold: (nat, nat) -> bool)
      requires tableCapacity > 0
      ensures Valid() && fresh(tables)
      ensures Views(tables) == [TableView(ReadWrite, tableCapacity, 0, 0, map[])]
      ensures this.tableCapacity == tableCapacity
    {
      var t := new Table.WithCapacity(tableCapacity);
      tables := [t];
      this.tableCapacity := tableCapacity;
      this.overThreshold := overThreshold;
    }

    method ContainsAt(idx: nat, hkey: U64) returns (r: bool)
      requires AllValid(tables) && idx < |tables|
      ensures r == (hkey in Views(tables)[idx].content)
    {
      assert tables[idx] in tables;
      r := tables[idx].Contains(hkey);
    }

    method GetAt(idx: nat, hkey: U64) returns (r: Option<Entry>)
      requires AllValid(tables) && idx < |tables|
      ensures r == var c := Views(tables)[idx].content; if hkey in c then Some(c[hkey]) else None
    {
      assert tables[idx] in tables;
      r := tables[idx].Get(hkey);
    }

    /** Walks the tables newest first. */
    method FindLiveTable(hkey: U64) returns (idx: Option<nat>)
      requires AllValid(tables) && Inv(Views(tables))
      ensures idx == FindLive(Views(tables), hkey)
    {
      ghost var vs := Views(tables);
      var i := |tables|;
      while i > 0
        invariant 0 <= i <= |tables|
        invariant forall j | i <= j < |vs| :: hkey !in vs[j].content
      {
        i := i - 1;
        NotRecycled(vs, i);
        if tables[i].state != Recycled {
          var found := ContainsAt(i, hkey);
          if found {
            return Some(i);
          }
        }
      }
      idx := None;
    }

    method Get(hkey: U64) returns (r: Option<Entry>)
      requires Valid()
      ensures r == Top(Versions(Views(tables), hkey))
    {
      ghost var vs := Views(tables);
      FindLiveTop(vs, hkey);
      var i := |tables|;
      while i > 0
        invariant 0 <= i <= |tables|
        invariant forall j | i <= j < |vs| :: hkey !in vs[j].content
      {
        i := i - 1;
        NotRecycled(vs, i);
        if tables[i].state != Recycled {
          r := GetAt(i, hkey);
          if r.Some? {
            return r;
          }
        }
      }
      r := None;
    }

    method ScanAt(idx: nat, go: nat -> bool) returns (visited: seq<(U64, Entry)>, finished: bool)
      requires AllValid(tables) && idx < |tables|
      ensures visited <= Visits(tables[idx].live)
      ensures Heeds(go, |visited|, |Visits(tables[idx].live)|, finished)
    {
      assert tables[idx] in tables;
      visited, finished := tables[idx].Scan(go);
    }

    /** The scan of table `i`, after the tables before it have been scanned to the end. */
    method ScanNext(i: nat, go: nat -> bool, before: seq<(U64, Entry)>)
      returns (visited: seq<(U64, Entry)>, finished: bool)
      requires AllValid(tables) && i < |tables| && before == AllVisits(tables[..i])
      requires forall j | 0 <= j < |before| :: go(j)
      ensures finished ==> visited == AllVisits(tables[..i + 1]) && forall j | 0 <= j < |visited| :: go(j)
      ensures !finished ==> visited <= AllVisits(tables) && Heeds(go, |visited|, |AllVisits(tables)|, false)
    {
      var more;
      more, finished := ScanAt(i, Shifted(go, |before|));
      Extended(tables, i);
      HeedsShifted(go, |before|, |more|, |Visits(tables[i].live)|, |AllVisits(tables)|, finished);
      visited := before + more;
    }

    /** Visits the tables oldest first until the callback says stop. */
    method Scan(go: nat -> bool) returns (visited: seq<(U64, Entry)>, finished: bool)
      requires Valid()
      ensures visited <= AllVisits(tables) && Heeds(go, |visited|, |AllVisits(tables)|, finished)
      ensures finished ==> RamBlockRuns.Faithful(visited, Views(tables))
    {
      ghost var vs := Views(tables);
      visited, finished := [], true;
      for i := 0 to |tables|
        invariant finished && visited == AllVisits(tables[..i])
        invariant forall j | 0 <= j < |visited| :: go(j)
      {
        NotRecycled(vs, i);
        if tables[i].state != Recycled {
          visited, finished := ScanNext(i, go, visited);
          if !finished {
            return;
          }
        }
      }
      assert tables[..|tables|] == tables;
      forall k: U64 ensures RamBlockRuns.Times(visited, k) == |Versions(vs, k)| {
        AllVisitsTimes(tables, k);
      }
    }

    method Len() returns (n: nat)
      requires Valid()
      ensures n == RamBlockRuns.Len(Views(tables))
    {
      n := 0;
      ghost var vs := Views(tables);
      for i := 0 to |tables|
        invariant n == RamBlockRuns.Len(vs[..i])
      {
        NotRecycled(vs, i);
        assert vs[..i + 1][..i] == vs[..i];
        assert tables[i] in tables;
        KeysAgree(tables[i].live);
        assert |tables[i].hkeys| == |tables[i].hkeys.Keys| && |vs[i].content| == |vs[i].content.Keys|;
        if tables[i].state != Recycled {
          n := n + |tables[i].hkeys|;
        }
      }
      assert vs[..|vs|] == vs;
    }

    method InUse() returns (n: nat)
      requires Valid()
      ensures n == RamBlockRuns.InUse(Views(tables))
    {
      n := 0;
      ghost var vs := Views(tables);
      for i := 0 to |tables|
        invariant n == RamBlockRuns.InUse(vs[..i])
      {
        NotRecycled(vs, i);
        assert vs[..i + 1][..i] == vs[..i];
        if tables[i].state != Recycled {
          n := n + tables[i].liveBytes;
        }
      }
      assert vs[..|vs|] == vs;
    }

    /** Deletes from one table; the others are not touched. */
    method DeleteAt(idx: nat, hkey: U64) returns (deleted: bool)
      requires idx < |tables| && Distinct(tables) && AllValid(tables)
      modifies tables[idx]
      ensures AllValid(tables)
      ensures Views(tables) == old(Views(tables))[idx := old(Views(tables))[idx].Delete(hkey)]
      ensures deleted == (hkey in old(Views(tables))[idx].content)
    {
      assert tables[idx] in tables;
      deleted := tables[idx].Delete(hkey);
      assert tables[idx] in tables;
    }

    method Delete(hkey: U64) returns (deleted: bool)
      requires Valid()
      modifies tables
      ensures Valid()
      ensures Views(tables) == RamBlockModel.Delete(old(Views(tables)), hkey)
      ensures deleted == (old(Versions(Views(tables), hkey)) != [])
    {
      FindLiveTop(Views(tables), hkey);
      DeleteKeepsInv(Views(tables), hkey);
      var idx := FindLiveTable(hkey);
      if idx.None? {
        return false;
      }
      deleted := DeleteAt(idx.value, hkey);
    }

    /** Index of the last table that takes writes. */
    method FindHead() returns (idx: Option<nat>)
      ensures idx.Some? ==> idx.value < |tables| && tables[idx.value].state == ReadWrite
      ensures forall j | 0 <= j < |tables| && tables[j].state == ReadWrite :: idx.Some? && j <= idx.value
    {
      var i := |tables|;
      while i > 0
        invariant 0 <= i <= |tables|
        invariant forall j | i <= j < |tables| :: tables[j].state != ReadWrite
      {
        i := i - 1;
        if tables[i].state == ReadWrite {
          return Some(i);
        }
      }
      idx := None;
    }

    method SealLast()
      requires tables != [] && Distinct(tables) && AllValid(tables)
      requires tables[|tables| - 1].state == ReadWrite
      modifies tables[|tables| - 1]
      ensures AllValid(tables)
      ensures Views(tables) == SealHead(old(Views(tables)))
    {
      var n := |tables| - 1;
      assert tables[n] in tables;
      tables[n].Seal();
      assert tables[n] in tables;
    }

    method PushTable(cap: nat)
      requires Distinct(tables) && AllValid(tables)
      modifies this`tables
      ensures Distinct(tables) && AllValid(tables)
      ensures Views(tables) == old(Views(tables)) + [TableView(ReadWrite, cap, 0, 0, map[])]
      ensures forall t | t in tables :: t in old(tables) || fresh(t)
    {
      var t := new Table.WithCapacity(cap);
      tables := tables + [t];
      assert tables[..|tables| - 1] == old(tables);
    }

    /** Seals the head and adds a fresh table when the head has no room. */
    method EnsureWritableFor(need: nat)
      requires Valid()
      modifies this`tables, tables
      ensures Valid()
      ensures Views(tables) == EnsureWritable(old(Views(tables)), need, tableCapacity)
      ensures forall t | t in tables :: t in old(tables) || fresh(t)
    {
      EnsureWritableFacts(Views(tables), need, tableCapacity, 0);
      var headIdx := FindHead();
      assert Views(tables)[|tables| - 1] == Head(Views(tables));
      var idx := headIdx.value;
      if tables[idx].offset + need <= tables[idx].capacity {
        return;
      }
      SealLast();
      PushTable(if need >= tableCapacity then need else tableCapacity);
    }

    method AppendToLast(hkey: U64, entry: Entry) returns (r: Result<bool, StorageError>)
      requires tables != [] && Distinct(tables) && AllValid(tables)
      requires tables[|tables| - 1].state == ReadWrite
      requires tables[|tables| - 1].offset + EncodedLen(entry) <= tables[|tables| - 1].capacity
      requires tables[|tables| - 1].offset <= U32_MAX
      modifies tables[|tables| - 1]
      ensures AllValid(tables)
      ensures r == if Encodable(entry) then Ok(true) else Err(EncodeError(entry).value)
      ensures Views(tables) ==
              if Encodable(entry) then AppendToHead(old(Views(tables)), hkey, entry) else old(Views(tables))
    {
      ghost var vs := Views(tables);
      var last := tables[|tables| - 1];
      assert last in tables && last.View() == Head(vs);
      r := last.Append(hkey, entry);
      HeadReplaced(vs, Views(tables));
    }

    /** Marks the live copy garbage if it sits in a sealed table. */
    method DropSealedCopy(hkey: U64)
      requires Valid()
      modifies tables
      ensures Valid() && Views(tables) == DropSealed(old(Views(tables)), hkey)
    {
      DropSealedFacts(Views(tables), hkey, hkey);
      var idx := FindLiveTable(hkey);
      if idx.Some? {
        assert Views(tables)[idx.value] == tables[idx.value].View();
        if tables[idx.value].state == ReadOnly {
          var dropped := DeleteAt(idx.value, hkey);
        }
      }
    }

    /** Makes room and appends. */
    method Store(hkey: U64, entry: Entry) returns (r: Result<bool, StorageError>)
      requires Valid()
      requires Fits(Head(Views(tables)), EncodedLen(entry)) ==> Head(Views(tables)).size <= U32_MAX
      modifies this`tables, tables
      ensures Distinct(tables) && AllValid(tables)
      ensures r == if Encodable(entry) then Ok(true) else Err(EncodeError(entry).value)
      ensures var w := EnsureWritable(old(Views(tables)), EncodedLen(entry), tableCapacity);
        Views(tables) == if Encodable(entry) then AppendToHead(w, hkey, entry) else w
      ensures forall t | t in tables :: t in old(tables) || fresh(t)
    {
      EnsureWritableFacts(Views(tables), EncodedLen(entry), tableCapacity, hkey);
      EnsureWritableFor(EncodedLen(entry));
      ghost var last := tables[|tables| - 1];
      assert last.View() == Head(Views(tables));
      assert last in tables;
      r := AppendToLast(hkey, entry);
    }

    /**
     Drops a sealed copy, makes room, appends. Table offsets must stay within 32 bits:
     a head that takes the record has not yet passed that limit.
     */
    method Put(hkey: U64, entry: Entry) returns (r: Result<(), StorageError>)
      requires Valid()
      requires Fits(Head(Views(tables)), EncodedLen(entry)) ==> Head(Views(tables)).size <= U32_MAX
      modifies this`tables, tables
      ensures Valid()
      ensures Views(tables) == RamBlockModel.Put(old(Views(tables)), tableCapacity, hkey, entry)
      ensures r == if Encodable(entry) then Ok(()) else Err(EncodeError(entry).value)
      ensures forall t | t in tables :: t in old(tables) || fresh(t)
    {
      PutStages(Views(tables), tableCapacity, hkey, entry);
      DropSealedCopy(hkey);
      var stored := Store(hkey, entry);
      r := if stored.Ok? then Ok(()) else Err(stored.error);
    }

    /** Writes unless the stored timestamp is at least as high. */
    method PutLww(hkey: U64, entry: Entry) returns (r: Result<bool, StorageError>)
      requires Valid()
      requires Fits(Head(Views(tables)), EncodedLen(entry)) ==> Head(Views(tables)).size <= U32_MAX
      modifies this`tables, tables
      ensures Valid()
      ensures Views(tables) == RamBlockRuns.PutLww(old(Views(tables)), tableCapacity, RamBlockRuns.Write(hkey, entry))
      ensures r == Ok(false) ==> Views(tables) == old(Views(tables))
      ensures r == Ok(true) ==> Top(Versions(Views(tables), hkey)) == Some(entry)
      ensures r.Err? ==> !Encodable(entry)
    {
      ghost var vs := Views(tables);
      var existing := Get(hkey);
      if existing.Some? && existing.value.timestampNanos >= entry.timestampNanos {
        return Ok(false);
      }
      var put := Put(hkey, entry);
      if put.Err? {
        return Err(put.error);
      }
      PutReplacesOrPushes(vs, tableCapacity, hkey, entry, hkey);
      r := Ok(true);
    }

    /** The copy that takes the place of a sealed table, and the bytes it saves. */
    method Rewrite(t: Table) returns (compacted: Table, freed: nat)
      requires t.Valid() && t.state == ReadOnly
      modifies t
      ensures fresh(compacted) && compacted.Valid()
      ensures var v := old(t.View());
        && compacted.View() == v.(size := v.liveBytes)
        && freed == SaturatingSub(v.size, v.liveBytes)
    {
      var before := t.liveBytes + t.garbageBytes;
      compacted := CompactTable(t, t.capacity);
      freed := SaturatingSub(before, compacted.liveBytes);
      compacted.Seal();
      t.Recycle();
    }

    /** Rewrites one sealed table and takes the old one out of service. */
    method CompactAt(idx: nat) returns (freed: nat)
      requires idx < |tables| && Distinct(tables) && AllValid(tables)
      requires tables[idx].state == ReadOnly
      modifies this`tables, tables[idx]
      ensures Distinct(tables) && AllValid(tables)
      ensures var v := old(Views(tables))[idx];
        && Views(tables) == old(Views(tables))[idx := v.(size := v.liveBytes)]
        && freed == SaturatingSub(v.size, v.liveBytes)
      ensures |tables| == |old(tables)| && fresh(tables[idx])
      ensures forall i | 0 <= i < |tables| && i != idx :: tables[i] == old(tables[i])
    {
      assert tables[idx] in tables;
      var compacted;
      compacted, freed := Rewrite(tables[idx]);
      tables := tables[idx := compacted];
      forall t | t in tables ensures t == compacted || (t in old(tables) && t != old(tables[idx])) {
        var i :| 0 <= i < |tables| && tables[i] == t;
      }
    }

    /** Rewrites a table if it is sealed and over the threshold. */
    method CompactIfNeeded(idx: nat) returns (freed: nat)
      requires idx < |tables| && Distinct(tables) && AllValid(tables)
      modifies this`tables, tables[idx]
      ensures Distinct(tables) && AllValid(tables)
      ensures var v := old(Views(tables))[idx];
        && Views(tables) == old(Views(tables))[idx := CompactOne(v, overThreshold)]
        && freed == if Rewritten(v, overThreshold) then SaturatingSub(v.size, v.liveBytes) else 0
      ensures |tables| == |old(tables)|
      ensures if Rewritten(old(Views(tables))[idx], overThreshold) then fresh(tables[idx])
              else tables[idx] == old(tables[idx])
      ensures forall i | 0 <= i < |tables| && i != idx :: tables[i] == old(tables[i])
    {
      assert tables[idx] in tables;
      freed := 0;
      if tables[idx].state == ReadOnly && overThreshold(tables[idx].garbageBytes, tables[idx].offset) {
        freed := CompactAt(idx);
      }
    }

    /** The pass over all tables. */
    method CompactAll() returns (reclaimed: nat)
      requires Distinct(tables) && AllValid(tables)
      modifies this`tables, tables
      ensures Distinct(tables) && AllValid(tables)
      ensures Views(tables) == RamBlockModel.Compact(old(Views(tables)), overThreshold)
      ensures reclaimed == Reclaimed(old(Views(tables)), overThreshold)
      ensures |tables| == |old(tables)| && forall i | 0 <= i < |tables| ::
        if Rewritten(old(Views(tables))[i], overThreshold) then fresh(tables[i]) else tables[i] == old(tables)[i]
    {
      ghost var vs := Views(tables);
      reclaimed := 0;
      for i := 0 to |tables|
        invariant Distinct(tables) && AllValid(tables)
        invariant CompactedTo(vs, Views(tables), i, overThreshold)
        invariant OthersKept(vs, old(tables), tables, i, overThreshold)
        invariant forall j | 0 <= j < i && Rewritten(vs[j], overThreshold) :: fresh(tables[j])
        invariant reclaimed == Reclaimed(vs[..i], overThreshold)
      {
        assert tables[i] in old(tables);
        ghost var before, ws := tables, Views(tables);
        var freed := CompactIfNeeded(i);
        reclaimed := reclaimed + freed;
        CompactedStep(vs, ws, i, overThreshold);
        KeptStep(vs, old(tables), before, tables, i, overThreshold);
        ReclaimedStep(vs, i, overThreshold);
      }
      AllCompacted(vs, Views(tables), overThreshold);
      assert vs[..|vs|] == vs;
    }

    /**
     A table is replaced exactly when it is sealed and its garbage is over the threshold; the others stay
     as they are. The result is the garbage of the replaced tables, and unless the threshold refuses
     even tables without garbage, no sealed table is over it afterwards.
     */
    method Compact() returns (reclaimed: nat)
      requires Valid()
      modifies this`tables, tables
      ensures Valid()
      ensures Views(tables) == RamBlockModel.Compact(old(Views(tables)), overThreshold)
      ensures |tables| == |old(tables)|
      ensures var was, now := old(Counters(tables)), Counters(tables);
        && (forall i | 0 <= i < |was| ::
              if was[i].state == ReadOnly && overThreshold(was[i].garbageBytes, was[i].offset)
              then fresh(tables[i]) && now[i] == Counter(ReadOnly, 0, was[i].liveBytes, was[i].liveBytes)
              else tables[i] == old(tables)[i] && now[i] == was[i])
        && reclaimed == SealedGarbageOver(was, overThreshold)
        && ((forall n: nat :: !overThreshold(0, n)) ==>
              forall i | 0 <= i < |now| ::
                now[i].state == ReadOnly ==> !overThreshold(now[i].garbageBytes, now[i].offset))
    {
      ghost var vs := Views(tables);
      CompactKeeps(vs, overThreshold, 0);
      CountersAgree(tables);
      ghost var was := Counters(tables);
      SumsAgree(vs, was, overThreshold);
      reclaimed := CompactAll();
      CountersAgree(tables);
      CompactCounters(vs, was, Counters(tables), overThreshold);
    }
  }

  lemma {:induction false} HeadReplaced(vs: Engine, ws: Engine)
    requires |vs| == |ws| > 0 && forall i | 0 <= i < |vs| - 1 :: ws[i] == vs[i]
    ensures ws == Older(vs) + [Head(ws)] && (Head(ws) == Head(vs) ==> ws == vs)
  {
  }

  lemma {:induction false} ReclaimedStep(vs: Engine, i: nat, over: (nat, nat) -> bool)
    requires i < |vs|
    ensures Reclaimed(vs[..i + 1], over)
         == Reclaimed(vs[..i], over) + if Rewritten(vs[i], over) then SaturatingSub(vs[i].size, vs[i].liveBytes) else 0
  {
    assert Older(vs[..i + 1]) == vs[..i] && Head(vs[..i + 1]) == vs[i];
  }

  /** The first `i` tables have been compacted where needed. */
  predicate CompactedTo(vs: Engine, ws: Engine, i: nat, over: (nat, nat) -> bool) {
    |ws| == |vs| && i <= |vs| && forall j | 0 <= j < |vs| :: ws[j] == if j < i then CompactOne(vs[j], over) else vs[j]
  }

  lemma {:induction false} CompactedStep(vs: Engine, ws: Engine, i: nat, over: (nat, nat) -> bool)
    requires CompactedTo(vs, ws, i, over) && i < |vs|
    ensures ws[i] == vs[i] && CompactedTo(vs, ws[i := CompactOne(ws[i], over)], i + 1, over)
  {
  }

  lemma {:induction false} AllCompacted(vs: Engine, ws: Engine, over: (nat, nat) -> bool)
    requires CompactedTo(vs, ws, |vs|, over)
    ensures ws == RamBlockModel.Compact(vs, over)
  {
  }

  /** Tables that are still to come or need no compaction are the same objects. */
  ghost predicate OthersKept(vs: Engine, was: seq<Table>, now: seq<Table>, i: nat, over: (nat, nat) -> bool) {
    |was| == |now| == |vs| && forall j | 0 <= j < |vs| && (i <= j || !Rewritten(vs[j], over)) :: now[j] == was[j]
  }

  lemma {:induction false} KeptStep(
    vs: Engine, was: seq<Table>, before: seq<Table>, now: seq<Table>, i: nat, over: (nat, nat) -> bool)
    requires OthersKept(vs, was, before, i, over) && i < |vs| == |now|
    requires forall j | 0 <= j < |now| && j != i :: now[j] == before[j]
    requires !Rewritten(vs[i], over) ==> now[i] == before[i]
    ensures OthersKept(vs, was, now, i + 1, over)
  {
  }

  /** The counters of a table that decide its compaction. */
  datatype Counter = Counter(state: TableState, garbageBytes: nat, offset: nat, liveBytes: nat)

  ghost function CounterOf(t: Table): Counter
    reads t
  {
    Counter(t.state, t.garbageBytes, t.offset, t.liveBytes)
  }

  ghost function Counters(ts: seq<Table>): (cs: seq<Counter>)
    reads ts
    ensures |cs| == |ts|
    ensures forall i | 0 <= i < |ts| :: cs[i] == CounterOf(ts[i])
  {
    seq(|ts|, i requires 0 <= i < |ts| reads ts => CounterOf(ts[i]))
  }

  /** Counters that fit a view: what is not live is garbage. */
  predicate Fitting(v: TableView, c: Counter) {
    c.state == v.state && c.offset == v.size && c.liveBytes == v.liveBytes && c.garbageBytes + v.liveBytes == v.size
  }

  predicate AllFitting(vs: Engine, cs: seq<Counter>) {
    |vs| == |cs| && forall i | 0 <= i < |vs| :: Fitting(vs[i], cs[i])
  }

  lemma {:induction false} CounterAgrees(t: Table)
    requires t.Valid()
    ensures Fitting(t.View(), CounterOf(t))
  {
  }

  lemma {:induction false} CountersAgree(ts: seq<Table>)
    requires AllValid(ts)
    ensures AllFitting(Views(ts), Counters(ts))
  {
    forall i | 0 <= i < |ts| ensures Fitting(Views(ts)[i], Counters(ts)[i]) {
      assert ts[i] in ts;
      CounterAgrees(ts[i]);
    }
  }

  lemma {:induction false} CompactCounters(
    vs: Engine, was: seq<Counter>, now: seq<Counter>, over: (nat, nat) -> bool)
    requires AllFitting(vs, was) && AllFitting(RamBlockModel.Compact(vs, over), now)
    ensures forall i | 0 <= i < |was| ::
      if was[i].state == ReadOnly && over(was[i].garbageBytes, was[i].offset)
      then Rewritten(vs[i], over) && now[i] == Counter(ReadOnly, 0, was[i].liveBytes, was[i].liveBytes)
      else !Rewritten(vs[i], over) && now[i] == was[i]
  {
    forall i | 0 <= i < |was|
      ensures if was[i].state == ReadOnly && over(was[i].garbageBytes, was[i].offset)
              then Rewritten(vs[i], over) && now[i] == Counter(ReadOnly, 0, was[i].liveBytes, was[i].liveBytes)
              else !Rewritten(vs[i], over) && now[i] == was[i]
    {
      assert Fitting(vs[i], was[i]) && Fitting(CompactOne(vs[i], over), now[i]);
    }
  }

  /** The garbage bytes of the sealed tables that are over the threshold. */
  function SealedGarbageOver(cs: seq<Counter>, over: (nat, nat) -> bool): nat {
    if cs == [] then 0
    else
      var c := cs[|cs| - 1];
      SealedGarbageOver(cs[..|cs| - 1], over)
      + if c.state == ReadOnly && over(c.garbageBytes, c.offset) then c.garbageBytes else 0
  }

  lemma {:induction false} SumsAgree(vs: Engine, cs: seq<Counter>, over: (nat, nat) -> bool)
    requires AllFitting(vs, cs)
    ensures Reclaimed(vs, over) == SealedGarbageOver(cs, over)
  {
    if vs != [] {
      var n := |vs| - 1;
      assert Fitting(vs[n], cs[n]);
      SumsAgree(vs[..n], cs[..n], over);
    }
  }
}
