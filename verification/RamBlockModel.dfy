/**
 RamBlock on values: an oldest-first list of tables, and what each operation makes of it.
 The list refines a map from hash key to a stack of versions.
 */
module RamBlockModel {
  import opened Wrappers
  import opened Arithmetic
  import opened Bytes
  import opened Entries
  import opened Tables

  type Engine = seq<TableView>

  function Older(vs: Engine): Engine
    requires vs != []
  {
    vs[..|vs| - 1]
  }

  function Head(vs: Engine): TableView
    requires vs != []
  {
    vs[|vs| - 1]
  }

  predicate AllSealed(vs: Engine) {
    forall i | 0 <= i < |vs| :: vs[i].state == ReadOnly
  }

  /** The last table takes writes, all others are sealed; nothing recycled is ever listed. */
  predicate Inv(vs: Engine) {
    vs != [] && AllSealed(Older(vs)) && Head(vs).state == ReadWrite
  }

  // ---- the abstract state: every live copy of a key, newest first ----

  function Versions(vs: Engine, k: U64): seq<Entry> {
    if vs == [] then []
    else if k in Head(vs).content then [Head(vs).content[k]] + Versions(Older(vs), k)
    else Versions(Older(vs), k)
  }

  function Pop(s: seq<Entry>): seq<Entry> {
    if s == [] then [] else s[1..]
  }

  function SetTop(s: seq<Entry>, e: Entry): seq<Entry> {
    if s == [] then [e] else s[0 := e]
  }

  function Top(s: seq<Entry>): Option<Entry> {
    if s == [] then None else Some(s[0])
  }

  // ---- the operations ----

  /** Index of the newest table with a live record for `k`. */
  function FindLive(vs: Engine, k: U64): (r: Option<nat>)
    ensures r.Some? ==> r.value < |vs| && k in vs[r.value].content
    ensures r.Some? ==> forall i | r.value < i < |vs| :: k !in vs[i].content
    ensures r.None? ==> forall i | 0 <= i < |vs| :: k !in vs[i].content
  {
    if vs == [] then None
    else if k in Head(vs).content then Some(|vs| - 1)
    else FindLive(Older(vs), k)
  }

  function Delete(vs: Engine, k: U64): (r: Engine)
    ensures |r| == |vs|
  {
    var i := FindLive(vs, k);
    if i.None? then vs else vs[i.value := vs[i.value].Delete(k)]
  }

  predicate Fits(v: TableView, need: nat) {
    v.size + need <= v.capacity
  }

  function Fresh(need: nat, tableCapacity: nat): TableView {
    TableView(ReadWrite, if need >= tableCapacity then need else tableCapacity, 0, 0, map[])
  }

  function SealHead(vs: Engine): Engine
    requires vs != []
  {
    Older(vs) + [Head(vs).(state := ReadOnly)]
  }

  /** Seals a head without room for `need` bytes and starts a new one. */
  function EnsureWritable(vs: Engine, need: nat, tableCapacity: nat): (r: Engine)
    requires vs != []
    ensures r != []
  {
    if Fits(Head(vs), need) then vs else SealHead(vs) + [Fresh(need, tableCapacity)]
  }

  /** A sealed copy is dropped first; one in the head is left to the append. */
  function DropSealed(vs: Engine, k: U64): (r: Engine)
    ensures |r| == |vs|
  {
    var i := FindLive(vs, k);
    if i.Some? && vs[i.value].state.ReadOnly? then vs[i.value := vs[i.value].Delete(k)] else vs
  }

  function AppendToHead(vs: Engine, k: U64, e: Entry): (r: Engine)
    requires vs != []
    ensures r != []
  {
    Older(vs) + [Head(vs).Append(k, e)]
  }

  function Put(vs: Engine, tableCapacity: nat, k: U64, e: Entry): (r: Engine)
    requires vs != []
    ensures r != []
  {
    var w := EnsureWritable(DropSealed(vs, k), EncodedLen(e), tableCapacity);
    if Encodable(e) then AppendToHead(w, k, e) else w
  }

  /** Whether this put seals the very table that holds the key's live record. */
  predicate Shadows(vs: Engine, k: U64, e: Entry)
    requires vs != []
  {
    k in Head(vs).content && !Fits(Head(vs), EncodedLen(e))
  }

  /** A sealed table over the threshold is rewritten without its garbage. */
  predicate Rewritten(v: TableView, over: (nat, nat) -> bool) {
    v.state.ReadOnly? && over(SaturatingSub(v.size, v.liveBytes), v.size)
  }

  function CompactOne(v: TableView, over: (nat, nat) -> bool): TableView {
    if Rewritten(v, over) then v.(size := v.liveBytes) else v
  }

  function Compact(vs: Engine, over: (nat, nat) -> bool): (r: Engine)
    ensures |r| == |vs|
  {
    seq(|vs|, i requires 0 <= i < |vs| => CompactOne(vs[i], over))
  }

  /** Garbage bytes of the tables a compaction rewrites. */
  function Reclaimed(vs: Engine, over: (nat, nat) -> bool): nat {
    if vs == [] then 0
    else Reclaimed(Older(vs), over) +
         if Rewritten(Head(vs), over) then SaturatingSub(Head(vs).size, Head(vs).liveBytes) else 0
  }

  // ---- what each operation does to every stack ----

  lemma {:induction false} FindLiveTop(vs: Engine, k: U64)
    ensures FindLive(vs, k).None? <==> Versions(vs, k) == []
    ensures FindLive(vs, k).Some? ==> Versions(vs, k)[0] == vs[FindLive(vs, k).value].content[k]
  {
    if vs != [] && k !in Head(vs).content {
      FindLiveTop(Older(vs), k);
    }
  }

  lemma {:induction false} SameContent(vs: Engine, ws: Engine, q: U64)
    requires |vs| == |ws|
    requires forall i | 0 <= i < |vs| :: vs[i].content == ws[i].content
    ensures Versions(vs, q) == Versions(ws, q)
  {
    if vs != [] {
      SameContent(Older(vs), Older(ws), q);
    }
  }

  lemma {:induction false} Snoc(vs: Engine, v: TableView, q: U64)
    ensures Older(vs + [v]) == vs && Head(vs + [v]) == v
    ensures Versions(vs + [v], q) ==
            if q in v.content then [v.content[q]] + Versions(vs, q) else Versions(vs, q)
  {
    assert Older(vs + [v]) == vs;
  }

  /** A delete pops the newest version of its key and leaves every other key alone. */
  lemma {:induction false} DeletePops(vs: Engine, k: U64, q: U64)
    ensures Versions(Delete(vs, k), q) == if q == k then Pop(Versions(vs, q)) else Versions(vs, q)
    ensures forall i | 0 <= i < |vs| :: Delete(vs, k)[i].state == vs[i].state
  {
    if vs != [] {
      if k in Head(vs).content {
        assert Delete(vs, k) == Older(vs) + [Head(vs).Delete(k)];
        Snoc(Older(vs), Head(vs).Delete(k), q);
      } else {
        DeletePops(Older(vs), k, q);
        assert Delete(vs, k) == Delete(Older(vs), k) + [Head(vs)];
        Snoc(Delete(Older(vs), k), Head(vs), q);
      }
    }
  }

  lemma {:induction false} DeleteKeepsInv(vs: Engine, k: U64)
    requires Inv(vs)
    ensures Inv(Delete(vs, k))
  {
    DeletePops(vs, k, k);
  }

  lemma {:induction false} DropSealedFacts(vs: Engine, k: U64, q: U64)
    requires Inv(vs)
    ensures Inv(DropSealed(vs, k)) && Head(DropSealed(vs, k)) == Head(vs)
    ensures Versions(DropSealed(vs, k), q) ==
            if q == k && k !in Head(vs).content then Pop(Versions(vs, q)) else Versions(vs, q)
  {
    var i := FindLive(vs, k);
    if k in Head(vs).content {
      assert DropSealed(vs, k) == vs;
    } else if i.None? {
      FindLiveTop(vs, k);
    } else {
      assert vs[i.value] == Older(vs)[i.value];
      assert DropSealed(vs, k) == Delete(vs, k);
      DeletePops(vs, k, q);
      DeleteKeepsInv(vs, k);
    }
  }

  lemma {:induction false} EnsureWritableFacts(vs: Engine, need: nat, tableCapacity: nat, q: U64)
    requires Inv(vs)
    ensures var w := EnsureWritable(vs, need, tableCapacity);
      && Inv(w) && Fits(Head(w), need)
      && Versions(w, q) == Versions(vs, q)
      && Versions(Older(w), q) == Versions(if Fits(Head(vs), need) then Older(vs) else vs, q)
      && (!Fits(Head(vs), need) ==> Head(w) == Fresh(need, tableCapacity))
  {
    if !Fits(Head(vs), need) {
      Snoc(SealHead(vs), Fresh(need, tableCapacity), q);
      Snoc(Older(vs), Head(vs).(state := ReadOnly), q);
    }
  }

  /** A put that fails to encode still loses a sealed copy. */
  /** Nothing is sealed while there is room; else the head is sealed and an empty table takes its place. */
  lemma {:induction false} NewTableWhenFull(vs: Engine, need: nat, tableCapacity: nat)
    requires Inv(vs)
    ensures var w := EnsureWritable(vs, need, tableCapacity);
      if Head(vs).size + need <= Head(vs).capacity then w == vs
      else
        && |w| == |vs| + 1 && w[..|vs| - 1] == Older(vs) && w[|vs| - 1] == Head(vs).(state := ReadOnly)
        && Head(w).state == ReadWrite && Head(w).size == 0 && Head(w).liveBytes == 0 && Head(w).content == map[]
        && Head(w).capacity == if need > tableCapacity then need else tableCapacity
  {
  }

  lemma {:induction false} RefusedPutPops(vs: Engine, tableCapacity: nat, k: U64, e: Entry, q: U64)
    requires Inv(vs) && !Encodable(e)
    ensures Inv(Put(vs, tableCapacity, k, e))
    ensures Versions(Put(vs, tableCapacity, k, e), q) ==
            if q == k && k !in Head(vs).content then Pop(Versions(vs, q)) else Versions(vs, q)
  {
    DropSealedFacts(vs, k, q);
    EnsureWritableFacts(DropSealed(vs, k), EncodedLen(e), tableCapacity, q);
  }

  /**
   A put replaces the newest version of its key, except that it pushes a new version
   on top of the old one when it seals the table that holds it.
   */
  lemma {:induction false} PutReplacesOrPushes(vs: Engine, tableCapacity: nat, k: U64, e: Entry, q: U64)
    requires Inv(vs) && Encodable(e)
    ensures Inv(Put(vs, tableCapacity, k, e))
    ensures Versions(Put(vs, tableCapacity, k, e), q) ==
            if q != k then Versions(vs, q)
            else if Shadows(vs, k, e) then [e] + Versions(vs, k)
            else SetTop(Versions(vs, k), e)
  {
    var d := DropSealed(vs, k);
    var w := EnsureWritable(d, EncodedLen(e), tableCapacity);
    DropSealedFacts(vs, k, q);
    EnsureWritableFacts(d, EncodedLen(e), tableCapacity, q);
    AppendVersions(w, k, e, q);
  }

  /** Appending to the head replaces the key's version there, or adds one on top of the older tables'. */
  lemma {:induction false} AppendVersions(w: Engine, k: U64, e: Entry, q: U64)
    requires Inv(w)
    ensures Inv(AppendToHead(w, k, e))
    ensures Versions(AppendToHead(w, k, e), q) == if q == k then [e] + Versions(Older(w), q) else Versions(w, q)
  {
    Snoc(Older(w), Head(w).Append(k, e), q);
  }

  /** A put goes from one well-formed engine to another. */
  lemma {:induction false} PutStages(vs: Engine, tableCapacity: nat, k: U64, e: Entry)
    requires Inv(vs)
    ensures var d := DropSealed(vs, k);
      Inv(d) && Head(d) == Head(vs)
    ensures Inv(Put(vs, tableCapacity, k, e))
  {
    DropSealedFacts(vs, k, k);
    EnsureWritableFacts(DropSealed(vs, k), EncodedLen(e), tableCapacity, k);
    if Encodable(e) {
      PutReplacesOrPushes(vs, tableCapacity, k, e, k);
    } else {
      RefusedPutPops(vs, tableCapacity, k, e, k);
    }
  }

  /** Compaction changes no version of any key. */
  lemma {:induction false} CompactKeeps(vs: Engine, over: (nat, nat) -> bool, q: U64)
    requires Inv(vs)
    ensures Inv(Compact(vs, over))
    ensures Versions(Compact(vs, over), q) == Versions(vs, q)
  {
    SameContent(Compact(vs, over), vs, q);
  }
}
