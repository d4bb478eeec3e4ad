/** The payload that carries one partition of one map to its new owner, and its last-write-wins import. */
module Migration {
  import opened Wrappers
  import opened Bytes
  import opened Entries

  const PAYLOAD_TAG: Byte := 1
  const PAYLOAD_HEADER: nat := 9

  datatype MigrationError = EmptyPayload | UnknownTag | HeaderTruncated | BadEntry | PartitionMismatch

  // ---- payload codec ----

  ghost predicate AllEncodable(es: seq<Entry>) {
    forall i | 0 <= i < |es| :: Encodable(es[i])
  }

  function Layouts(es: seq<Entry>): (parts: seq<seq<Byte>>)
    requires AllEncodable(es)
    ensures |parts| == |es|
  {
    seq(|es|, i requires 0 <= i < |es| => Layout(es[i]))
  }

  /** The count is written as a `u32` and stops at its largest value. */
  function WrittenCount(n: nat): (c: U32)
    ensures c <= n
  {
    if n <= U32_MAX then n else U32_MAX
  }

  function Header(partition: U32, count: U32): (h: seq<Byte>)
    ensures |h| == PAYLOAD_HEADER
  {
    [PAYLOAD_TAG] + U32ToLe(partition) + U32ToLe(count)
  }

  ghost function EncodePayload(partition: U32, es: seq<Entry>): seq<Byte>
    requires AllEncodable(es)
  {
    Header(partition, WrittenCount(|es|)) + Concat(Layouts(es))
  }

  type EntryDecoder = seq<Byte> -> Result<(Entry, nat), StorageError>

  ghost predicate Bounded(decode: EntryDecoder) {
    forall b :: decode(b).Ok? ==> decode(b).value.1 <= |b|
  }

  function DecodeOne(): (decode: EntryDecoder)
    ensures Bounded(decode)
  {
    (b: seq<Byte>) => Decode(b)
  }

  /** `count` entries from the front of `buf`; what follows them is ignored. */
  function DecodeEntries(decode: EntryDecoder, buf: seq<Byte>, count: nat): Result<seq<Entry>, MigrationError>
    requires Bounded(decode)
    decreases count
  {
    if count == 0 then Ok([])
    else
      var d := decode(buf);
      if d.Err? then Err(BadEntry)
      else
        Prepended([d.value.0], DecodeEntries(decode, buf[d.value.1..], count - 1))
  }

  function Prepended(es: seq<Entry>, r: Result<seq<Entry>, MigrationError>): Result<seq<Entry>, MigrationError> {
    if r.Err? then r else Ok(es + r.value)
  }

  lemma {:induction false} PrependedTwice(es: seq<Entry>, e: Entry, r: Result<seq<Entry>, MigrationError>)
    ensures Prepended(es, Prepended([e], r)) == Prepended(es + [e], r)
  {
    if r.Ok? {
      assert es + ([e] + r.value) == es + [e] + r.value;
    }
  }

  function DecodePayload(buf: seq<Byte>): Result<(U32, seq<Entry>), MigrationError> {
    if buf == [] then Err(EmptyPayload)
    else if buf[0] != PAYLOAD_TAG then Err(UnknownTag)
    else if |buf| < PAYLOAD_HEADER then Err(HeaderTruncated)
    else
      var es := DecodeEntries(DecodeOne(), buf[9..], U32FromLe(buf[5..9]));
      if es.Err? then Err(es.error) else Ok((U32FromLe(buf[1..5]), es.value))
  }

  /** Each part reads back as its entry, whatever follows it. */
  ghost predicate Inverts(decode: EntryDecoder, parts: seq<seq<Byte>>, es: seq<Entry>) {
    && |parts| == |es|
    && forall i, rest: seq<Byte> {:trigger decode(parts[i] + rest)} | 0 <= i < |parts| ::
         decode(parts[i] + rest) == Ok((es[i], |parts[i]|))
  }

  lemma {:induction false} DecodeOneInverts(es: seq<Entry>)
    requires AllEncodable(es)
    ensures Inverts(DecodeOne(), Layouts(es), es)
  {
    forall i, rest: seq<Byte> | 0 <= i < |es|
      ensures DecodeOne()(Layouts(es)[i] + rest) == Ok((es[i], |Layouts(es)[i]|))
    {
      DecodeLayout(es[i], rest);
    }
  }

  lemma {:induction false} FirstEntry(decode: EntryDecoder, first: seq<Byte>, rest: seq<Byte>, e: Entry, count: nat)
    requires Bounded(decode) && count > 0 && decode(first + rest) == Ok((e, |first|))
    ensures DecodeEntries(decode, first + rest, count) == Prepended([e], DecodeEntries(decode, rest, count - 1))
  {
    assert (first + rest)[|first|..] == rest;
  }

  /** Decoding any number of the entries that were written gives exactly those. */
  lemma {:induction false} EntriesBack(decode: EntryDecoder, parts: seq<seq<Byte>>, es: seq<Entry>, count: nat)
    requires Bounded(decode) && Inverts(decode, parts, es) && count <= |es|
    ensures DecodeEntries(decode, Concat(parts), count) == Ok(es[..count])
    decreases count
  {
    if count > 0 {
      FirstEntry(decode, parts[0], Concat(parts[1..]), es[0], count);
      EntriesBack(decode, parts[1..], es[1..], count - 1);
      assert [es[0]] + es[1..][..count - 1] == es[..count];
    }
  }

  lemma {:induction false} HeaderBack(partition: U32, count: U32, body: seq<Byte>)
    ensures var buf := Header(partition, count) + body;
      && buf[0] == PAYLOAD_TAG && U32FromLe(buf[1..5]) == partition && U32FromLe(buf[5..9]) == count
      && buf[9..] == body
  {
    var buf := Header(partition, count) + body;
    assert buf[1..5] == U32ToLe(partition);
    assert buf[5..9] == U32ToLe(count);
    U32RoundTrip(partition);
    U32RoundTrip(count);
  }

  /** As many of the entries as the count can state. */
  function Carried(es: seq<Entry>): seq<Entry> {
    if |es| <= U32_MAX then es else es[..U32_MAX]
  }

  /** A version byte, the partition and the count, least significant byte first, then the entries. */
  lemma {:induction false} PayloadBytes(partition: U32, es: seq<Entry>)
    requires AllEncodable(es)
    ensures var n: U32 := if |es| <= 0xFFFF_FFFF then |es| else 0xFFFF_FFFF;
      EncodePayload(partition, es) == [1] + U32ToLe(partition) + U32ToLe(n) + Concat(Layouts(es))
  {
  }

  /** The decoder in terms of the header and the body that follows it. */
  lemma {:induction false} DecodeFramed(partition: U32, count: U32, body: seq<Byte>)
    ensures DecodePayload(Header(partition, count) + body)
         == var es := DecodeEntries(DecodeOne(), body, count);
            if es.Err? then Err(es.error) else Ok((partition, es.value))
  {
    HeaderBack(partition, count, body);
  }

  lemma {:induction false} BodyBack(es: seq<Entry>)
    requires AllEncodable(es)
    ensures DecodeEntries(DecodeOne(), Concat(Layouts(es)), WrittenCount(|es|)) == Ok(Carried(es))
  {
    DecodeOneInverts(es);
    EntriesBack(DecodeOne(), Layouts(es), es, WrittenCount(|es|));
    assert es[..WrittenCount(|es|)] == Carried(es);
  }

  lemma {:induction false} BodyLength(es: seq<Entry>)
    requires AllEncodable(es)
    ensures Concat(Layouts(es)) == [] <==> es == []
  {
    var parts := Layouts(es);
    if es != [] {
      assert |Concat(parts)| >= |parts[0]| && |parts[0]| == EncodedLen(es[0]);
    }
  }

  /** A payload decodes to what was encoded, up to the largest count a payload can state. */
  lemma {:induction false} PayloadBack(partition: U32, es: seq<Entry>)
    requires AllEncodable(es)
    ensures DecodePayload(EncodePayload(partition, es)) == Ok((partition, Carried(es)))
    ensures |EncodePayload(partition, es)| <= PAYLOAD_HEADER <==> es == []
  {
    DecodeFramed(partition, WrittenCount(|es|), Concat(Layouts(es)));
    BodyBack(es);
    BodyLength(es);
  }

  /** Every proper prefix of a part is refused. */
  ghost predicate Truncates(decode: EntryDecoder, parts: seq<seq<Byte>>) {
    forall i, n | 0 <= i < |parts| && 0 <= n < |parts[i]| :: decode(parts[i][..n]).Err?
  }

  lemma {:induction false} DecodeOneTruncates(es: seq<Entry>)
    requires AllEncodable(es)
    ensures Truncates(DecodeOne(), Layouts(es))
  {
    forall i, n | 0 <= i < |es| && 0 <= n < |Layouts(es)[i]| ensures DecodeOne()(Layouts(es)[i][..n]).Err? {
      DecodeTruncated(es[i], n);
    }
  }

  lemma {:induction false} CutEntriesRefused(decode: EntryDecoder, parts: seq<seq<Byte>>, es: seq<Entry>, m: nat)
    requires Bounded(decode) && Inverts(decode, parts, es) && Truncates(decode, parts) && m < |Concat(parts)|
    ensures DecodeEntries(decode, Concat(parts)[..m], |parts|) == Err(BadEntry)
    decreases |parts|
  {
    var first, rest := parts[0], Concat(parts[1..]);
    assert Concat(parts) == first + rest;
    if m < |first| {
      assert Concat(parts)[..m] == first[..m];
    } else {
      assert Concat(parts)[..m] == first + rest[..m - |first|];
      FirstEntry(decode, first, rest[..m - |first|], es[0], |parts|);
      CutEntriesRefused(decode, parts[1..], es[1..], m - |first|);
    }
  }

  lemma {:induction false} CutBodyRefused(es: seq<Entry>, m: nat)
    requires AllEncodable(es) && m < |Concat(Layouts(es))|
    ensures DecodeEntries(DecodeOne(), Concat(Layouts(es))[..m], |es|) == Err(BadEntry)
  {
    DecodeOneInverts(es);
    DecodeOneTruncates(es);
    CutEntriesRefused(DecodeOne(), Layouts(es), es, m);
  }

  lemma {:induction false} CutHeaderRefused(partition: U32, count: U32, body: seq<Byte>, n: nat)
    requires n < 9
    ensures DecodePayload((Header(partition, count) + body)[..n])
         == Err(if n == 0 then EmptyPayload else HeaderTruncated)
  {
    var buf := Header(partition, count) + body;
    assert n > 0 ==> buf[..n][0] == PAYLOAD_TAG;
  }

  lemma {:induction false} CutFramed(partition: U32, count: U32, body: seq<Byte>, m: nat)
    requires m <= |body| && DecodeEntries(DecodeOne(), body[..m], count) == Err(BadEntry)
    ensures DecodePayload((Header(partition, count) + body)[..9 + m]) == Err(BadEntry)
  {
    DecodeFramed(partition, count, body[..m]);
    assert (Header(partition, count) + body)[..9 + m] == Header(partition, count) + body[..m];
  }

  /** A payload cut short anywhere is refused, if its count states all its entries. */
  lemma {:induction false} CutPayloadRefused(partition: U32, es: seq<Entry>, n: nat)
    requires AllEncodable(es) && |es| <= U32_MAX && n < |EncodePayload(partition, es)|
    ensures DecodePayload(EncodePayload(partition, es)[..n])
         == Err(if n == 0 then EmptyPayload else if n < 9 then HeaderTruncated else BadEntry)
  {
    var body := Concat(Layouts(es));
    if n < 9 {
      CutHeaderRefused(partition, |es|, body, n);
    } else {
      CutBodyRefused(es, n - 9);
      CutFramed(partition, |es|, body, n - 9);
    }
  }

  method EncodeFragmentPayload(partition: U32, es: seq<Entry>) returns (buf: seq<Byte>)
    requires AllEncodable(es)
    ensures buf == EncodePayload(partition, es)
  {
    buf := Header(partition, WrittenCount(|es|));
    ghost var header, parts := buf, Layouts(es);
    for i := 0 to |es|
      invariant header + Concat(parts) == buf + Concat(parts[i..])
    {
      SplitFirst(buf, parts[i..]);
      assert parts[i..][1..] == parts[i + 1..];
      buf := buf + Layout(es[i]);
    }
    assert buf + [] == buf;
  }

  lemma {:induction false} SplitFirst(before: seq<Byte>, parts: seq<seq<Byte>>)
    requires parts != []
    ensures before + Concat(parts) == before + parts[0] + Concat(parts[1..])
  {
  }

  method DecodeLoop(decode: EntryDecoder, buf: seq<Byte>, count: nat) returns (r: Result<seq<Entry>, MigrationError>)
    requires Bounded(decode)
    ensures r == DecodeEntries(decode, buf, count)
  {
    var cursor := 0;
    var es := [];
    ghost var whole := DecodeEntries(decode, buf, count);
    assert buf[0..] == buf && (whole.Ok? ==> [] + whole.value == whole.value);
    for i := 0 to count
      invariant cursor <= |buf|
      invariant whole == Prepended(es, DecodeEntries(decode, buf[cursor..], count - i))
    {
      var d := decode(buf[cursor..]);
      if d.Err? {
        return Err(BadEntry);
      }
      var (e, used) := d.value;
      assert buf[cursor..][used..] == buf[cursor + used..];
      PrependedTwice(es, e, DecodeEntries(decode, buf[cursor + used..], count - i - 1));
      cursor := cursor + used;
      es := es + [e];
    }
    assert es + [] == es;
    return Ok(es);
  }

  method DecodeFragmentPayload(buf: seq<Byte>) returns (r: Result<(U32, seq<Entry>), MigrationError>)
    ensures r == DecodePayload(buf)
  {
    if buf == [] {
      return Err(EmptyPayload);
    }
    if buf[0] != PAYLOAD_TAG {
      return Err(UnknownTag);
    }
    if |buf| < PAYLOAD_HEADER {
      return Err(HeaderTruncated);
    }
    var es := DecodeLoop(DecodeOne(), buf[9..], U32FromLe(buf[5..9]));
    if es.Err? {
      return Err(es.error);
    }
    return Ok((U32FromLe(buf[1..5]), es.value));
  }

  // ---- import ----

  /** One map's entries on one node, by key. */
  type Store = map<seq<Byte>, Entry>

  /** `put_lww`: an entry wins over a missing or strictly older one. */
  predicate Wins(store: Store, e: Entry) {
    e.key !in store || store[e.key].timestampNanos < e.timestampNanos
  }

  function Import(store: Store, es: seq<Entry>): Store {
    if es == [] then store
    else
      var before, e := Import(store, es[..|es| - 1]), es[|es| - 1];
      if Wins(before, e) then before[e.key := e] else before
  }

  function Applied(store: Store, es: seq<Entry>): nat {
    if es == [] then 0
    else
      var before, e := Import(store, es[..|es| - 1]), es[|es| - 1];
      Applied(store, es[..|es| - 1]) + (if Wins(before, e) then 1 else 0)
  }

  /** Checks the payload against the verb's partition, then merges entry by entry. */
  method ImportPartition(store: Store, partition: U32, payload: seq<Byte>)
    returns (after: Store, r: Result<nat, MigrationError>)
    ensures var d := DecodePayload(payload);
      if d.Err? then after == store && r == Err(d.error)
      else if d.value.0 != partition then after == store && r == Err(PartitionMismatch)
      else after == Import(store, d.value.1) && r == Ok(Applied(store, d.value.1))
  {
    var d := DecodeFragmentPayload(payload);
    if d.Err? {
      return store, Err(d.error);
    }
    var es := d.value.1;
    if d.value.0 != partition {
      return store, Err(PartitionMismatch);
    }
    var applied;
    after, applied := ImportLoop(store, es);
    r := Ok(applied);
  }

  method ImportLoop(store: Store, es: seq<Entry>) returns (after: Store, applied: nat)
    ensures after == Import(store, es) && applied == Applied(store, es)
  {
    after := store;
    applied := 0;
    for i := 0 to |es|
      invariant after == Import(store, es[..i]) && applied == Applied(store, es[..i])
    {
      assert es[..i + 1][..i] == es[..i];
      if Wins(after, es[i]) {
        after := after[es[i].key := es[i]];
        applied := applied + 1;
      }
    }
    assert es[..|es|] == es;
  }

  /** The stored entry of each key is the old one or one of the imported, and none of those is newer. */
  lemma {:induction false} ImportJoins(store: Store, es: seq<Entry>)
    ensures var r := Import(store, es);
      && (forall k | k in store :: k in r && r[k].timestampNanos >= store[k].timestampNanos)
      && (forall e | e in es :: e.key in r && r[e.key].timestampNanos >= e.timestampNanos)
      && (forall k | k in r :: (k in store && r[k] == store[k]) || (r[k] in es && r[k].key == k))
  {
    if es != [] {
      ImportJoins(store, es[..|es| - 1]);
      assert forall e | e in es :: e in es[..|es| - 1] || e == es[|es| - 1];
    }
  }

  ghost predicate OncePerKey(es: seq<Entry>) {
    forall i, j | 0 <= i < j < |es| :: es[i].key != es[j].key
  }

  /** Entries of other keys do not decide whether an entry wins. */
  lemma {:induction false} OthersDoNotDecide(store: Store, es: seq<Entry>, e: Entry)
    requires forall i | 0 <= i < |es| :: es[i].key != e.key
    ensures Wins(Import(store, es), e) <==> Wins(store, e)
  {
    if es != [] {
      OthersDoNotDecide(store, es[..|es| - 1], e);
    }
  }

  /** The count reported is the number of entries that were missing or newer at the receiver. */
  lemma {:induction false} AppliedCountsWinners(store: Store, es: seq<Entry>)
    requires OncePerKey(es)
    ensures Applied(store, es)
         == |set i | 0 <= i < |es|
                     && (es[i].key !in store || store[es[i].key].timestampNanos < es[i].timestampNanos)|
  {
    var winners := set i | 0 <= i < |es|
                           && (es[i].key !in store || store[es[i].key].timestampNanos < es[i].timestampNanos);
    if es != [] {
      var n := |es| - 1;
      var init := es[..n];
      AppliedCountsWinners(store, init);
      OthersDoNotDecide(store, init, es[n]);
      var before := set i | 0 <= i < |init|
                            && (init[i].key !in store || store[init[i].key].timestampNanos < init[i].timestampNanos);
      assert winners == if Wins(store, es[n]) then before + {n} else before;
    }
  }

  lemma {:induction false} NothingWins(store: Store, es: seq<Entry>)
    requires forall e | e in es :: !Wins(store, e)
    ensures Import(store, es) == store && Applied(store, es) == 0
  {
    if es != [] {
      NothingWins(store, es[..|es| - 1]);
    }
  }

  /** Importing a payload again, or any entries of it in any order, applies nothing. */
  lemma {:induction false} ReimportAppliesNothing(store: Store, es: seq<Entry>, again: seq<Entry>)
    requires forall e | e in again :: e in es
    ensures Import(Import(store, es), again) == Import(store, es) && Applied(Import(store, es), again) == 0
  {
    ImportJoins(store, es);
    NothingWins(Import(store, es), again);
  }
}
