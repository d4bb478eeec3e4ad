/** The record every storage engine stores, and its binary layout. */
module Entries {
  import opened Wrappers
  import opened Bytes

  const HEADER_OVERHEAD: nat := 29
  const MAX_KEY_LEN: nat := 255
  const MAX_VALUE_LEN: nat := 0xFFFF_FFFF

  datatype StorageError =
    | KeyTooLarge(got: nat, max: nat)
    | ValueTooLarge(got: nat, max: nat)
    | Truncated(need: nat)

  datatype Entry = Entry(
    key: seq<Byte>,
    ttlNanos: I64,
    timestampNanos: I64,
    lastAccessNanos: I64,
    value: seq<Byte>)

  function EncodedLen(e: Entry): nat {
    HEADER_OVERHEAD + |e.key| + |e.value|
  }

  predicate IsExpired(e: Entry, now: I64) {
    e.ttlNanos != 0 && now >= e.ttlNanos
  }

  /** The entries the length fields can describe. */
  predicate Encodable(e: Entry) {
    |e.key| <= MAX_KEY_LEN && |e.value| <= MAX_VALUE_LEN
  }

  /** key_len | key | ttl | timestamp | last_access | val_len | value */
  function Fields(e: Entry): seq<seq<Byte>>
    requires Encodable(e)
  {
    [[|e.key|], e.key, I64ToLe(e.ttlNanos), I64ToLe(e.timestampNanos),
     I64ToLe(e.lastAccessNanos), U32ToLe(|e.value|), e.value]
  }

  lemma {:induction false} FieldsLen(e: Entry)
    requires Encodable(e)
    ensures TotalLen(Fields(e)) == EncodedLen(e)
  {
    var f := Fields(e);
    assert TotalLen(f) == |f[0]| + TotalLen(f[1..]);
    assert TotalLen(f[1..]) == |f[1]| + TotalLen(f[2..]);
    assert TotalLen(f[2..]) == |f[2]| + TotalLen(f[3..]);
    assert TotalLen(f[3..]) == |f[3]| + TotalLen(f[4..]);
    assert TotalLen(f[4..]) == |f[4]| + TotalLen(f[5..]);
    assert TotalLen(f[5..]) == |f[5]| + TotalLen(f[6..]);
    assert TotalLen(f[6..]) == |f[6]| + TotalLen(f[7..]);
  }

  function Layout(e: Entry): (s: seq<Byte>)
    requires Encodable(e)
    ensures |s| == EncodedLen(e)
  {
    ConcatLen(Fields(e));
    FieldsLen(e);
    Concat(Fields(e))
  }

  lemma {:induction false} LayoutUnfolded(e: Entry)
    requires Encodable(e)
    ensures Layout(e) == [|e.key|] + e.key + I64ToLe(e.ttlNanos) + I64ToLe(e.timestampNanos)
                         + I64ToLe(e.lastAccessNanos) + U32ToLe(|e.value|) + e.value
  {
    var f := Fields(e);
    assert Concat(f) == f[0] + Concat(f[1..]);
    assert Concat(f[1..]) == f[1] + Concat(f[2..]);
    assert Concat(f[2..]) == f[2] + Concat(f[3..]);
    assert Concat(f[3..]) == f[3] + Concat(f[4..]);
    assert Concat(f[4..]) == f[4] + Concat(f[5..]);
    assert Concat(f[5..]) == f[5] + Concat(f[6..]);
    assert Concat(f[6..]) == f[6] + Concat(f[7..]);
    assert Concat(f[7..]) == [];
  }

  /** Why an entry is refused, if it is. */
  function EncodeError(e: Entry): (r: Option<StorageError>)
    ensures r.None? <==> Encodable(e)
  {
    if |e.key| > MAX_KEY_LEN then Some(KeyTooLarge(|e.key|, MAX_KEY_LEN))
    else if |e.value| > MAX_VALUE_LEN then Some(ValueTooLarge(|e.value|, MAX_VALUE_LEN))
    else None
  }

  function Encode(e: Entry): Result<seq<Byte>, StorageError> {
    if EncodeError(e).Some? then Err(EncodeError(e).value) else Ok(Layout(e))
  }

  /** Decodes the entry at the front of `buf`, with the number of bytes it used. */
  function Decode(buf: seq<Byte>): (r: Result<(Entry, nat), StorageError>)
    ensures r.Ok? ==> Encodable(r.value.0) && r.value.1 == EncodedLen(r.value.0) <= |buf|
    ensures r.Err? ==> r.error.Truncated? && r.error.need > 0
  {
    if buf == [] then Err(Truncated(1))
    else
      var keyLen: nat := buf[0];
      var headerEnd: nat := 1 + keyLen + 28;
      if |buf| < headerEnd then Err(Truncated(headerEnd - |buf|))
      else
        var key := buf[1..1 + keyLen];
        var c: nat := 1 + keyLen;
        var ttl := I64FromLe(buf[c..c + 8]);
        var ts := I64FromLe(buf[c + 8..c + 16]);
        var la := I64FromLe(buf[c + 16..c + 24]);
        var valLen := U32FromLe(buf[c + 24..c + 28]);
        var total: nat := c + 28 + valLen;
        if |buf| < total then Err(Truncated(total - |buf|))
        else Ok((Entry(key, ttl, ts, la, buf[c + 28..total]), total))
  }

  /** Bytes that parse back to the number they were made from are the only ones that do. */
  lemma {:induction false} I64RoundTrip(x: I64)
    ensures I64FromLe(I64ToLe(x)) == x
  {
    assert FromLe(I64ToLe(I64FromLe(I64ToLe(x)))) == FromLe(I64ToLe(x));
  }

  lemma {:induction false} U32RoundTrip(x: U32)
    ensures U32FromLe(U32ToLe(x)) == x
  {
    assert FromLe(U32ToLe(U32FromLe(U32ToLe(x)))) == FromLe(U32ToLe(x));
  }

  lemma {:induction false} PrefixSlice(buf: seq<Byte>, prefix: seq<Byte>, i: nat, j: nat)
    requires prefix <= buf && i <= j <= |prefix|
    ensures buf[i..j] == prefix[i..j]
  {
    assert prefix == buf[..|prefix|];
  }

  /** Where each field of an encoding sits. */
  lemma {:induction false} LayoutFields(e: Entry, buf: seq<Byte>)
    requires Encodable(e) && EncodedLen(e) <= |buf| && buf[..EncodedLen(e)] == Layout(e)
    ensures var c := 1 + |e.key|;
      && buf[0] == |e.key| && buf[1..c] == e.key
      && buf[c..c + 8] == I64ToLe(e.ttlNanos)
      && buf[c + 8..c + 16] == I64ToLe(e.timestampNanos)
      && buf[c + 16..c + 24] == I64ToLe(e.lastAccessNanos)
      && buf[c + 24..c + 28] == U32ToLe(|e.value|)
      && buf[c + 28..c + 28 + |e.value|] == e.value
  {
    LayoutUnfolded(e);
    var c, l := 1 + |e.key|, Layout(e);
    forall i, j | 0 <= i <= j <= |l| ensures buf[i..j] == l[i..j] {
      PrefixSlice(buf, l, i, j);
    }
    assert buf[0] == l[0];
    assert l[1..c] == e.key;
    assert l[c..c + 8] == I64ToLe(e.ttlNanos);
    assert l[c + 8..c + 16] == I64ToLe(e.timestampNanos);
    assert l[c + 16..c + 24] == I64ToLe(e.lastAccessNanos);
    assert l[c + 24..c + 28] == U32ToLe(|e.value|);
    assert l[c + 28..c + 28 + |e.value|] == e.value;
  }

  /** Decoding an encoding gives the entry back whatever follows it. */
  lemma {:induction false} DecodeFront(buf: seq<Byte>, e: Entry)
    requires Encodable(e) && EncodedLen(e) <= |buf| && buf[..EncodedLen(e)] == Layout(e)
    ensures Decode(buf) == Ok((e, EncodedLen(e)))
  {
    LayoutFields(e, buf);
    I64RoundTrip(e.ttlNanos);
    I64RoundTrip(e.timestampNanos);
    I64RoundTrip(e.lastAccessNanos);
    U32RoundTrip(|e.value|);
  }

  lemma {:induction false} DecodeLayout(e: Entry, rest: seq<Byte>)
    requires Encodable(e)
    ensures Decode(Layout(e) + rest) == Ok((e, EncodedLen(e)))
  {
    assert (Layout(e) + rest)[..EncodedLen(e)] == Layout(e);
    DecodeFront(Layout(e) + rest, e);
  }

  /** The bytes a decode used are exactly the encoding of what it returned. */
  lemma {:induction false} LayoutDecode(buf: seq<Byte>)
    requires Decode(buf).Ok?
    ensures buf[..Decode(buf).value.1] == Layout(Decode(buf).value.0)
  {
    var (e, n) := Decode(buf).value;
    var c := 1 + |e.key|;
    assert [|e.key|] == [buf[0]] && e.key == buf[1..c] && e.value == buf[c + 28..n];
    assert I64ToLe(e.ttlNanos) == buf[c..c + 8];
    assert I64ToLe(e.timestampNanos) == buf[c + 8..c + 16];
    assert I64ToLe(e.lastAccessNanos) == buf[c + 16..c + 24];
    assert U32ToLe(|e.value|) == buf[c + 24..c + 28];
    Slices(buf, c, n);
    LayoutUnfolded(e);
  }

  lemma {:induction false} Slices(buf: seq<Byte>, c: nat, n: nat)
    requires 1 <= c && c + 28 <= n <= |buf|
    ensures buf[..n] == [buf[0]] + buf[1..c] + buf[c..c + 8] + buf[c + 8..c + 16]
                        + buf[c + 16..c + 24] + buf[c + 24..c + 28] + buf[c + 28..n]
  {
  }

  /** Every proper prefix of an encoding is reported truncated. */
  lemma {:induction false} DecodeTruncated(e: Entry, n: nat)
    requires Encodable(e) && n < EncodedLen(e)
    ensures Decode(Layout(e)[..n]).Err?
  {
    var l := Layout(e);
    if Decode(l[..n]).Ok? {
      var (d, m) := Decode(l[..n]).value;
      LayoutDecode(l[..n]);
      assert l[..m] == l[..n][..m] && l[..|l|] == l;
      DecodeFront(l, d);
      DecodeFront(l, e);
    }
  }
}
