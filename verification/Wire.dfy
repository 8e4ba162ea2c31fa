/**
  The Protocol Buffers wire format: the sections "Base 128 Varints" and "Message Structure" of the
  Protocol Buffers Encoding guide, as the prost library reads and writes it.
*/
module Wire {
  import opened Bytes
  import opened Types

  /** A record: a field number and a value of one of the wire types in use. */
  datatype Field =
    | Varint(tag: nat, number: u64)
    | Fixed64(tag: nat, bytes: Bytes)
    | Len(tag: nat, bytes: Bytes)
    | Fixed32(tag: nat, bytes: Bytes)

  // ---------------------------------------------------------------------------------------------
  // Varints

  function EncodeVarint(n: nat): (b: Bytes)
    ensures b != []
  {
    if n < 128 then [n] else [n % 128 + 128] + EncodeVarint(n / 128)
  }

  /** Reads at most ten bytes, `count` of which are read already; the tenth can hold one bit only. */
  function DecodeVarint(b: Bytes, count: nat): (r: Option<(nat, Bytes)>)
    ensures r.Some? ==> |r.value.1| < |b|
  {
    if b == [] || count >= 10 then None
    else if b[0] < 128 then
      if count == 9 && b[0] >= 2 then None else Some((b[0], b[1..]))
    else
      var rest := DecodeVarint(b[1..], count + 1);
      if rest.None? then None else Some((b[0] - 128 + 128 * rest.value.0, rest.value.1))
  }

  /** What fits into the bytes from the given one on. */
  function VarintLimit(count: nat): nat
    decreases 10 - count
  {
    if count >= 10 then 0 else if count == 9 then 2 else 128 * VarintLimit(count + 1)
  }

  lemma VarintLimitIsWord()
    ensures VarintLimit(0) == 0x1_0000_0000_0000_0000
  {
    assert VarintLimit(8) == 128 * VarintLimit(9) == 256;
    assert VarintLimit(6) == 128 * VarintLimit(7) == 16384 * VarintLimit(8);
    assert VarintLimit(4) == 128 * VarintLimit(5) == 16384 * VarintLimit(6);
    assert VarintLimit(2) == 128 * VarintLimit(3) == 16384 * VarintLimit(4);
    assert VarintLimit(0) == 128 * VarintLimit(1) == 16384 * VarintLimit(2);
  }

  lemma {:induction false} DecodedBelowLimit(b: Bytes, count: nat)
    requires DecodeVarint(b, count).Some?
    ensures DecodeVarint(b, count).value.0 < VarintLimit(count)
    decreases |b|
  {
    if b[0] < 128 {
      LimitOfLast(count);
    } else {
      DecodedBelowLimit(b[1..], count + 1);
      LimitOfLast(count + 1);
    }
  }

  lemma LimitOfLast(count: nat)
    requires count < 10
    ensures VarintLimit(count) == if count == 9 then 2 else 128 * VarintLimit(count + 1)
    ensures count < 9 ==> VarintLimit(count) >= 128
    decreases 10 - count
  {
    if count < 8 {
      LimitOfLast(count + 1);
    }
  }

  /** Whatever the bytes, a varint that is accepted fits into 64 bits. */
  lemma DecodedIsWord(b: Bytes)
    requires DecodeVarint(b, 0).Some?
    ensures DecodeVarint(b, 0).value.0 < 0x1_0000_0000_0000_0000
  {
    DecodedBelowLimit(b, 0);
    VarintLimitIsWord();
  }

  lemma VarintLimitStep(n: nat, count: nat)
    requires 128 <= n < VarintLimit(count)
    ensures count < 9 && n / 128 < VarintLimit(count + 1)
  {
  }

  lemma DecodeLast(n: byte, rest: Bytes, count: nat)
    requires n < 128 && n < VarintLimit(count)
    ensures DecodeVarint([n] + rest, count) == Some((n, rest))
  {
    assert ([n] + rest)[1..] == rest;
  }

  lemma DecodeMore(first: byte, tail: Bytes, count: nat, n: nat, rest: Bytes)
    requires first >= 128 && count < 10 && DecodeVarint(tail, count + 1) == Some((n, rest))
    ensures DecodeVarint([first] + tail, count) == Some((first - 128 + 128 * n, rest))
  {
    assert ([first] + tail)[1..] == tail;
  }

  lemma {:induction false} VarintRoundTripFrom(n: nat, rest: Bytes, count: nat)
    requires n < VarintLimit(count)
    ensures DecodeVarint(EncodeVarint(n) + rest, count) == Some((n, rest))
    decreases n
  {
    if n < 128 {
      DecodeLast(n, rest, count);
    } else {
      VarintLimitStep(n, count);
      VarintRoundTripFrom(n / 128, rest, count + 1);
      DecodeMore(n % 128 + 128, EncodeVarint(n / 128) + rest, count, n / 128, rest);
      Associate([n % 128 + 128], EncodeVarint(n / 128), rest);
    }
  }

  lemma VarintRoundTrip(n: u64, rest: Bytes)
    ensures DecodeVarint(EncodeVarint(n) + rest, 0) == Some((n, rest))
  {
    VarintLimitIsWord();
    VarintRoundTripFrom(n, rest, 0);
  }

  /** The numbers that the Encoding guide gives as examples. */
  lemma VarintExamples()
    ensures EncodeVarint(150) == [0x96, 0x01] && EncodeVarint(300) == [0xAC, 0x02]
    ensures DecodeVarint([0x96, 0x01], 0) == Some((150, []))
  {
    assert EncodeVarint(150) == [0x96] + EncodeVarint(1);
    assert EncodeVarint(300) == [0xAC] + EncodeVarint(2);
    VarintRoundTrip(150, []);
    assert EncodeVarint(150) + [] == [0x96, 0x01];
  }

  // ---------------------------------------------------------------------------------------------
  // Records

  function FieldKey(tag: nat, wireType: nat): (b: Bytes)
    ensures b != []
  {
    EncodeVarint(8 * tag + wireType)
  }

  function EncodeField(f: Field): (b: Bytes)
    ensures b != []
  {
    match f
    case Varint(tag, n) => FieldKey(tag, 0) + EncodeVarint(n)
    case Fixed64(tag, bytes) => FieldKey(tag, 1) + bytes
    case Len(tag, bytes) => FieldKey(tag, 2) + (EncodeVarint(|bytes|) + bytes)
    case Fixed32(tag, bytes) => FieldKey(tag, 5) + bytes
  }

  function EncodeFields(fields: seq<Field>): Bytes {
    if fields == [] then [] else EncodeField(fields[0]) + EncodeFields(fields[1..])
  }

  function TakeBytes(b: Bytes, n: nat): Option<(Bytes, Bytes)> {
    if n <= |b| then Some((b[..n], b[n..])) else None
  }

  /** What follows a key. Accepted varints fit into 64 bits (`DecodedIsWord`), so the remainder is the number. */
  function Payload(tag: nat, wireType: nat, b: Bytes): (r: Option<(Field, Bytes)>)
    ensures r.Some? ==> |r.value.1| <= |b|
  {
    if wireType == 0 then
      var n := DecodeVarint(b, 0);
      if n.None? then None else Some((Varint(tag, n.value.0 % 0x1_0000_0000_0000_0000), n.value.1))
    else if wireType == 1 then
      var p := TakeBytes(b, 8);
      if p.None? then None else Some((Fixed64(tag, p.value.0), p.value.1))
    else if wireType == 2 then
      var n := DecodeVarint(b, 0);
      if n.None? then None
      else
        var p := TakeBytes(n.value.1, n.value.0);
        if p.None? then None else Some((Len(tag, p.value.0), p.value.1))
    else if wireType == 5 then
      var p := TakeBytes(b, 4);
      if p.None? then None else Some((Fixed32(tag, p.value.0), p.value.1))
    else None
  }

  function DecodeField(b: Bytes): (r: Option<(Field, Bytes)>)
    ensures r.Some? ==> |r.value.1| < |b|
  {
    var key := DecodeVarint(b, 0);
    if key.None? || key.value.0 >= 0x1_0000_0000 || key.value.0 / 8 == 0 then None
    else Payload(key.value.0 / 8, key.value.0 % 8, key.value.1)
  }

  function DecodeFields(b: Bytes): Option<seq<Field>>
    decreases |b|
  {
    if b == [] then Some([])
    else
      var f := DecodeField(b);
      if f.None? then None
      else
        var rest := DecodeFields(f.value.1);
        if rest.None? then None else Some([f.value.0] + rest.value)
  }

  /** Field numbers and lengths that fit, as every encoder of this project produces them. */
  predicate Encodable(f: Field) {
    && 1 <= f.tag < 0x2000_0000
    && (f.Len? ==> |f.bytes| < 0x1_0000_0000_0000_0000)
    && (f.Fixed64? ==> |f.bytes| == 8)
    && (f.Fixed32? ==> |f.bytes| == 4)
  }

  lemma TakeFront(a: Bytes, b: Bytes)
    ensures TakeBytes(a + b, |a|) == Some((a, b))
  {
    assert (a + b)[..|a|] == a && (a + b)[|a|..] == b;
  }

  lemma VarintPayload(tag: nat, n: u64, rest: Bytes)
    ensures Payload(tag, 0, EncodeVarint(n) + rest) == Some((Varint(tag, n), rest))
  {
    VarintRoundTrip(n, rest);
  }

  lemma LenPayload(tag: nat, bytes: Bytes, rest: Bytes)
    requires |bytes| < 0x1_0000_0000_0000_0000
    ensures Payload(tag, 2, EncodeVarint(|bytes|) + bytes + rest) == Some((Len(tag, bytes), rest))
  {
    VarintRoundTrip(|bytes|, bytes + rest);
    assert EncodeVarint(|bytes|) + bytes + rest == EncodeVarint(|bytes|) + (bytes + rest);
    TakeFront(bytes, rest);
  }

  /** A key and a payload that can be read alone can be read together. */
  lemma KeyedRoundTrip(tag: nat, wireType: nat, payload: Bytes, rest: Bytes, f: Field)
    requires 1 <= tag < 0x2000_0000 && wireType < 8
    requires Payload(tag, wireType, payload + rest) == Some((f, rest))
    ensures DecodeField(FieldKey(tag, wireType) + payload + rest) == Some((f, rest))
  {
    var key := 8 * tag + wireType;
    VarintRoundTrip(key, payload + rest);
    Associate(FieldKey(tag, wireType), payload, rest);
    assert key / 8 == tag && key % 8 == wireType;
  }

  lemma FieldRoundTrip(f: Field, rest: Bytes)
    requires Encodable(f)
    ensures DecodeField(EncodeField(f) + rest) == Some((f, rest))
  {
    match f
    case Varint(tag, n) =>
      VarintPayload(tag, n, rest);
      KeyedRoundTrip(tag, 0, EncodeVarint(n), rest, f);
    case Fixed64(tag, bytes) =>
      TakeFront(bytes, rest);
      KeyedRoundTrip(tag, 1, bytes, rest, f);
    case Len(tag, bytes) =>
      LenPayload(tag, bytes, rest);
      KeyedRoundTrip(tag, 2, EncodeVarint(|bytes|) + bytes, rest, f);
    case Fixed32(tag, bytes) =>
      TakeFront(bytes, rest);
      KeyedRoundTrip(tag, 5, bytes, rest, f);
  }

  lemma DecodeOneMore(b: Bytes, f: Field, rest: Bytes)
    requires b != [] && DecodeField(b) == Some((f, rest)) && DecodeFields(rest).Some?
    ensures DecodeFields(b) == Some([f] + DecodeFields(rest).value)
  {
  }

  /** Any list of records is read back from its bytes. */
  lemma {:induction false} FieldsRoundTrip(fields: seq<Field>)
    requires forall i :: 0 <= i < |fields| ==> Encodable(fields[i])
    ensures DecodeFields(EncodeFields(fields)) == Some(fields)
  {
    if fields != [] {
      var rest := EncodeFields(fields[1..]);
      FieldRoundTrip(fields[0], rest);
      FieldsRoundTrip(fields[1..]);
      DecodeOneMore(EncodeField(fields[0]) + rest, fields[0], rest);
      assert fields == [fields[0]] + fields[1..];
    }
  }

  lemma {:induction false} EncodeAppend(a: seq<Field>, b: seq<Field>)
    ensures EncodeFields(a + b) == EncodeFields(a) + EncodeFields(b)
  {
    if a == [] {
      assert a + b == b;
    } else {
      assert (a + b)[1..] == a[1..] + b;
      EncodeAppend(a[1..], b);
      Associate(EncodeField(a[0]), EncodeFields(a[1..]), EncodeFields(b));
    }
  }

  /** A record is no longer than the message it is in. */
  lemma {:induction false} PayloadFits(fields: seq<Field>, i: nat)
    requires i < |fields| && fields[i].Len?
    ensures |fields[i].bytes| <= |EncodeFields(fields)|
  {
    if i > 0 {
      PayloadFits(fields[1..], i - 1);
    }
  }

  // ---------------------------------------------------------------------------------------------
  // Messages

  /** Merging records into a message one after the other, as a decoder does. */
  function Merge<M>(merge: (M, Field) -> Option<M>, m: M, fields: seq<Field>): Option<M>
    decreases fields
  {
    if fields == [] then Some(m)
    else
      var m' := merge(m, fields[0]);
      if m'.None? then None else Merge(merge, m'.value, fields[1..])
  }

  /** Merging the bytes of a message. */
  function MergeBytes<M>(merge: (M, Field) -> Option<M>, m: M, b: Bytes): Option<M> {
    var fields := DecodeFields(b);
    if fields.None? then None else Merge(merge, m, fields.value)
  }

  lemma {:induction false} MergeAppend<M>(merge: (M, Field) -> Option<M>, m: M, a: seq<Field>, b: seq<Field>)
    ensures Merge(merge, m, a + b) ==
            var m' := Merge(merge, m, a); if m'.None? then None else Merge(merge, m'.value, b)
    decreases a
  {
    if a == [] {
      assert a + b == b;
    } else {
      assert (a + b)[1..] == a[1..] + b;
      var m' := merge(m, a[0]);
      if m'.Some? {
        MergeAppend(merge, m'.value, a[1..], b);
      }
    }
  }

  ghost predicate Fits(fields: seq<Field>) {
    |EncodeFields(fields)| < 0x1_0000_0000_0000_0000
  }

  /** The records of an encoder: small field numbers, varints and lengths only. */
  ghost predicate Plain(fields: seq<Field>) {
    forall i :: 0 <= i < |fields| ==> 1 <= fields[i].tag < 16 && (fields[i].Len? || fields[i].Varint?)
  }

  lemma PlainAppend(a: seq<Field>, b: seq<Field>)
    requires Plain(a) && Plain(b)
    ensures Plain(a + b)
  {
  }

  /** A message whose records merge to it is read back from its bytes. */
  lemma MessageRoundTrip<M>(merge: (M, Field) -> Option<M>, start: M, fields: seq<Field>, m: M)
    requires Merge(merge, start, fields) == Some(m)
    requires Plain(fields) && Fits(fields)
    ensures MergeBytes(merge, start, EncodeFields(fields)) == Some(m)
  {
    forall i | 0 <= i < |fields| ensures Encodable(fields[i]) {
      if fields[i].Len? {
        PayloadFits(fields, i);
      }
    }
    FieldsRoundTrip(fields);
  }
}
