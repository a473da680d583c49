/** The binary format of the local key store. */
module Keystore {
  import opened Wrappers
  import opened Bytes
  import opened Ordering

  const KEY_SIZE := 32
  const MAX_REFERENCE := 200
  const MAX_RECORDS := 1000
  const COUNT_WIDTH: nat := 4
  const SIZE_WIDTH: nat := 2

  datatype StoreError = Malformed | TooManyRecords | DuplicateReference | TrailingData

  type Records = map<Bytes, Bytes>

  predicate ByteBelow(a: Byte, b: Byte) {
    a < b
  }

  predicate BytesLess(a: Bytes, b: Bytes) {
    SequenceLess(ByteBelow, a, b)
  }

  /** What the store accepts: at most 1000 references of 1 to 200 bytes, each with a key of 32 bytes. */
  ghost predicate Storable(records: Records) {
    && |records| <= MAX_RECORDS
    && forall reference :: reference in records ==> StorableRecord(reference, records[reference])
  }

  predicate StorableRecord(reference: Bytes, key: Bytes) {
    1 <= |reference| <= MAX_REFERENCE && |key| == KEY_SIZE
  }

  // ---------------------------------------------------------------- encoding

  function EncodeRecord(reference: Bytes, key: Bytes): Bytes {
    BigEndian(|reference|, SIZE_WIDTH) + reference + key
  }

  function EncodeKeys(references: seq<Bytes>, records: Records): Bytes
    requires forall i :: 0 <= i < |references| ==> references[i] in records
  {
    if references == [] then []
    else EncodeRecord(references[0], records[references[0]]) + EncodeKeys(references[1..], records)
  }

  ghost predicate SortedReferences(records: Records, references: seq<Bytes>) {
    && multiset(references) == multiset(records.Keys)
    && Sorted(BytesLess, references)
  }

  lemma {:induction false} ReferencesOf(records: Records, references: seq<Bytes>)
    requires multiset(references) == multiset(records.Keys)
    ensures |references| == |records|
    ensures forall i :: 0 <= i < |references| ==> references[i] in records
    ensures forall reference :: reference in records ==> reference in references
    ensures Pairwise(Different, references)
  {
    assert |references| == |multiset(references)| == |records.Keys|;
    forall i | 0 <= i < |references| ensures references[i] in records {
      assert references[i] in multiset(references);
    }
    forall reference | reference in records ensures reference in references {
      assert reference in multiset(records.Keys);
    }
    forall i, j | 0 <= i < j < |references| ensures references[i] != references[j] {
      OccursTwice(references, i, j);
    }
  }

  predicate Different(a: Bytes, b: Bytes) {
    a != b
  }

  /** The encoding of a map: its references in byte order. */
  ghost predicate IsEncoding(records: Records, data: Bytes) {
    exists references :: SortedReferences(records, references) && EncodedAs(records, references, data)
  }

  ghost predicate EncodedAs(records: Records, references: seq<Bytes>, data: Bytes) {
    && (forall i :: 0 <= i < |references| ==> references[i] in records)
    && data == BigEndian(|references|, COUNT_WIDTH) + EncodeKeys(references, records)
  }

  method EncodeRecords(records: Records) returns (data: Bytes)
    ensures IsEncoding(records, data)
  {
    var references := SortReferences(records);
    ReferencesOf(records, references);
    var body := AppendRecords(references, records);
    data := BigEndian(|references|, COUNT_WIDTH) + body;
    assert EncodedAs(records, references, data);
  }

  method SortReferences(records: Records) returns (references: seq<Bytes>)
    ensures SortedReferences(records, references)
  {
    references := [];
    var remaining := records.Keys;
    while remaining != {}
      invariant remaining <= records.Keys && multiset(references) == multiset(records.Keys - remaining)
      decreases |remaining|
    {
      var reference :| reference in remaining;
      assert records.Keys - (remaining - {reference}) == records.Keys - remaining + {reference};
      references := references + [reference];
      remaining := remaining - {reference};
    }
    assert records.Keys - remaining == records.Keys;
    ByteOrder();
    references := SortSlice(BytesLess, references);
  }

  method AppendRecords(references: seq<Bytes>, records: Records) returns (data: Bytes)
    requires forall i :: 0 <= i < |references| ==> references[i] in records
    ensures data == EncodeKeys(references, records)
  {
    data := [];
    for i := 0 to |references|
      invariant data == EncodeKeys(references[..i], records)
    {
      EncodeNext(references, records, i);
      var reference := references[i];
      data := data + (BigEndian(|reference|, SIZE_WIDTH) + reference + records[reference]);
    }
    assert references[..|references|] == references;
  }

  lemma {:induction false} EncodeNext(references: seq<Bytes>, records: Records, i: nat)
    requires i < |references| && forall j :: 0 <= j < |references| ==> references[j] in records
    ensures EncodeKeys(references[..i + 1], records)
      == EncodeKeys(references[..i], records) + EncodeRecord(references[i], records[references[i]])
  {
    if i == 0 {
      assert references[..1] == [references[0]] && references[..1][1..] == [];
    } else {
      EncodeNext(references[1..], records, i - 1);
      assert references[..i + 1][1..] == references[1..][..i] && references[..i][1..] == references[1..][..i - 1];
    }
  }

  lemma {:induction false} ByteOrder()
    ensures TotalOrder(BytesLess) && Ordered(BytesLess)
  {
    SequenceOrder(ByteBelow, BytesLess);
  }

  /** Equal maps encode identically, however the map was walked. */
  lemma {:induction false} EncodingIsUnique(records: Records, a: Bytes, b: Bytes)
    requires IsEncoding(records, a) && IsEncoding(records, b)
    ensures a == b
  {
    var s: seq<Bytes> :| SortedReferences(records, s) && EncodedAs(records, s, a);
    var t: seq<Bytes> :| SortedReferences(records, t) && EncodedAs(records, t, b);
    ByteOrder();
    SortedUnique(BytesLess, s, t);
  }

  // ---------------------------------------------------------------- decoding

  function DecodeFrom(count: nat, data: Bytes, records: Records): Result<Records, StoreError>
    decreases count
  {
    if count == 0 then if data == [] then Ok(records) else Err(TrailingData)
    else if |data| < SIZE_WIDTH then Err(Malformed)
    else
      var size := FromBigEndian(data[..SIZE_WIDTH]);
      var rest := data[SIZE_WIDTH..];
      if size < 1 || size > MAX_REFERENCE || |rest| < size + KEY_SIZE then Err(Malformed)
      else if rest[..size] in records then Err(DuplicateReference)
      else DecodeFrom(count - 1, rest[size + KEY_SIZE..], records[rest[..size] := rest[size..size + KEY_SIZE]])
  }

  function Decoded(data: Bytes): Result<Records, StoreError> {
    if |data| < COUNT_WIDTH then Err(Malformed)
    else
      var count := FromBigEndian(data[..COUNT_WIDTH]);
      if count > MAX_RECORDS then Err(TooManyRecords) else DecodeFrom(count, data[COUNT_WIDTH..], map[])
  }

  method DecodeRecords(input: Bytes) returns (result: Result<Records, StoreError>)
    ensures result == Decoded(input)
  {
    if |input| < COUNT_WIDTH {
      return Err(Malformed);
    }
    var count := FromBigEndian(input[..COUNT_WIDTH]);
    var data := input[COUNT_WIDTH..];
    if count > MAX_RECORDS {
      return Err(TooManyRecords);
    }
    var records: Records := map[];
    for i := 0 to count
      invariant Decoded(input) == DecodeFrom(count - i, data, records)
    {
      if |data| < SIZE_WIDTH {
        return Err(Malformed);
      }
      var size := FromBigEndian(data[..SIZE_WIDTH]);
      data := data[SIZE_WIDTH..];
      if size < 1 || size > MAX_REFERENCE || |data| < size + KEY_SIZE {
        return Err(Malformed);
      }
      var reference := data[..size];
      if reference in records {
        return Err(DuplicateReference);
      }
      records := records[reference := data[size..size + KEY_SIZE]];
      data := data[size + KEY_SIZE..];
    }
    if |data| != 0 {
      return Err(TrailingData);
    }
    result := Ok(records);
  }

  // ---------------------------------------------------------------- round trip

  lemma {:induction false} SmallNumbers()
    ensures Power256(SIZE_WIDTH) == 65536 && Power256(COUNT_WIDTH) == 4294967296
  {
    assert Power256(1) == 256 && Power256(2) == 65536 && Power256(3) == 16777216;
  }

  lemma {:induction false} RecordParts(reference: Bytes, key: Bytes, rest: Bytes)
    requires |key| == KEY_SIZE
    ensures var data := EncodeRecord(reference, key) + rest;
            && data[..SIZE_WIDTH] == BigEndian(|reference|, SIZE_WIDTH)
            && data[SIZE_WIDTH..] == reference + key + rest
  {}

  lemma {:induction false} ThreeParts(a: Bytes, b: Bytes, c: Bytes)
    ensures (a + b + c)[..|a|] == a && (a + b + c)[|a|..|a| + |b|] == b && (a + b + c)[|a| + |b|..] == c
  {}

  /** Decoding takes one record off the front, whatever follows. */
  lemma {:induction false} RecordDecodes(count: nat, reference: Bytes, key: Bytes, rest: Bytes, records: Records)
    requires StorableRecord(reference, key) && reference !in records && count > 0
    ensures DecodeFrom(count, EncodeRecord(reference, key) + rest, records)
      == DecodeFrom(count - 1, rest, records[reference := key])
  {
    SmallNumbers();
    BigEndianRoundTrip(|reference|, SIZE_WIDTH);
    RecordParts(reference, key, rest);
    ThreeParts(reference, key, rest);
  }

  lemma {:induction false} CutRecordRefused(count: nat, reference: Bytes, key: Bytes, rest: Bytes, records: Records,
                                            k: nat)
    requires StorableRecord(reference, key) && count > 0 && k < |EncodeRecord(reference, key)|
    ensures DecodeFrom(count, (EncodeRecord(reference, key) + rest)[..k], records).Err?
  {
    SmallNumbers();
    BigEndianRoundTrip(|reference|, SIZE_WIDTH);
    var size := BigEndian(|reference|, SIZE_WIDTH);
    var cut := (EncodeRecord(reference, key) + rest)[..k];
    if k >= SIZE_WIDTH {
      forall i | 0 <= i < SIZE_WIDTH ensures cut[..SIZE_WIDTH][i] == size[i] {}
      assert cut[..SIZE_WIDTH] == size;
    }
  }

  function Added(records: Records, references: seq<Bytes>, all: Records): Records
    requires forall i :: 0 <= i < |references| ==> references[i] in all
    decreases |references|
  {
    if references == [] then records
    else Added(records[references[0] := all[references[0]]], references[1..], all)
  }

  ghost predicate Addable(records: Records, references: seq<Bytes>, all: Records) {
    && (forall i :: 0 <= i < |references| ==>
          references[i] in all && StorableRecord(references[i], all[references[i]]) && references[i] !in records)
    && Pairwise(Different, references)
  }

  lemma {:induction false} AddableTail(records: Records, references: seq<Bytes>, all: Records)
    requires Addable(records, references, all) && references != []
    ensures Addable(records[references[0] := all[references[0]]], references[1..], all)
  {
    forall i | 0 <= i < |references| - 1 ensures references[1..][i] != references[0] {
      assert Different(references[0], references[i + 1]);
    }
  }

  lemma {:induction false} KeysDecode(references: seq<Bytes>, all: Records, extra: Bytes, records: Records)
    requires Addable(records, references, all)
    ensures DecodeFrom(|references|, EncodeKeys(references, all) + extra, records)
      == if extra == [] then Ok(Added(records, references, all)) else Err(TrailingData)
    decreases |references|
  {
    if references == [] {
      assert EncodeKeys(references, all) + extra == extra;
    } else {
      var head, tail := references[0], references[1..];
      AddableTail(records, references, all);
      KeysDecode(tail, all, extra, records[head := all[head]]);
      FirstDecodes(references, all, extra, records);
    }
  }

  lemma {:induction false} FirstDecodes(references: seq<Bytes>, all: Records, extra: Bytes, records: Records)
    requires Addable(records, references, all) && references != []
    ensures DecodeFrom(|references|, EncodeKeys(references, all) + extra, records)
      == DecodeFrom(|references| - 1, EncodeKeys(references[1..], all) + extra,
                    records[references[0] := all[references[0]]])
  {
    var head, rest := references[0], EncodeKeys(references[1..], all);
    RecordDecodes(|references|, head, all[head], rest + extra, records);
    assert EncodeRecord(head, all[head]) + rest + extra == EncodeRecord(head, all[head]) + (rest + extra);
  }

  lemma {:induction false} KeysSplit(references: seq<Bytes>, all: Records)
    requires references != [] && forall i :: 0 <= i < |references| ==> references[i] in all
    ensures EncodeKeys(references, all)
      == EncodeRecord(references[0], all[references[0]]) + EncodeKeys(references[1..], all)
  {}

  lemma {:induction false} CutKeysRefused(references: seq<Bytes>, all: Records, records: Records, k: nat)
    requires Addable(records, references, all) && k < |EncodeKeys(references, all)|
    ensures DecodeFrom(|references|, EncodeKeys(references, all)[..k], records).Err?
    decreases |references|
  {
    var head, tail := references[0], references[1..];
    var record, rest := EncodeRecord(head, all[head]), EncodeKeys(tail, all);
    KeysSplit(references, all);
    if k < |record| {
      CutRecordRefused(|references|, head, all[head], rest, records, k);
    } else {
      AddableTail(records, references, all);
      CutKeysRefused(tail, all, records[head := all[head]], k - |record|);
      RecordDecodes(|references|, head, all[head], rest[..k - |record|], records);
      CutBehind(record, rest, k);
    }
  }

  lemma {:induction false} AddedContents(records: Records, references: seq<Bytes>, all: Records)
    requires Addable(records, references, all)
    ensures Added(records, references, all).Keys == records.Keys + (set i | 0 <= i < |references| :: references[i])
    ensures forall r :: r in records ==> Added(records, references, all)[r] == records[r]
    ensures forall i :: 0 <= i < |references| ==> Added(records, references, all)[references[i]] == all[references[i]]
    decreases |references|
  {
    if references != [] {
      AddableTail(records, references, all);
      AddedContents(records[references[0] := all[references[0]]], references[1..], all);
    }
  }

  lemma {:induction false} AllAddable(records: Records, references: seq<Bytes>)
    requires Storable(records) && SortedReferences(records, references)
    ensures Addable(map[], references, records) && Added(map[], references, records) == records
    ensures |references| <= MAX_RECORDS
  {
    ReferencesOf(records, references);
    AddedContents(map[], references, records);
    var added := Added(map[], references, records);
    forall r ensures r in added <==> r in records {
      if r in records {
        var i :| 0 <= i < |references| && references[i] == r;
      }
    }
  }

  lemma {:induction false} CountDecodes(references: seq<Bytes>, rest: Bytes)
    requires |references| <= MAX_RECORDS
    ensures Decoded(BigEndian(|references|, COUNT_WIDTH) + rest) == DecodeFrom(|references|, rest, map[])
  {
    SmallNumbers();
    BigEndianRoundTrip(|references|, COUNT_WIDTH);
    var data := BigEndian(|references|, COUNT_WIDTH) + rest;
    assert data[..COUNT_WIDTH] == BigEndian(|references|, COUNT_WIDTH) && data[COUNT_WIDTH..] == rest;
  }

  lemma {:induction false} EncodedDecodes(records: Records, references: seq<Bytes>, extra: Bytes)
    requires Storable(records) && SortedReferences(records, references)
    requires forall i :: 0 <= i < |references| ==> references[i] in records
    ensures Decoded(BigEndian(|references|, COUNT_WIDTH) + (EncodeKeys(references, records) + extra))
      == if extra == [] then Ok(records) else Err(TrailingData)
  {
    AllAddable(records, references);
    KeysDecode(references, records, extra, map[]);
    CountDecodes(references, EncodeKeys(references, records) + extra);
  }

  lemma {:induction false} CutRefused(records: Records, references: seq<Bytes>, k: nat)
    requires Storable(records) && SortedReferences(records, references)
    requires forall i :: 0 <= i < |references| ==> references[i] in records
    requires k < |EncodeKeys(references, records)|
    ensures Decoded(BigEndian(|references|, COUNT_WIDTH) + EncodeKeys(references, records)[..k]).Err?
  {
    AllAddable(records, references);
    CutKeysRefused(references, records, map[], k);
    CountDecodes(references, EncodeKeys(references, records)[..k]);
  }

  /** Decoding an encoding gives the map back; with anything behind it, it is refused. */
  lemma {:induction false} RoundTrip(records: Records, data: Bytes, extra: Bytes)
    requires Storable(records) && IsEncoding(records, data)
    ensures Decoded(data + extra) == if extra == [] then Ok(records) else Err(TrailingData)
  {
    var references: seq<Bytes> :| SortedReferences(records, references) && EncodedAs(records, references, data);
    Regroup(BigEndian(|references|, COUNT_WIDTH), EncodeKeys(references, records), extra);
    EncodedDecodes(records, references, extra);
  }

  /** Every strict prefix of an encoding is refused. */
  lemma {:induction false} StrictPrefixRefused(records: Records, data: Bytes, k: nat)
    requires Storable(records) && IsEncoding(records, data) && k < |data|
    ensures Decoded(data[..k]).Err?
  {
    var references: seq<Bytes> :| SortedReferences(records, references) && EncodedAs(records, references, data);
    if k >= COUNT_WIDTH {
      CutBehind(BigEndian(|references|, COUNT_WIDTH), EncodeKeys(references, records), k);
      CutRefused(records, references, k - COUNT_WIDTH);
    }
  }

  // ---------------------------------------------------------------- what is accepted

  /** A record that could be taken off the front stands there in its encoded form. */
  lemma {:induction false} FrontIsRecord(data: Bytes, size: nat)
    requires |data| >= SIZE_WIDTH && size == FromBigEndian(data[..SIZE_WIDTH])
    requires |data| >= SIZE_WIDTH + size + KEY_SIZE
    ensures var rest := data[SIZE_WIDTH..];
            data == EncodeRecord(rest[..size], rest[size..size + KEY_SIZE]) + rest[size + KEY_SIZE..]
  {
    FromBigEndianRoundTrip(data[..SIZE_WIDTH]);
    var rest := data[SIZE_WIDTH..];
    assert data == data[..SIZE_WIDTH] + rest;
    assert rest == rest[..size] + rest[size..size + KEY_SIZE] + rest[size + KEY_SIZE..];
  }

  lemma {:induction false} AddableCons(records: Records, head: Bytes, key: Bytes, tail: seq<Bytes>, out: Records)
    requires Addable(records[head := key], tail, out) && head !in records && StorableRecord(head, key)
    requires head in out && out[head] == key
    ensures Addable(records, [head] + tail, out)
  {
    var references := [head] + tail;
    forall i | 0 <= i < |references|
      ensures references[i] in out && StorableRecord(references[i], out[references[i]]) && references[i] !in records
    {
      assert i > 0 ==> references[i] == tail[i - 1];
    }
    forall i, j | 0 <= i < j < |references| ensures Different(references[i], references[j]) {
      assert references[j] == tail[j - 1];
      if i > 0 {
        assert Different(tail[i - 1], tail[j - 1]);
      }
    }
  }

  lemma {:induction false} DecodedKeys(count: nat, data: Bytes, records: Records, out: Records)
    returns (references: seq<Bytes>)
    requires DecodeFrom(count, data, records) == Ok(out)
    ensures |references| == count && Addable(records, references, out)
    ensures data == EncodeKeys(references, out) && Added(records, references, out) == out
    decreases count
  {
    references := [];
    if count > 0 {
      var size := FromBigEndian(data[..SIZE_WIDTH]);
      var rest := data[SIZE_WIDTH..];
      var head, key := rest[..size], rest[size..size + KEY_SIZE];
      var tail := DecodedKeys(count - 1, rest[size + KEY_SIZE..], records[head := key], out);
      AddedContents(records[head := key], tail, out);
      AddableCons(records, head, key, tail, out);
      FrontIsRecord(data, size);
      references := [head] + tail;
      assert references[1..] == tail;
      KeysSplit(references, out);
    }
  }

  /** The references of a map, each once, in any order. */
  ghost predicate Listed(records: Records, references: seq<Bytes>) {
    && Pairwise(Different, references)
    && forall reference :: reference in records <==> reference in references
  }

  lemma {:induction false} ListedAddable(records: Records, references: seq<Bytes>)
    requires Storable(records) && Listed(records, references)
    ensures Addable(map[], references, records) && Added(map[], references, records) == records
  {
    AddedContents(map[], references, records);
    var added := Added(map[], references, records);
    forall r ensures r in added <==> r in records {
      if r in records {
        var i :| 0 <= i < |references| && references[i] == r;
      }
    }
  }

  lemma {:induction false} ListedLength(records: Records, references: seq<Bytes>)
    requires Listed(records, references)
    ensures |references| == |records|
    decreases |references|
  {
    if references == [] {
      assert records == map[];
    } else {
      var head, tail := references[0], references[1..];
      var fewer := records - {head};
      forall i, j | 0 <= i < j < |tail| ensures Different(tail[i], tail[j]) {
        assert Different(references[i + 1], references[j + 1]);
      }
      forall r ensures r in fewer <==> r in tail {
        if r in tail {
          var i :| 0 <= i < |tail| && tail[i] == r;
          assert Different(references[0], references[i + 1]);
        }
      }
      ListedLength(fewer, tail);
      assert records.Keys == fewer.Keys + {head};
      assert |records.Keys| == |records| && |fewer.Keys| == |fewer|;
    }
  }

  lemma {:induction false} AcceptedIsEncoded(data: Bytes, records: Records) returns (references: seq<Bytes>)
    requires Decoded(data) == Ok(records)
    ensures Storable(records) && Listed(records, references) && EncodedAs(records, references, data)
  {
    references := DecodedKeys(FromBigEndian(data[..COUNT_WIDTH]), data[COUNT_WIDTH..], map[], records);
    AddedContents(map[], references, records);
    AllListed(records, references);
    ListedLength(records, references);
    FromBigEndianRoundTrip(data[..COUNT_WIDTH]);
    assert data == data[..COUNT_WIDTH] + data[COUNT_WIDTH..];
  }

  lemma {:induction false} EncodedIsAccepted(data: Bytes, records: Records, references: seq<Bytes>)
    requires Storable(records) && Listed(records, references) && EncodedAs(records, references, data)
    ensures Decoded(data) == Ok(records)
  {
    ListedLength(records, references);
    ListedAddable(records, references);
    KeysDecode(references, records, [], map[]);
    CountDecodes(references, EncodeKeys(references, records));
    assert EncodeKeys(references, records) + [] == EncodeKeys(references, records);
  }

  /** Decoding accepts a byte string as some map exactly if the map is storable and the bytes are its count and its
      records, each once, in whatever order. */
  lemma {:induction false} AcceptsExactlyEncodings(data: Bytes, records: Records)
    ensures Decoded(data) == Ok(records) <==>
              && Storable(records)
              && exists references :: Listed(records, references) && EncodedAs(records, references, data)
  {
    if Decoded(data) == Ok(records) {
      var references := AcceptedIsEncoded(data, records);
    }
    if references :| Storable(records) && Listed(records, references) && EncodedAs(records, references, data) {
      EncodedIsAccepted(data, records, references);
    }
  }

  lemma {:induction false} AllListed(records: Records, references: seq<Bytes>)
    requires Addable(map[], references, records)
    requires records.Keys == (set i | 0 <= i < |references| :: references[i])
    ensures Listed(records, references)
    ensures forall reference :: reference in records ==> StorableRecord(reference, records[reference])
  {
    forall reference | reference in records ensures StorableRecord(reference, records[reference]) {
      var i :| 0 <= i < |references| && references[i] == reference;
    }
  }
}
