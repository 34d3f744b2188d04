/** The wire form of an acknowledgement set: for each endpoint its eight bytes, a
    one-byte counter and the IDs. The map is written in whatever order it iterates. */
module AckCodec {
  import opened Bytes
  import opened Acknowledgements

  datatype CodecError =
    | WrongHeaderSize | UnknownCommand | WrongPayloadSize | WrongPayload
    | MaxBytesSize | WrongBytesSize | WrongAcknowledgement | DecompressFailed
    | IndexPanic  // the run-time panic of an index or slice out of range

  function EncodeIds(ids: seq<u32>): bytes {
    if ids == [] then [] else Be32(ids[0]) + EncodeIds(ids[1..])
  }

  function EncodeEntry(e: u64, ids: seq<u32>): bytes {
    Be64(e) + [|ids| % 0x100] + EncodeIds(ids)
  }

  function Encode(data: AckData, order: seq<u64>): bytes
    requires forall e :: e in order ==> e in data
  {
    if order == [] then [] else EncodeEntry(order[0], data[order[0]]) + Encode(data, order[1..])
  }

  function DecodeIds(raw: bytes): seq<u32>
    requires |raw| % 4 == 0
  {
    if raw == [] then [] else [FromBe32(raw[..4])] + DecodeIds(raw[4..])
  }

  /** Reads entries off `raw` into `found`; a repeated endpoint replaces its list. */
  function DecodeEntries(raw: bytes, found: AckData): Result<AckData, CodecError>
    decreases |raw|
  {
    if raw == [] then Ok(found)
    else if |raw| <= ENDPOINT_SIZE then Err(WrongAcknowledgement)
    else
      var count: nat := raw[8];
      var end := ENDPOINT_SIZE + 4 * count;
      if end > |raw| then Err(WrongAcknowledgement)
      else DecodeEntries(raw[end..], found[FromBe64(raw[..8]) := DecodeIds(raw[ENDPOINT_SIZE..end])])
  }

  function Decode(raw: bytes): Result<AckData, CodecError> {
    if |raw| < ENDPOINT_SIZE + 4 then Err(WrongAcknowledgement) else DecodeEntries(raw, map[])
  }

  // ----- round trip

  lemma {:induction false} IdsRoundTrip(ids: seq<u32>)
    ensures |EncodeIds(ids)| == 4 * |ids| && DecodeIds(EncodeIds(ids)) == ids
  {
    if ids != [] {
      IdsRoundTrip(ids[1..]);
      Be32RoundTrip(ids[0]);
      var raw := EncodeIds(ids);
      assert raw[..4] == Be32(ids[0]) && raw[4..] == EncodeIds(ids[1..]);
    }
  }

  lemma {:induction false} EncodeLength(data: AckData, order: seq<u64>)
    requires forall e :: e in order ==> e in data
    ensures |Encode(data, order)| == SizeAlong(data, order)
  {
    if order != [] {
      IdsRoundTrip(data[order[0]]);
      EncodeLength(data, order[1..]);
    }
  }

  /** One entry at the front is read back, and the rest is left. */
  lemma DecodeEntry(e: u64, ids: seq<u32>, rest: bytes, found: AckData)
    requires 1 <= |ids| <= MAX_IDS
    ensures DecodeEntries(EncodeEntry(e, ids) + rest, found) == DecodeEntries(rest, found[e := ids])
  {
    IdsRoundTrip(ids);
    Be64RoundTrip(e);
    var raw, end := EncodeEntry(e, ids) + rest, ENDPOINT_SIZE + 4 * |ids|;
    assert raw[..8] == Be64(e);
    assert raw[8] == |ids|;
    assert raw[ENDPOINT_SIZE..end] == EncodeIds(ids);
    assert raw[end..] == rest;
  }

  /** The part of `data` that has been read: what was found and what `order` lists. */
  function ReadSoFar(data: AckData, order: seq<u64>, found: AckData): AckData {
    map e | e in data && (e in order || e in found) :: data[e]
  }

  lemma {:induction false} EntriesRoundTrip(data: AckData, order: seq<u64>, found: AckData)
    requires forall e :: e in order ==> e in data && 1 <= |data[e]| <= MAX_IDS
    requires forall e :: e in found ==> e in data && found[e] == data[e]
    ensures DecodeEntries(Encode(data, order), found) == Ok(ReadSoFar(data, order, found))
  {
    if order == [] {
      assert found == ReadSoFar(data, order, found);
    } else {
      var e, rest := order[0], order[1..];
      DecodeEntry(e, data[e], Encode(data, rest), found);
      assert forall f :: f in order <==> f == e || f in rest;
      EntriesRoundTrip(data, rest, found[e := data[e]]);
      assert ReadSoFar(data, rest, found[e := data[e]]) == ReadSoFar(data, order, found);
    }
  }

  /** Decoding undoes encoding for every order in which the map may be written. */
  lemma AcknowledgementRoundTrip(s: AckSet, order: seq<u64>)
    requires Fits(s) && s.data != map[] && IsOrder(order, s.data)
    ensures |Encode(s.data, order)| == s.size
    ensures Decode(Encode(s.data, order)) == Ok(s.data)
  {
    EncodeLength(s.data, order);
    EntriesRoundTrip(s.data, order, map[]);
    assert s.data == ReadSoFar(s.data, order, map[]);
    assert s.size >= ENDPOINT_SIZE + 4 by {
      var e :| e in s.data;
      assert e in order && order != [];
      assert order[0] in order;
    }
  }

  // ----- what is written, byte by byte, and what can be read

  datatype Entry = Entry(endpoint: u64, ids: seq<u32>)

  /** First come the endpoint, the length of its list modulo 256, and the list, all with
      the most significant byte first. */
  ghost predicate Starts(raw: bytes, entry: Entry) {
    && 9 + 4 * |entry.ids| <= |raw|
    && Number(raw[..8]) == entry.endpoint
    && raw[8] == |entry.ids| % 256
    && forall i :: 0 <= i < |entry.ids| ==> Number(raw[9 + 4 * i..13 + 4 * i]) == entry.ids[i]
  }

  /** There are these entries, one after the other, and nothing else. */
  ghost predicate Consists(raw: bytes, entries: seq<Entry>)
    decreases |entries|
  {
    if entries == [] then raw == []
    else Starts(raw, entries[0]) && Consists(raw[9 + 4 * |entries[0].ids|..], entries[1..])
  }

  /** The list of every endpoint; a later one replaces an earlier one. */
  function ListsOf(entries: seq<Entry>, found: AckData): AckData {
    if entries == [] then found else ListsOf(entries[1..], found[entries[0].endpoint := entries[0].ids])
  }

  /** The counters hold the lengths, and the last list is not empty. */
  ghost predicate Proper(entries: seq<Entry>) {
    && (forall i :: 0 <= i < |entries| ==> |entries[i].ids| <= 255)
    && (entries != [] ==> entries[|entries| - 1].ids != [])
  }

  lemma {:induction false} IdsAt(raw: bytes, i: nat)
    requires |raw| % 4 == 0
    ensures |DecodeIds(raw)| == |raw| / 4
    ensures 4 * i < |raw| ==> DecodeIds(raw)[i] == Number(raw[4 * i..4 * i + 4])
  {
    if raw != [] {
      NumberOfFour(raw[..4]);
      IdsAt(raw[4..], if i > 0 then i - 1 else 0);
      if 0 < i && 4 * i < |raw| {
        assert raw[4..][4 * (i - 1)..4 * (i - 1) + 4] == raw[4 * i..4 * i + 4];
      }
    }
  }

  lemma PartOfPart(raw: bytes, start: nat, end: nat, from: nat, to: nat)
    requires start <= end <= |raw| && from <= to <= end - start
    ensures raw[start..end][from..to] == raw[start + from..start + to]
  {
    var a, b := raw[start..end][from..to], raw[start + from..start + to];
    forall k | 0 <= k < to - from ensures a[k] == b[k] {
      assert a[k] == raw[start..end][from + k] && b[k] == raw[start + from + k];
    }
  }

  lemma PartOfList(raw: bytes, n: nat, i: nat)
    requires i < n && 9 + 4 * n <= |raw|
    ensures raw[9..9 + 4 * n][4 * i..4 * i + 4] == raw[9 + 4 * i..13 + 4 * i]
  {
    PartOfPart(raw, 9, 9 + 4 * n, 4 * i, 4 * i + 4);
  }

  /** The list at the front of `raw`, read. */
  lemma ListIsRead(raw: bytes, ids: seq<u32>)
    requires 9 + 4 * |ids| <= |raw|
    ensures DecodeIds(raw[9..9 + 4 * |ids|]) == ids
      <==> forall i :: 0 <= i < |ids| ==> Number(raw[9 + 4 * i..13 + 4 * i]) == ids[i]
  {
    var part := raw[9..9 + 4 * |ids|];
    IdsAt(part, 0);
    forall i | 0 <= i < |ids| ensures DecodeIds(part)[i] == Number(raw[9 + 4 * i..13 + 4 * i]) {
      IdsAt(part, i);
      PartOfList(raw, |ids|, i);
    }
  }

  /** What starts with an entry is read from it on, if its counter holds the length. */
  lemma FirstIsRead(raw: bytes, first: Entry, found: AckData)
    requires |raw| > 9 && Starts(raw, first) && |first.ids| <= 255
    ensures DecodeEntries(raw, found) == DecodeEntries(raw[9 + 4 * |first.ids|..], found[first.endpoint := first.ids])
  {
    NumberOfEight(raw[..8]);
    ListIsRead(raw, first.ids);
    hide DecodeIds, FromBe64, Number;
  }

  lemma {:induction false} ProperIsRead(raw: bytes, entries: seq<Entry>, found: AckData)
    requires Consists(raw, entries) && Proper(entries)
    ensures DecodeEntries(raw, found) == Ok(ListsOf(entries, found))
    ensures entries != [] ==> |raw| >= 13
    decreases |entries|
  {
    if entries != [] {
      var first, rest := entries[0], entries[1..];
      assert rest != [] ==> rest[|rest| - 1] == entries[|entries| - 1];
      ProperIsRead(raw[9 + 4 * |first.ids|..], rest, found[first.endpoint := first.ids]);
      FirstIsRead(raw, first, found);
    }
  }

  lemma FirstOf(raw: bytes, found: AckData) returns (first: Entry)
    requires raw != [] && DecodeEntries(raw, found).Ok?
    ensures Starts(raw, first) && |first.ids| <= 255 && |raw| > 9
  {
    var count: nat := raw[8];
    first := Entry(FromBe64(raw[..8]), DecodeIds(raw[9..9 + 4 * count]));
    NumberOfEight(raw[..8]);
    IdsAt(raw[9..9 + 4 * count], 0);
    ListIsRead(raw, first.ids);
    hide DecodeIds, FromBe64, Number;
  }

  lemma {:induction false} ReadIsProper(raw: bytes, found: AckData) returns (entries: seq<Entry>)
    requires DecodeEntries(raw, found).Ok?
    ensures Consists(raw, entries) && Proper(entries) && (entries == [] <==> raw == [])
    decreases |raw|
  {
    if raw == [] {
      entries := [];
    } else {
      var first := FirstOf(raw, found);
      FirstIsRead(raw, first, found);
      var rest := ReadIsProper(raw[9 + 4 * |first.ids|..], found[first.endpoint := first.ids]);
      entries := [first] + rest;
      assert entries[1..] == rest;
      hide DecodeEntries, Number;
    }
  }

  lemma {:induction false} OneError(raw: bytes, found: AckData)
    ensures DecodeEntries(raw, found).Err? ==> DecodeEntries(raw, found).error == WrongAcknowledgement
    decreases |raw|
  {
    if |raw| > 9 {
      var count: nat := raw[8];
      var end := 9 + 4 * count;
      if end <= |raw| { OneError(raw[end..], found[FromBe64(raw[..8]) := DecodeIds(raw[9..end])]); }
    }
  }

  /** A byte string is read exactly if it consists of entries, one or more, the last with
      a list that is not empty; anything else is a wrong acknowledgement. */
  lemma DecodeIsExact(raw: bytes)
    ensures forall entries :: entries != [] && Consists(raw, entries) && Proper(entries) ==>
      Decode(raw) == Ok(ListsOf(entries, map[]))
    ensures (forall entries :: entries != [] && Proper(entries) ==> !Consists(raw, entries)) ==>
      Decode(raw) == Err(WrongAcknowledgement)
  {
    forall entries | entries != [] && Consists(raw, entries) && Proper(entries)
      ensures Decode(raw) == Ok(ListsOf(entries, map[]))
    {
      ProperIsRead(raw, entries, map[]);
    }
    if Decode(raw).Ok? {
      var entries := ReadIsProper(raw, map[]);
    } else {
      OneError(raw, map[]);
    }
  }

  function EntriesOf(data: AckData, order: seq<u64>): seq<Entry>
    requires forall e :: e in order ==> e in data
  {
    if order == [] then [] else [Entry(order[0], data[order[0]])] + EntriesOf(data, order[1..])
  }

  lemma WrittenEntry(entry: Entry, rest: bytes)
    ensures var e := EncodeEntry(entry.endpoint, entry.ids);
      |e| == 9 + 4 * |entry.ids| && Starts(e + rest, entry) && (e + rest)[|e|..] == rest
  {
    var raw := EncodeEntry(entry.endpoint, entry.ids) + rest;
    IdsRoundTrip(entry.ids);
    assert raw[..8] == Be64(entry.endpoint) && raw[8] == |entry.ids| % 256;
    assert raw[9..9 + 4 * |entry.ids|] == EncodeIds(entry.ids);
    NumbersAreBigEndian(0, 0, entry.endpoint);
    ListIsRead(raw, entry.ids);
    hide DecodeIds, EncodeIds, Number, Be64;
  }

  /** What is written are the entries, in the order in which the map iterates. */
  lemma {:induction false} EncodeConsists(data: AckData, order: seq<u64>)
    requires forall e :: e in order ==> e in data
    ensures Consists(Encode(data, order), EntriesOf(data, order))
  {
    if order != [] {
      var first := Entry(order[0], data[order[0]]);
      EncodeConsists(data, order[1..]);
      WrittenEntry(first, Encode(data, order[1..]));
      assert EntriesOf(data, order)[1..] == EntriesOf(data, order[1..]);
      hide Starts, EncodeEntry;
    }
  }

  // ----- the loops

  /** Writes `part` at `pos`, or reports the panic the write would be. */
  method Put(res: array<u8>, pos: nat, part: bytes) returns (ok: bool)
    modifies res
    ensures ok <==> pos + |part| <= res.Length
    ensures ok ==> res[..pos + |part|] == old(res[..pos]) + part
    ensures ok ==> forall k :: pos + |part| <= k < res.Length ==> res[k] == old(res[k])
  {
    ok := pos + |part| <= res.Length;
    if ok {
      forall k | 0 <= k < |part| {
        res[pos + k] := part[k];
      }
      assert res[..pos] == old(res[..pos]) && res[pos..pos + |part|] == part;
    }
  }

  /** What remains to be written, and its size, from the `k`-th endpoint on. */
  ghost function EncodeFrom(data: AckData, order: seq<u64>, k: nat): bytes
    requires k <= |order| && forall e :: e in order ==> e in data
  {
    Encode(data, order[k..])
  }

  ghost function SizeFrom(data: AckData, order: seq<u64>, k: nat): nat
    requires k <= |order| && forall e :: e in order ==> e in data
  {
    SizeAlong(data, order[k..])
  }

  lemma EncodeNext(data: AckData, order: seq<u64>, k: nat)
    requires k < |order| && forall e :: e in order ==> e in data
    ensures EncodeFrom(data, order, k) == EncodeEntry(order[k], data[order[k]]) + EncodeFrom(data, order, k + 1)
    ensures SizeFrom(data, order, k) == ENDPOINT_SIZE + 4 * |data[order[k]]| + SizeFrom(data, order, k + 1)
  {
    assert order[k..][1..] == order[k + 1..];
  }

  lemma EncodeEnds(data: AckData, order: seq<u64>)
    requires forall e :: e in order ==> e in data
    ensures EncodeFrom(data, order, 0) == Encode(data, order) && EncodeFrom(data, order, |order|) == []
    ensures SizeFrom(data, order, 0) == SizeAlong(data, order) && SizeFrom(data, order, |order|) == 0
  {
    assert order[0..] == order;
  }

  lemma EncodeNextId(ids: seq<u32>, j: nat)
    requires j < |ids|
    ensures EncodeIds(ids[j..]) == Be32(ids[j]) + EncodeIds(ids[j + 1..])
  {
    assert ids[j..][1..] == ids[j + 1..];
  }

  lemma Shift(a: bytes, part: bytes, rest: bytes)
    ensures a + (part + rest) == (a + part) + rest
  {
  }

  /** The inner loop: writes the IDs of one endpoint from `start` on. */
  method PutIds(res: array<u8>, start: nat, ids: seq<u32>) returns (ok: bool)
    requires start <= res.Length
    modifies res
    ensures ok <==> start + 4 * |ids| <= res.Length
    ensures ok ==> res[..start + 4 * |ids|] == old(res[..start]) + EncodeIds(ids)
    ensures ok ==> forall k :: start + 4 * |ids| <= k < res.Length ==> res[k] == old(res[k])
  {
    ghost var goal := res[..start] + EncodeIds(ids);
    assert ids[0..] == ids;
    for j := 0 to |ids|
      invariant start + 4 * j <= res.Length
      invariant res[..start + 4 * j] + EncodeIds(ids[j..]) == goal
      invariant forall k :: start + 4 * j <= k < res.Length ==> res[k] == old(res[k])
    {
      EncodeNextId(ids, j);
      Shift(res[..start + 4 * j], Be32(ids[j]), EncodeIds(ids[j + 1..]));
      hide EncodeIds;
      ok := Put(res, start + 4 * j, Be32(ids[j]));
      if !ok {
        return;
      }
    }
    return true;
  }

  /** Writes one endpoint with its counter and IDs at `start`. */
  method PutEntry(res: array<u8>, start: nat, e: u64, ids: seq<u32>) returns (ok: bool)
    requires start <= res.Length
    modifies res
    ensures ok <==> start + ENDPOINT_SIZE + 4 * |ids| <= res.Length
    ensures ok ==> res[..start + ENDPOINT_SIZE + 4 * |ids|] == old(res[..start]) + EncodeEntry(e, ids)
    ensures ok ==> forall k :: start + ENDPOINT_SIZE + 4 * |ids| <= k < res.Length ==> res[k] == old(res[k])
  {
    ghost var before, counter := res[..start], [|ids| % 0x100];
    assert before + EncodeEntry(e, ids) == ((before + Be64(e)) + counter) + EncodeIds(ids);
    hide EncodeIds, Be64;
    ok := Put(res, start, Be64(e));
    if ok {
      ok := Put(res, start + 8, [|ids| % 0x100]);
    }
    if ok {
      ok := PutIds(res, start + ENDPOINT_SIZE, ids);
    }
  }

  /** The outer loop: writes the entries one after the other. */
  method PutAll(res: array<u8>, data: AckData, order: seq<u64>) returns (ok: bool)
    requires forall e :: e in order ==> e in data
    modifies res
    ensures ok <==> SizeAlong(data, order) <= res.Length
    ensures ok ==> res[..SizeAlong(data, order)] == Encode(data, order)
    ensures ok ==> forall k :: SizeAlong(data, order) <= k < res.Length ==> res[k] == old(res[k])
  {
    EncodeEnds(data, order);
    hide EncodeFrom, SizeFrom, Encode, EncodeEntry, SizeAlong;
    var i := 0;
    ghost var done: bytes := [];
    for k := 0 to |order|
      invariant 0 <= i <= res.Length && i + SizeFrom(data, order, k) == SizeAlong(data, order)
      invariant res[..i] == done
      invariant done + EncodeFrom(data, order, k) == Encode(data, order)
      invariant forall j :: i <= j < res.Length ==> res[j] == old(res[j])
    {
      EncodeNext(data, order, k);
      Shift(done, EncodeEntry(order[k], data[order[k]]), EncodeFrom(data, order, k + 1));
      ok := PutEntry(res, i, order[k], data[order[k]]);
      if !ok {
        return;
      }
      done := done + EncodeEntry(order[k], data[order[k]]);
      i := i + ENDPOINT_SIZE + 4 * |data[order[k]]|;
    }
    assert done + [] == done;
    return true;
  }

  /** Writes the set into a buffer of the announced size. It panics exactly when the
      set is larger than that, and leaves zeros behind when it is smaller. */
  method MarshalAcknowledgement(data: AckData, size: nat, order: seq<u64>) returns (r: Result<bytes, CodecError>)
    requires IsOrder(order, data)
    ensures r.Ok? <==> SizeAlong(data, order) <= size
    ensures r.Ok? ==> |r.value| == size && Encode(data, order) <= r.value
    ensures r.Ok? ==> forall k :: SizeAlong(data, order) <= k < size ==> r.value[k] == 0
    ensures r.Err? ==> r.error == IndexPanic
  {
    var res := new u8[size](_ => 0);
    var ok := PutAll(res, data, order);
    if !ok {
      return Err(IndexPanic);
    }
    assert res[..SizeAlong(data, order)] <= res[..];
    return Ok(res[..]);
  }

  lemma DecodeNextId(raw: bytes, i: nat, eMax: nat)
    requires i < eMax <= |raw| && (eMax - i) % 4 == 0
    ensures DecodeIds(raw[i..eMax]) == [FromBe32(raw[i..i + 4])] + DecodeIds(raw[i + 4..eMax])
  {
    var rest := raw[i..eMax];
    assert rest[..4] == raw[i..i + 4] && rest[4..] == raw[i + 4..eMax];
  }

  /** The inner reading loop. */
  method ReadIds(raw: bytes, start: nat, eMax: nat) returns (ids: seq<u32>)
    requires start <= eMax <= |raw| && (eMax - start) % 4 == 0
    ensures ids == DecodeIds(raw[start..eMax])
  {
    ids := [];
    var i := start;
    while i < eMax
      invariant start <= i <= eMax && (eMax - i) % 4 == 0
      invariant ids + DecodeIds(raw[i..eMax]) == DecodeIds(raw[start..eMax])
    {
      DecodeNextId(raw, i, eMax);
      hide DecodeIds, FromBe32;
      ConcatIsAssociative(ids, [FromBe32(raw[i..i + 4])], DecodeIds(raw[i + 4..eMax]));
      ids := ids + [FromBe32(raw[i..i + 4])];
      i := i + 4;
    }
    assert ids + [] == ids;
  }

  /** What reading makes of the bytes from `i` on. */
  ghost function DecodeFrom(raw: bytes, i: nat, found: AckData): Result<AckData, CodecError>
    requires i <= |raw|
  {
    DecodeEntries(raw[i..], found)
  }

  lemma DecodeNext(raw: bytes, i: nat, found: AckData)
    requires i < |raw|
    ensures i + ENDPOINT_SIZE >= |raw| ==> DecodeFrom(raw, i, found) == Err(WrongAcknowledgement)
    ensures i + ENDPOINT_SIZE < |raw| ==>
      var count: nat := raw[i + 8];
      var start := i + ENDPOINT_SIZE;
      && (start + 4 * count > |raw| ==> DecodeFrom(raw, i, found) == Err(WrongAcknowledgement))
      && (start + 4 * count <= |raw| ==>
        DecodeFrom(raw, i, found)
        == DecodeFrom(raw, start + 4 * count, found[FromBe64(raw[i..i + 8]) := DecodeIds(raw[start..start + 4 * count])]))
  {
    var tail := raw[i..];
    if i + ENDPOINT_SIZE < |raw| {
      var count: nat := raw[i + 8];
      var start := i + ENDPOINT_SIZE;
      if start + 4 * count <= |raw| {
        assert tail[8] == raw[i + 8] && tail[..8] == raw[i..i + 8];
        assert tail[ENDPOINT_SIZE..ENDPOINT_SIZE + 4 * count] == raw[start..start + 4 * count];
        assert tail[ENDPOINT_SIZE + 4 * count..] == raw[start + 4 * count..];
        hide FromBe64, DecodeIds;
      }
    }
  }

  lemma DecodeStarts(raw: bytes)
    ensures |raw| < ENDPOINT_SIZE + 4 ==> Decode(raw) == Err(WrongAcknowledgement)
    ensures |raw| >= ENDPOINT_SIZE + 4 ==> Decode(raw) == DecodeFrom(raw, 0, map[])
    ensures forall found :: DecodeFrom(raw, |raw|, found) == Ok(found)
  {
    assert raw[0..] == raw;
  }

  /** The reading loops. No index they use is ever out of range. */
  method UnmarshalAcknowledgement(raw: bytes) returns (r: Result<AckData, CodecError>)
    ensures r == Decode(raw)
  {
    DecodeStarts(raw);
    hide DecodeFrom, DecodeIds, Decode, FromBe64;
    var l := |raw|;
    if l < ENDPOINT_SIZE + 4 {
      return Err(WrongAcknowledgement);
    }
    var res: AckData := map[];
    var i := 0;
    while i < l
      invariant 0 <= i <= l
      invariant DecodeFrom(raw, i, res) == Decode(raw)
    {
      DecodeNext(raw, i, res);
      if i + ENDPOINT_SIZE >= l {
        return Err(WrongAcknowledgement);
      }
      var eLen: nat := raw[i + 8];
      var endpoint := FromBe64(raw[i..i + 8]);
      i := i + ENDPOINT_SIZE;
      var eMax := eLen * 4 + i;
      if eMax > l {
        return Err(WrongAcknowledgement);
      }
      var ids := ReadIds(raw, i, eMax);
      i := eMax;
      res := res[endpoint := ids];
    }
    return Ok(res);
  }
}
