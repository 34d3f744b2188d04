/** Length-prefixed fields and the random filler that may follow them. */
module Fields {
  import opened Bytes
  import opened AckCodec

  const MAX_FIELD: nat := 254

  /** The numbers a message draws from the random source. */
  datatype Random = Random(length: nat, byteAt: nat -> nat)

  /** `done` in front of what is still to come. */
  function Prepend<T>(done: seq<T>, rest: Result<seq<T>, CodecError>): Result<seq<T>, CodecError> {
    if rest.Err? then rest else Ok(done + rest.value)
  }

  lemma PrependNil<T>(rest: Result<seq<T>, CodecError>)
    ensures Prepend([], rest) == rest
  {
    if rest.Ok? { assert [] + rest.value == rest.value; }
  }

  lemma PrependTwice<T>(a: seq<T>, b: seq<T>, rest: Result<seq<T>, CodecError>)
    ensures Prepend(a, Prepend(b, rest)) == Prepend(a + b, rest)
  {
    if rest.Ok? { assert a + (b + rest.value) == (a + b) + rest.value; }
  }

  function WriteFields(fields: seq<bytes>): Result<bytes, CodecError> {
    if fields == [] then Ok([])
    else if |fields[0]| > MAX_FIELD then Err(MaxBytesSize)
    else Prepend([|fields[0]|] + fields[0], WriteFields(fields[1..]))
  }

  /** Reads at most `n` fields and ignores what follows them. */
  function ReadFields(data: bytes, n: nat): Result<seq<bytes>, CodecError> {
    if data == [] || n == 0 then Ok([])
    else
      var l: nat := data[0];
      if l > |data| - 1 then Err(WrongBytesSize)
      else Prepend([data[1..l + 1]], ReadFields(data[l + 1..], n - 1))
  }

  function Filler(room: nat, rnd: Random): bytes
    requires room > 0
  {
    seq(rnd.length % room, i requires 0 <= i => rnd.byteAt(i) % 255)
  }

  function WithFiller(obfuscate: bool, payloadSize: nat, data: bytes, rnd: Random): Result<bytes, CodecError> {
    if !obfuscate then Ok(data)
    else if payloadSize <= |data| then Err(IndexPanic)
    else Ok(data + Filler(payloadSize - |data|, rnd))
  }

  lemma ReadField(v: bytes, tail: bytes, n: nat)
    requires |v| <= MAX_FIELD && n > 0
    ensures ReadFields(([|v|] + v) + tail, n) == Prepend([v], ReadFields(tail, n - 1))
  {
    var data := ([|v|] + v) + tail;
    assert data[1..|v| + 1] == v && data[|v| + 1..] == tail;
  }

  /** Fields are read back whatever bytes follow them. */
  lemma {:induction false} FieldsRoundTrip(fields: seq<bytes>, suffix: bytes)
    requires WriteFields(fields).Ok?
    ensures ReadFields(WriteFields(fields).value + suffix, |fields|) == Ok(fields)
  {
    if fields != [] {
      var head, rest := fields[0], WriteFields(fields[1..]).value;
      FieldsRoundTrip(fields[1..], suffix);
      ReadField(head, rest + suffix, |fields|);
      hide ReadFields;
      ConcatIsAssociative([|head|] + head, rest, suffix);
      assert [head] + fields[1..] == fields;
    }
  }

  lemma {:induction false} FieldsFailIff(fields: seq<bytes>)
    ensures WriteFields(fields).Ok? <==> forall i :: 0 <= i < |fields| ==> |fields[i]| <= 254
    ensures WriteFields(fields).Ok? ==> |WriteFields(fields).value| >= |fields|
  {
    if fields != [] {
      FieldsFailIff(fields[1..]);
      assert forall i :: 0 < i < |fields| ==> fields[i] == fields[1..][i - 1];
    }
  }

  lemma FillerFits(payloadSize: nat, data: bytes, rnd: Random)
    requires |data| < payloadSize
    ensures |data + Filler(payloadSize - |data|, rnd)| < payloadSize
  {
  }

  // ----- what is written, and what can be read

  /** First come these fields, each behind a byte that holds its length, and then `rest`. */
  ghost predicate Splits(raw: bytes, fields: seq<bytes>, rest: bytes)
    decreases |fields|
  {
    if fields == [] then raw == rest
    else
      && |raw| > |fields[0]| == raw[0] && raw[1..|fields[0]| + 1] == fields[0]
      && Splits(raw[|fields[0]| + 1..], fields[1..], rest)
  }

  /** At most `n` fields, with as many bytes behind the last one as are no field. */
  ghost predicate SplitsUpTo(raw: bytes, n: nat, fields: seq<bytes>, rest: bytes) {
    && Splits(raw, fields, rest)
    && (|fields| == n || (|fields| < n && (rest == [] || rest[0] >= |rest|)))
  }

  /** Every byte string splits like that, */
  lemma {:induction false} SomeSplit(raw: bytes, n: nat) returns (fields: seq<bytes>, rest: bytes)
    ensures SplitsUpTo(raw, n, fields, rest)
  {
    if n == 0 || raw == [] || raw[0] >= |raw| {
      fields, rest := [], raw;
    } else {
      var l: nat := raw[0];
      fields, rest := SomeSplit(raw[l + 1..], n - 1);
      assert ([raw[1..l + 1]] + fields)[1..] == fields;
      fields := [raw[1..l + 1]] + fields;
    }
  }

  /** and what is read are these fields, unless a field is cut short before there are enough. */
  lemma {:induction false} ReadIsExact(raw: bytes, n: nat, fields: seq<bytes>, rest: bytes)
    requires SplitsUpTo(raw, n, fields, rest)
    ensures ReadFields(raw, n) == if |fields| == n || rest == [] then Ok(fields) else Err(WrongBytesSize)
  {
    if fields != [] {
      ReadIsExact(raw[|fields[0]| + 1..], n - 1, fields[1..], rest);
      assert [fields[0]] + fields[1..] == fields;
    }
  }

  lemma {:induction false} WriteIsExact(fields: seq<bytes>)
    requires WriteFields(fields).Ok?
    ensures Splits(WriteFields(fields).value, fields, [])
  {
    if fields != [] {
      WriteIsExact(fields[1..]);
      var head, rest := [|fields[0]|] + fields[0], WriteFields(fields[1..]).value;
      assert (head + rest)[|head|..] == rest;
    }
  }

  lemma {:induction false} SplitsBefore(raw: bytes, fields: seq<bytes>, rest: bytes)
    requires Splits(raw, fields, [])
    ensures Splits(raw + rest, fields, rest)
    decreases |fields|
  {
    if fields == [] {
      assert [] + rest == rest;
    } else {
      var l := |fields[0]| + 1;
      SplitsBefore(raw[l..], fields[1..], rest);
      assert (raw + rest)[1..l] == raw[1..l] && (raw + rest)[l..] == raw[l..] + rest;
    }
  }

  /** The filler is as long as the first draw says, within the room that is left, and
      consists of the other draws, none of them 255; without room the draw panics. */
  lemma FillerIsDrawn(payloadSize: nat, data: bytes, rnd: Random)
    ensures WithFiller(false, payloadSize, data, rnd) == Ok(data)
    ensures var r := WithFiller(true, payloadSize, data, rnd);
      if payloadSize <= |data| then r == Err(IndexPanic)
      else
        && r.Ok? && |r.value| == |data| + rnd.length % (payloadSize - |data|) && data <= r.value
        && forall i :: |data| <= i < |r.value| ==> r.value[i] == rnd.byteAt(i - |data|) % 255
  {
  }

  // ----- the loops

  method MarshalBytes(fields: seq<bytes>) returns (r: Result<bytes, CodecError>)
    ensures r == WriteFields(fields)
  {
    var res: bytes := [];
    assert fields[0..] == fields;
    PrependNil(WriteFields(fields));
    for i := 0 to |fields|
      invariant Prepend(res, WriteFields(fields[i..])) == WriteFields(fields)
    {
      assert fields[i..][1..] == fields[i + 1..];
      var v := fields[i];
      if |v| + 1 > 255 {
        return Err(MaxBytesSize);
      }
      PrependTwice(res, [|v|] + v, WriteFields(fields[i + 1..]));
      res := res + ([|v|] + v);
    }
    assert res + [] == res;
    return Ok(res);
  }

  method UnmarshalBytes(input: bytes, n: nat) returns (r: Result<seq<bytes>, CodecError>)
    requires n > 0
    ensures r == ReadFields(input, n)
  {
    var data, res := input, [];
    PrependNil(ReadFields(input, n));
    while |data| > 0
      invariant |res| < n
      invariant Prepend(res, ReadFields(data, n - |res|)) == ReadFields(input, n)
      decreases |data|
    {
      var l: nat := data[0];
      if l > |data| - 1 {
        return Err(WrongBytesSize);
      }
      var v := data[1..l + 1];
      PrependTwice(res, [v], ReadFields(data[l + 1..], n - |res| - 1));
      res := res + [v];
      assert res + [] == res;
      if |res| == n {
        return Ok(res);
      }
      data := data[l + 1..];
    }
    assert res + [] == res;
    return Ok(res);
  }

  method AddFakeData(obfuscate: bool, payloadSize: nat, data: bytes, rnd: Random) returns (r: Result<bytes, CodecError>)
    ensures r == WithFiller(obfuscate, payloadSize, data, rnd)
  {
    if !obfuscate {
      return Ok(data);
    }
    if payloadSize <= |data| {
      return Err(IndexPanic);
    }
    var l := rnd.length % (payloadSize - |data|);
    var fake := new u8[l];
    for i := 0 to l
      invariant forall k :: 0 <= k < i ==> fake[k] == rnd.byteAt(k) % 255
    {
      fake[i] := rnd.byteAt(i) % 255;
    }
    assert fake[..] == Filler(payloadSize - |data|, rnd);
    return Ok(data + fake[..]);
  }
}
