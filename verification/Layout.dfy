/**
 The wire format as it stands in the bytes: what every position of a header and of each
 kind of payload holds, and what is made of any bytes that arrive.
 */
module Layout {
  import opened Bytes
  import opened Acknowledgements
  import opened AckCodec
  import opened Fields
  import opened Codec

  // ----- what is written

  /** The data is compressed in this way, because it was asked for and pays. */
  predicate Packs(s: Sender, m: Message, kind: u8) {
    && m.error == 0 && m.typ == 3 && !m.isACK && m.payload.Raw? && m.compressionType == kind
    && s.cmp.compress(kind, m.compressionLevel, m.payload.data).Some?
  }

  lemma FlagBits(isError: bool, isACK: bool, isRequest: bool, compression: u8)
    requires compression <= 3
    ensures var flags: int := Flags(isError, isACK, isRequest, compression);
      && flags < 64 && (flags % 2 == 1 <==> isError) && (flags / 2 % 2 == 1 <==> isRequest) && (flags / 4 % 2 == 1 <==> isACK)
      && (flags / 8 % 2 == 1 <==> compression == 1) && (flags / 16 % 2 == 1 <==> compression == 2)
      && (flags / 32 % 2 == 1 <==> compression == 3)
  {
  }

  lemma HeaderPositions(h: Header)
    ensures var b := HeaderBytes(h);
      && b[0] == h.typ && b[1] == h.flags
      && Number(b[2..6]) == h.id && Number(b[6..10]) == h.sessionID && Number(b[10..12]) == h.length
  {
    var b := HeaderBytes(h);
    NumbersAreBigEndian(h.length, h.id, 0);
    NumbersAreBigEndian(0, h.sessionID, 0);
    hide Be32, Be16, Number;
    assert b[2..6] == Be32(h.id) && b[6..10] == Be32(h.sessionID) && b[10..12] == Be16(h.length);
  }

  lemma WhatIsEncoded(s: Sender, m: Message)
    requires m.payload.Acks? ==> IsOrder(s.order, m.payload.acks)
    requires EncodedPayload(s, m).Ok?
    ensures var e := EncodedPayload(s, m).value;
      && (e.isRequest <==> m.error == 0 && m.typ == 1 && m.payload.AuthRequest?)
      && e.compression <= 3
      && (e.compression == 1 <==> Packs(s, m, 1)) && (e.compression == 2 <==> Packs(s, m, 2))
      && (e.compression == 3 <==> Packs(s, m, 3))
  {
    hide WriteFields, WithFiller, IsOrder, Encode, SizeAlong;
  }

  /** Type, flags, number, session and the length of the encrypted payload, the most
      significant byte first; a message without payload announces none. */
  lemma HeaderIsWritten(s: Sender, m: Message)
    requires m.payload.Acks? ==> IsOrder(s.order, m.payload.acks)
    requires Marshalled(s, m).Ok?
    ensures var (header, payload) := Marshalled(s, m).value;
      && |header| == 12 && header[0] == m.typ
      && Number(header[2..6]) == m.id && Number(header[6..10]) == m.sessionID
      && Number(header[10..12]) == (if m.error > 0 || 1 <= m.typ <= 3 then |payload| + 16 - |payload| % 16 else 0) % 65536
    ensures var flags: int := Marshalled(s, m).value.0[1];
      && flags < 64 && (flags % 2 == 1 <==> m.error > 0)
      && (flags / 2 % 2 == 1 <==> m.error == 0 && m.typ == 1 && m.payload.AuthRequest?)
      && (flags / 4 % 2 == 1 <==> m.isACK)
      && (flags / 8 % 2 == 1 <==> Packs(s, m, 1)) && (flags / 16 % 2 == 1 <==> Packs(s, m, 2))
      && (flags / 32 % 2 == 1 <==> Packs(s, m, 3))
  {
    WhatIsEncoded(s, m);
    var e := EncodedPayload(s, m).value;
    HeaderPositions(HeaderOf(m, e));
    FlagBits(m.error > 0, m.isACK, e.isRequest, e.compression);
    hide HeaderBytes, Flags, EncodedPayload, IsOrder, Packs, Number;
  }

  /** What follows the fields of a payload of which `used` bytes are in use. */
  ghost predicate IsFiller(s: Sender, used: nat, filler: bytes) {
    if !s.cfg.obfuscate then filler == []
    else
      && used < s.cfg.payloadSize && |filler| == s.rnd.length % (s.cfg.payloadSize - used)
      && forall i :: 0 <= i < |filler| ==> filler[i] == s.rnd.byteAt(i) % 255
  }

  lemma ThreeParts(a: bytes, b: bytes, c: bytes, all: bytes)
    requires a + b <= all && c == all[|a + b|..]
    ensures |a| + |b| + |c| == |all| && all[..|a|] == a && all[|a|..] == b + c
    ensures forall i :: 0 <= i < |c| ==> c[i] == all[|a + b| + i]
  {
    assert all == (a + b) + c;
    ConcatIsAssociative(a, b, c);
  }

  lemma FieldsAreWritten(s: Sender, front: bytes, fields: seq<bytes>, isRequest: bool) returns (filler: bytes)
    requires EncodedFields(s, front, fields, isRequest).Ok?
    ensures var payload := EncodedFields(s, front, fields, isRequest).value.payload;
      && |front| + |filler| <= |payload| && payload[..|front|] == front && Splits(payload[|front|..], fields, filler)
      && IsFiller(s, |payload| - |filler|, filler)
  {
    var written := WriteFields(fields).value;
    filler := EncodedFields(s, front, fields, isRequest).value.payload[|front + written|..];
    FillerIsDrawn(s.cfg.payloadSize, front + written, s.rnd);
    WriteIsExact(fields);
    SplitsBefore(written, fields, filler);
    hide Splits, WriteFields, WithFiller;
    ThreeParts(front, written, filler, EncodedFields(s, front, fields, isRequest).value.payload);
  }

  /** The fields of a request, of an answer behind its session, and of a handshake, with
      filler behind them. */
  lemma HandshakesAreWritten(s: Sender, m: Message) returns (filler: bytes)
    requires !m.payload.Acks? && m.error == 0 && (m.typ == 1 || m.typ == 2) && Marshalled(s, m).Ok?
    ensures var payload := Marshalled(s, m).value.1;
      && |filler| <= |payload| && IsFiller(s, |payload| - |filler|, filler)
      && (m.typ == 1 && m.payload.AuthRequest? ==>
            Splits(payload, [m.payload.clientID, m.payload.name, m.payload.password,
                             [m.payload.compression], [m.payload.level]], filler))
      && (m.typ == 1 && m.payload.AuthResponse? ==>
            && |payload| >= 4 && Number(payload[..4]) == m.payload.session
            && Splits(payload[4..], [m.payload.localIP, m.payload.remoteIP], filler))
      && (m.typ == 2 ==> m.payload.Handshake? && Splits(payload, [m.payload.key], filler))
  {
    var payload := Marshalled(s, m).value.1;
    assert payload[0..] == payload;
    if m.typ == 2 {
      filler := FieldsAreWritten(s, [], [m.payload.key], false);
    } else if m.payload.AuthRequest? {
      var p := m.payload;
      filler := FieldsAreWritten(s, [], [p.clientID, p.name, p.password, [p.compression], [p.level]], true);
    } else {
      NumbersAreBigEndian(0, m.payload.session, 0);
      filler := FieldsAreWritten(s, Be32(m.payload.session), [m.payload.localIP, m.payload.remoteIP], false);
    }
    hide EncodedFields, Splits, IsFiller, Be32, Number;
  }

  /** Data is sent as it is unless compression pays; acknowledgements as their entries, up
      to the size announced for the set; an error code alone; anything else empty. */
  lemma DataIsWritten(s: Sender, m: Message)
    requires m.payload.Acks? ==> IsOrder(s.order, m.payload.acks)
    requires Marshalled(s, m).Ok?
    ensures var payload := Marshalled(s, m).value.1;
      && (m.error > 0 ==> payload == [m.error])
      && (m.error == 0 && m.typ == 3 && !m.isACK ==>
            && m.payload.Raw?
            && payload == if 1 <= m.compressionType <= 3 && Packs(s, m, m.compressionType)
                          then s.cmp.compress(m.compressionType, m.compressionLevel, m.payload.data).value else m.payload.data)
      && (m.error == 0 && m.typ == 3 && m.isACK ==>
            && m.payload.Acks? && SizeAlong(m.payload.acks, s.order) <= |payload| == m.payload.size
            && Consists(payload[..SizeAlong(m.payload.acks, s.order)], EntriesOf(m.payload.acks, s.order))
            && forall i :: SizeAlong(m.payload.acks, s.order) <= i < |payload| ==> payload[i] == 0)
      && (m.error == 0 && !(1 <= m.typ <= 3) ==> payload == [])
  {
    var payload := Marshalled(s, m).value.1;
    if m.error == 0 && m.typ == 3 && m.isACK {
      EncodeConsists(m.payload.acks, s.order);
      EncodeLength(m.payload.acks, s.order);
      assert payload[..SizeAlong(m.payload.acks, s.order)] == Encode(m.payload.acks, s.order);
    }
    hide EncodedFields, Consists, Encode, EntriesOf, SizeAlong, HeaderOf, HeaderBytes;
  }

  /** What the payload has to be for the type of the message. */
  predicate Fitting(m: Message) {
    m.error == 0 ==>
      && (m.typ == 1 ==> m.payload.AuthRequest? || m.payload.AuthResponse?)
      && (m.typ == 2 ==> m.payload.Handshake?)
      && (m.typ == 3 ==> if m.isACK then m.payload.Acks? else m.payload.Raw?)
  }

  /** The fields of an authentication or a handshake. */
  function FieldsOf(m: Message): (fields: seq<bytes>) {
    match m.payload
    case AuthRequest(clientID, name, password, compression, level) => [clientID, name, password, [compression], [level]]
    case AuthResponse(_, localIP, remoteIP) => [localIP, remoteIP]
    case Handshake(key) => [key]
    case _ => []
  }

  /** Writing fails exactly for a payload that does not fit the type, a field above 254
      bytes, a payload without room for filler, or a set larger than its announced size. */
  lemma WritingFailsIff(s: Sender, m: Message)
    requires m.payload.Acks? ==> IsOrder(s.order, m.payload.acks)
    ensures Marshalled(s, m) == Err(WrongPayload) <==> !Fitting(m)
    ensures Fitting(m) && m.error == 0 && 1 <= m.typ <= 2 ==>
      var front := if m.payload.AuthResponse? then 4 else 0;
      && (Marshalled(s, m) == Err(MaxBytesSize) <==> exists i :: 0 <= i < |FieldsOf(m)| && |FieldsOf(m)[i]| > 254)
      && (Marshalled(s, m).Err? && Marshalled(s, m) != Err(MaxBytesSize) <==>
            && (forall i :: 0 <= i < |FieldsOf(m)| ==> |FieldsOf(m)[i]| <= 254)
            && s.cfg.obfuscate && front + Length(FieldsOf(m)) >= s.cfg.payloadSize)
    ensures Fitting(m) && (m.error > 0 || !(1 <= m.typ <= 2)) ==>
      (Marshalled(s, m).Err? <==> m.error == 0 && m.typ == 3 && m.isACK && SizeAlong(m.payload.acks, s.order) > m.payload.size)
  {
    FieldsFailIff(FieldsOf(m));
    OneWriteError(FieldsOf(m));
    hide WriteFields, SizeAlong, Encode, IsOrder, HeaderBytes, HeaderOf, Length;
  }

  /** What the fields take up with their length bytes. */
  function Length(fields: seq<bytes>): nat {
    if fields == [] then 0 else 1 + |fields[0]| + Length(fields[1..])
  }

  lemma {:induction false} OneWriteError(fields: seq<bytes>)
    ensures var r := WriteFields(fields); if r.Ok? then |r.value| == Length(fields) else r.error == MaxBytesSize
  {
    if fields != [] { OneWriteError(fields[1..]); }
  }

  // ----- what is read

  /** What a header says, of any bytes. */
  lemma HeaderIsRead(cfg: Config, data: bytes)
    ensures |data| != 12 ==> ParsedHeader(cfg, data) == Err(WrongHeaderSize)
    ensures |data| == 12 && !(1 <= data[0] <= 5) ==> ParsedHeader(cfg, data) == Err(UnknownCommand)
    ensures |data| == 12 && 1 <= data[0] <= 5 ==>
      if Number(data[10..12]) > (cfg.payloadSize + 16 - cfg.payloadSize % 16) % 65536
      then ParsedHeader(cfg, data) == Err(WrongPayloadSize)
      else
        && ParsedHeader(cfg, data).Ok?
        && var m, flags := ParsedHeader(cfg, data).value, data[1] as int;
        && m.typ == data[0] && m.id == Number(data[2..6]) && m.sessionID == Number(data[6..10])
        && m.payloadLength == Number(data[10..12])
        && (m.isError <==> flags % 2 == 1) && (m.isRequest <==> flags / 2 % 2 == 1) && (m.isACK <==> flags / 4 % 2 == 1)
        && m.compressionType == (if flags / 8 % 2 == 1 then 1 else if flags / 16 % 2 == 1 then 2
                                 else if flags / 32 % 2 == 1 then 3 else 0)
        && m.error == 0 && m.compressionLevel == 0 && m.payload.NoPayload?
  {
    if |data| == 12 {
      NumberOfFour(data[2..6]);
      NumberOfFour(data[6..10]);
      NumberOfTwo(data[10..12]);
    }
    hide FromBe32, FromBe16, Number;
  }

  /** What becomes of an authentication or a handshake, of any bytes: as many fields as
      there should be, with anything behind them, or one of three errors. */
  lemma HandshakesAreRead(cmp: Compressor, m: Message, raw: bytes, fields: seq<bytes>, rest: bytes)
    requires m.payloadLength > 0 && !m.isError && (m.typ == 1 || m.typ == 2)
    requires var n := if m.typ == 2 then 1 else if m.isRequest then 5 else 2;
      if n != 2 then SplitsUpTo(raw, n, fields, rest) else |raw| >= 14 ==> SplitsUpTo(raw[4..], n, fields, rest)
    ensures var r, n := ParsedPayload(cmp, m, raw), if m.typ == 2 then 1 else if m.isRequest then 5 else 2;
      if n == 2 && |raw| < 14 then r == Err(WrongPayload)
      else if |fields| < n then r == Err(if rest == [] then WrongPayload else WrongBytesSize)
      else if n == 1 then r == Ok(m.(payload := Handshake(fields[0])))
      else if n == 2 then
        && r.Ok? && r.value.payload.AuthResponse? && r.value.payload.session == Number(raw[..4])
        && r == Ok(m.(payload := AuthResponse(r.value.payload.session, fields[0], fields[1])))
      else if fields[3] == [] || fields[4] == [] then r == Err(IndexPanic)
      else r == Ok(m.(payload := AuthRequest(fields[0], fields[1], fields[2], fields[3][0], fields[4][0])))
  {
    var n := if m.typ == 2 then 1 else if m.isRequest then 5 else 2;
    if n != 2 {
      ReadIsExact(raw, n, fields, rest);
    } else if |raw| >= 14 {
      NumberOfFour(raw[..4]);
      ReadIsExact(raw[4..], n, fields, rest);
    }
    hide ReadFields, Splits, FromBe32, Number;
  }

  /** What becomes of any other payload, of any bytes. */
  lemma DataIsRead(cmp: Compressor, m: Message, raw: bytes)
    requires m.payloadLength == 0 || m.isError || !(m.typ == 1 || m.typ == 2)
    ensures var r := ParsedPayload(cmp, m, raw);
      if m.payloadLength > 0 && m.isError then
        r == if raw == [] then Err(WrongPayload) else Ok(m.(error := raw[0], payload := Raw(raw)))
      else if m.payloadLength == 0 || m.typ != 3 then r == Ok(m.(payload := Raw(raw)))
      else if m.isACK then
        && (r.Err? ==> r.error == WrongAcknowledgement)
        && (r.Ok? <==> exists entries :: entries != [] && Consists(raw, entries) && Proper(entries))
        && forall entries :: entries != [] && Consists(raw, entries) && Proper(entries) ==>
             r == Ok(m.(payload := Acks(ListsOf(entries, map[]), 0)))
      else if !(1 <= m.compressionType <= 3) then r == Ok(m.(payload := Raw(raw)))
      else
        var plain := cmp.decompress(m.compressionType, raw);
        r == if plain.Some? then Ok(m.(payload := Raw(plain.value))) else Err(DecompressFailed)
  {
    DecodeIsExact(raw);
    hide Decode, Consists, Proper, ListsOf;
  }
}
