/**
 One message in one datagram: marshalled, padded, encrypted and concatenated by the
 sender; split, checked, decrypted and parsed by the receiver.
 */
module Datagram {
  import opened Bytes
  import opened Encryptor
  import opened Acknowledgements
  import opened AckCodec
  import opened Codec

  datatype Keys = Keys(primary: Cipher, user: Cipher)

  ghost predicate Good(keys: Keys) {
    Inverse(keys.primary) && Inverse(keys.user)
  }

  function KeyFor(keys: Keys, m: Message): Cipher {
    if m.IsUserData() then keys.user else keys.primary
  }

  datatype DatagramError = CodecFailed(codec: CodecError) | CryptFailed(crypt: CryptError) | TooShort | WrongLength

  /** The encrypted header: the twelve bytes padded to one block. */
  const HEADER_LENGTH: nat := GetLength(HEADER_SIZE)

  /** What the receive buffer holds; a longer datagram is cut off. */
  function Capacity(cfg: Config): nat {
    GetLength(cfg.payloadSize) + HEADER_LENGTH
  }

  function Arriving(cfg: Config, datagram: bytes): bytes {
    if |datagram| > Capacity(cfg) then datagram[..Capacity(cfg)] else datagram
  }

  function Sealed(keys: Keys, m: Message, header: bytes, payload: bytes): bytes
    requires |header| == HEADER_SIZE
  {
    Encrypted(keys.primary, header).value
    + (if payload == [] then [] else Encrypted(KeyFor(keys, m), payload).value)
  }

  function Sent(s: Sender, keys: Keys, m: Message): Result<bytes, DatagramError>
    requires m.payload.Acks? ==> IsOrder(s.order, m.payload.acks)
  {
    var marshalled := Marshalled(s, m);
    if marshalled.Err? then Err(CodecFailed(marshalled.error))
    else Ok(Sealed(keys, m, marshalled.value.0, marshalled.value.1))
  }

  /** What the receiver makes of the `n` bytes it has read. */
  function TakenApart(cfg: Config, cmp: Compressor, keys: Keys, data: bytes): Result<Message, DatagramError> {
    if |data| < HEADER_LENGTH then Err(TooShort)
    else
      var header := Decrypted(keys.primary, Some(data[..HEADER_LENGTH]));
      if header.Err? then Err(CryptFailed(header.error))
      else
        var m := ParsedHeader(cfg, header.value);
        if m.Err? then Err(CodecFailed(m.error))
        else if m.value.payloadLength + HEADER_LENGTH != |data| then Err(WrongLength)
        else TakenPayload(cmp, keys, m.value, data[HEADER_LENGTH..])
  }

  function TakenPayload(cmp: Compressor, keys: Keys, m: Message, rest: bytes): Result<Message, DatagramError> {
    if !m.IsPayload() then Ok(if rest == [] then m else m.(payload := Raw(rest)))
    else
      var plain := Decrypted(KeyFor(keys, m), if rest == [] then None else Some(rest));
      if plain.Err? then Err(CryptFailed(plain.error))
      else
        var parsed := ParsedPayload(cmp, m, plain.value);
        if parsed.Err? then Err(CodecFailed(parsed.error)) else Ok(parsed.value)
  }

  // ----- the code

  /** What sending does before the bytes go out, over either transport. */
  method SealMessage(s: Sender, keys: Keys, m: Message) returns (r: Result<bytes, DatagramError>)
    requires m.payload.Acks? ==> IsOrder(s.order, m.payload.acks)
    ensures r == Sent(s, keys, m)
  {
    var marshalled := Marshal(s, m);
    if marshalled.Err? {
      return Err(CodecFailed(marshalled.error));
    }
    var header, payload := marshalled.value.0, marshalled.value.1;
    assert |header| == HEADER_SIZE by { CompressionIsKnown(s, m); }
    hide Marshalled, Encrypted, IsOrder;
    var cypherPayload := [];
    if |payload| != 0 {
      var e := Encrypt(KeyFor(keys, m), payload);
      cypherPayload := e.value;
    }
    var cypherHeader := Encrypt(keys.primary, header);
    return Ok(cypherHeader.value + cypherPayload);
  }

  /** The body of the receive loop, up to the parsed message, on its reused buffer. */
  method ReceiveUDP(cfg: Config, cmp: Compressor, keys: Keys, buf: array<u8>, n: nat) returns (r: Result<Message, DatagramError>)
    requires n <= buf.Length
    ensures r == TakenApart(cfg, cmp, keys, buf[..n])
  {
    if n < HEADER_LENGTH {
      return Err(TooShort);
    }
    assert buf[..n][..HEADER_LENGTH] == buf[..HEADER_LENGTH];
    var decryptedHeader := Decrypt(keys.primary, Some(buf[..HEADER_LENGTH]));
    if decryptedHeader.Err? {
      return Err(CryptFailed(decryptedHeader.error));
    }
    var header := UnmarshalHeader(cfg, decryptedHeader.value);
    if header.Err? {
      return Err(CodecFailed(header.error));
    }
    var msg := header.value;
    hide Decrypted, ParsedHeader, ParsedPayload;
    if msg.payloadLength + HEADER_LENGTH != n {
      return Err(WrongLength);
    }
    var payload := None;
    assert buf[..n][HEADER_LENGTH..] == buf[HEADER_LENGTH..n];
    if msg.payloadLength > 0 {
      payload := Some(buf[HEADER_LENGTH..HEADER_LENGTH + msg.payloadLength]);
    }
    if msg.IsPayload() {
      var plain := Decrypt(KeyFor(keys, msg), payload);
      if plain.Err? {
        return Err(CryptFailed(plain.error));
      }
      var parsed := UnmarshalPayload(cmp, msg, plain.value);
      if parsed.Err? {
        return Err(CodecFailed(parsed.error));
      }
      return Ok(parsed.value);
    }
    return Ok(if payload.None? then msg else msg.(payload := Raw(payload.value)));
  }

  // ----- which key is used for what

  /** The header goes under the shared key. User data goes under the key of the session,
      and under it alone; every other payload goes under the shared key. */
  lemma KeysAreSeparate(keys: Keys, m: Message, header: bytes, payload: bytes)
    requires |header| == HEADER_SIZE
    ensures Sealed(keys, m, header, payload)
         == Encrypted(keys.primary, header).value
            + if payload == [] then []
              else if m.typ == DATA && !m.isACK then Encrypted(keys.user, payload).value
              else Encrypted(keys.primary, payload).value
  {
  }

  /** What user data is taken for depends on the key of the session alone; what anything
      else is taken for depends on the shared key alone. */
  lemma OneKeyReads(cmp: Compressor, keys: Keys, other: Keys, m: Message, rest: bytes)
    requires if m.typ == DATA && !m.isACK then keys.user == other.user else keys.primary == other.primary
    ensures TakenPayload(cmp, keys, m, rest) == TakenPayload(cmp, other, m, rest)
  {
  }

  /** User data is decrypted with the key of the session. */
  lemma UserDataIsDecrypted(cmp: Compressor, keys: Keys, m: Message, rest: bytes)
    requires m.typ == DATA && !m.isACK && rest != []
    ensures TakenPayload(cmp, keys, m, rest) ==
      match Decrypted(keys.user, Some(rest))
      case Err(e) => Err(CryptFailed(e))
      case Ok(plain) => (match ParsedPayload(cmp, m, plain) case Err(e) => Err(CodecFailed(e)) case Ok(r) => Ok(r))
  {
  }

  /** What is taken in had a header that decrypts under the shared key, whatever the key of
      the session, and exactly the length that this header announces. */
  lemma TakenIsWhole(cfg: Config, cmp: Compressor, keys: Keys, data: bytes)
    requires TakenApart(cfg, cmp, keys, data).Ok?
    ensures |data| >= 16 && Decrypted(keys.primary, Some(data[..16])).Ok?
    ensures var header := Decrypted(keys.primary, Some(data[..16])).value;
      && |header| == 12 && 1 <= header[0] <= 5
      && var high: int, low: int := header[10], header[11];
      |data| == 16 + 256 * high + low && 256 * high + low <= GetLength(cfg.payloadSize) % 65536
  {
    hide Decrypted, TakenPayload;
  }

  // ----- round trip

  /** Settings with which the 16-bit length field cannot overflow. */
  predicate Representable(cfg: Config, payload: bytes) {
    GetLength(cfg.payloadSize) < 0x1_0000 && GetLength(|payload|) < 0x1_0000
  }

  /** Whether a message of a type with payload reaches the other side: something a
      sender can see from the payload it has just marshalled. */
  predicate Carried(cfg: Config, m: Message, payload: bytes) {
    Readable(m, payload) && GetLength(|payload|) <= GetLength(cfg.payloadSize)
  }

  lemma SealedHeader(s: Sender, keys: Keys, m: Message, e: Encoded)
    requires Good(keys) && e.compression <= ZSTD
    ensures var data := Sealed(keys, m, HeaderBytes(HeaderOf(m, e)), e.payload);
      && |data| == HEADER_LENGTH + (if e.payload == [] then 0 else GetLength(|e.payload|))
      && Decrypted(keys.primary, Some(data[..HEADER_LENGTH])) == Ok(HeaderBytes(HeaderOf(m, e)))
      && data[HEADER_LENGTH..] == (if e.payload == [] then [] else Encrypted(KeyFor(keys, m), e.payload).value)
  {
    var header := HeaderBytes(HeaderOf(m, e));
    DecryptAfterEncrypt(keys.primary, header);
    if e.payload != [] { DecryptAfterEncrypt(KeyFor(keys, m), e.payload); }
    var data := Sealed(keys, m, header, e.payload);
    assert data[..HEADER_LENGTH] == Encrypted(keys.primary, header).value;
  }

  lemma ArrivesWhole(cfg: Config, keys: Keys, m: Message, header: bytes, payload: bytes)
    requires |header| == HEADER_SIZE && GetLength(|payload|) <= GetLength(cfg.payloadSize)
    ensures Arriving(cfg, Sealed(keys, m, header, payload)) == Sealed(keys, m, header, payload)
  {
    PadLength(header);
    PadLength(payload);
  }

  /** The header decides alone: an unknown type, or else an announced length above the
      limit, is refused, whatever else the datagram holds. */
  lemma HeaderIsChecked(s: Sender, keys: Keys, m: Message, e: Encoded)
    requires Good(keys) && e.compression <= ZSTD && Representable(s.cfg, e.payload)
    requires !KnownType(m.typ) || AnnouncedLength(m, e.payload) > MaxEncrypted(s.cfg)
    ensures TakenApart(s.cfg, s.cmp, keys, Arriving(s.cfg, Sealed(keys, m, HeaderBytes(HeaderOf(m, e)), e.payload)))
         == Err(CodecFailed(if KnownType(m.typ) then WrongPayloadSize else UnknownCommand))
  {
    SealedHeader(s, keys, m, e);
    var data := Sealed(keys, m, HeaderBytes(HeaderOf(m, e)), e.payload);
    var arriving := Arriving(s.cfg, data);
    assert arriving[..HEADER_LENGTH] == data[..HEADER_LENGTH];
    HeaderRoundTrip(s.cfg, HeaderOf(m, e), m.error > 0, m.isACK, e.isRequest, e.compression);
  }

  lemma AnnouncedIsWithin(cfg: Config, m: Message, payload: bytes)
    requires Representable(cfg, payload) && GetLength(|payload|) <= GetLength(cfg.payloadSize)
    ensures AnnouncedLength(m, payload) <= MaxEncrypted(cfg)
  {
    hide GetLength;
  }

  lemma HeaderIsRead(cfg: Config, m: Message, e: Encoded)
    requires e.compression <= ZSTD && KnownType(m.typ) && AnnouncedLength(m, e.payload) <= MaxEncrypted(cfg)
    ensures ParsedHeader(cfg, HeaderBytes(HeaderOf(m, e))) == Ok(HeaderRead(m, e))
    ensures HeaderRead(m, e).payloadLength == AnnouncedLength(m, e.payload)
  {
    HeaderRoundTrip(cfg, HeaderOf(m, e), m.error > 0, m.isACK, e.isRequest, e.compression);
    hide ParsedHeader, HeaderBytes, Flags, MaxEncrypted, AnnouncedLength;
  }

  /** A well-formed datagram passes the length check, and what is left is its payload. */
  lemma SplitSucceeds(s: Sender, keys: Keys, m: Message, e: Encoded)
    requires Good(keys) && e.compression <= ZSTD && Representable(s.cfg, e.payload)
    requires KnownType(m.typ) && GetLength(|e.payload|) <= GetLength(s.cfg.payloadSize)
    ensures var data := Sealed(keys, m, HeaderBytes(HeaderOf(m, e)), e.payload);
      var rest := if e.payload == [] then [] else Encrypted(KeyFor(keys, m), e.payload).value;
      TakenApart(s.cfg, s.cmp, keys, Arriving(s.cfg, data))
      == if AnnouncedLength(m, e.payload) == |rest| then TakenPayload(s.cmp, keys, HeaderRead(m, e), rest) else Err(WrongLength)
  {
    SealedHeader(s, keys, m, e);
    ArrivesWhole(s.cfg, keys, m, HeaderBytes(HeaderOf(m, e)), e.payload);
    AnnouncedIsWithin(s.cfg, m, e.payload);
    HeaderIsRead(s.cfg, m, e);
    hide GetLength, Sealed, Arriving, Decrypted, ParsedHeader, HeaderOf, HeaderRead, HeaderBytes, Encrypted, TakenPayload;
  }

  lemma PayloadIsTaken(s: Sender, keys: Keys, m: Message, e: Encoded)
    requires Good(keys) && Sound(s.cmp) && Sendable(s, m) && EncodedPayload(s, m) == Ok(e)
    requires m.typ == AUTHENTICATION || m.typ == HANDSHAKE || m.typ == DATA
    requires Representable(s.cfg, e.payload) && e.payload != []
    ensures var sealed := Encrypted(KeyFor(keys, m), e.payload);
      && sealed.Ok? && |sealed.value| == GetLength(|e.payload|)
      && TakenPayload(s.cmp, keys, HeaderRead(m, e), sealed.value)
         == (if Readable(m, e.payload) then Ok(Recovered(m, e)) else Err(CodecFailed(WrongPayload)))
  {
    DecryptAfterEncrypt(KeyFor(keys, m), e.payload);
    PadLength(e.payload);
    PayloadRoundTrip(s, m);
    hide EncodedPayload, Encrypted, Decrypted, ParsedPayload, GetLength;
    assert KeyFor(keys, HeaderRead(m, e)) == KeyFor(keys, m);
  }

  /** What the receiver makes of the datagram that carries `m`. */
  function Delivered(s: Sender, keys: Keys, m: Message): Result<Message, DatagramError>
    requires m.payload.Acks? ==> IsOrder(s.order, m.payload.acks)
  {
    var sent := Sent(s, keys, m);
    if sent.Err? then Err(sent.error) else TakenApart(s.cfg, s.cmp, keys, Arriving(s.cfg, sent.value))
  }

  lemma DeliveredIsSealed(s: Sender, keys: Keys, m: Message, e: Encoded)
    requires m.payload.Acks? ==> IsOrder(s.order, m.payload.acks)
    requires EncodedPayload(s, m) == Ok(e)
    ensures e.compression <= ZSTD
    ensures Delivered(s, keys, m)
         == TakenApart(s.cfg, s.cmp, keys, Arriving(s.cfg, Sealed(keys, m, HeaderBytes(HeaderOf(m, e)), e.payload)))
  {
    CompressionIsKnown(s, m);
  }

  lemma TooLongIsRejected(s: Sender, keys: Keys, m: Message, e: Encoded)
    requires Good(keys) && (m.payload.Acks? ==> IsOrder(s.order, m.payload.acks)) && EncodedPayload(s, m) == Ok(e)
    requires m.typ == AUTHENTICATION || m.typ == HANDSHAKE || m.typ == DATA
    requires Representable(s.cfg, e.payload) && GetLength(|e.payload|) > GetLength(s.cfg.payloadSize)
    ensures Delivered(s, keys, m) == Err(CodecFailed(WrongPayloadSize))
  {
    DeliveredIsSealed(s, keys, m, e);
    hide Good, IsOrder, EncodedPayload, Sealed, TakenApart, Delivered, Arriving, HeaderOf, HeaderBytes;
    HeaderIsChecked(s, keys, m, e);
  }

  lemma EmptyIsRejected(s: Sender, keys: Keys, m: Message, e: Encoded)
    requires Good(keys) && (m.payload.Acks? ==> IsOrder(s.order, m.payload.acks)) && EncodedPayload(s, m) == Ok(e)
    requires m.typ == AUTHENTICATION || m.typ == HANDSHAKE || m.typ == DATA
    requires Representable(s.cfg, e.payload) && e.payload == []
    requires GetLength(|e.payload|) <= GetLength(s.cfg.payloadSize)
    ensures Delivered(s, keys, m) == Err(WrongLength)
  {
    DeliveredIsSealed(s, keys, m, e);
    PadLength(e.payload);
    SplitSucceeds(s, keys, m, e);
  }

  lemma NonemptyIsSplit(s: Sender, keys: Keys, m: Message, e: Encoded, sealed: bytes)
    requires Good(keys) && e.compression <= ZSTD && Representable(s.cfg, e.payload)
    requires m.typ == AUTHENTICATION || m.typ == HANDSHAKE || m.typ == DATA
    requires e.payload != [] && GetLength(|e.payload|) <= GetLength(s.cfg.payloadSize)
    requires Encrypted(KeyFor(keys, m), e.payload) == Ok(sealed) && |sealed| == GetLength(|e.payload|)
    ensures TakenApart(s.cfg, s.cmp, keys, Arriving(s.cfg, Sealed(keys, m, HeaderBytes(HeaderOf(m, e)), e.payload)))
         == TakenPayload(s.cmp, keys, HeaderRead(m, e), sealed)
  {
    SplitSucceeds(s, keys, m, e);
    hide Good, Sealed, TakenApart, TakenPayload, Arriving, Encrypted, HeaderOf, HeaderBytes, HeaderRead;
  }

  lemma FittingIsTaken(s: Sender, keys: Keys, m: Message, e: Encoded)
    requires Good(keys) && Sound(s.cmp) && Sendable(s, m) && EncodedPayload(s, m) == Ok(e)
    requires m.typ == AUTHENTICATION || m.typ == HANDSHAKE || m.typ == DATA
    requires Representable(s.cfg, e.payload) && e.payload != []
    requires GetLength(|e.payload|) <= GetLength(s.cfg.payloadSize)
    ensures Delivered(s, keys, m) == (if Readable(m, e.payload) then Ok(Recovered(m, e)) else Err(CodecFailed(WrongPayload)))
  {
    DeliveredIsSealed(s, keys, m, e);
    PayloadIsTaken(s, keys, m, e);
    hide *;
    NonemptyIsSplit(s, keys, m, e, Encrypted(KeyFor(keys, m), e.payload).value);
  }

  /** Why the receiver rejects a message with payload that is not carried. */
  function Rejection(cfg: Config, payload: bytes): DatagramError {
    if GetLength(|payload|) > GetLength(cfg.payloadSize) then CodecFailed(WrongPayloadSize)
    else if payload == [] then WrongLength
    else CodecFailed(WrongPayload)
  }

  /** A message with payload arrives as it was sent exactly when it is carried;
      otherwise the receiver rejects the datagram, for one of three reasons. */
  lemma DatagramRoundTrip(s: Sender, keys: Keys, m: Message, e: Encoded)
    requires Good(keys) && Sound(s.cmp) && Sendable(s, m) && EncodedPayload(s, m) == Ok(e)
    requires m.typ == AUTHENTICATION || m.typ == HANDSHAKE || m.typ == DATA
    requires Representable(s.cfg, e.payload)
    ensures Delivered(s, keys, m)
         == if Carried(s.cfg, m, e.payload) then Ok(Recovered(m, e)) else Err(Rejection(s.cfg, e.payload))
  {
    if GetLength(|e.payload|) > GetLength(s.cfg.payloadSize) {
      TooLongIsRejected(s, keys, m, e);
    } else if e.payload == [] {
      EmptyIsRejected(s, keys, m, e);
    } else {
      FittingIsTaken(s, keys, m, e);
    }
  }

  /** What a keepalive or reset message is encoded to, and how long that is. */
  lemma ControlIsEncoded(s: Sender, m: Message)
    requires m.typ == KEEPALIVE || m.typ == RESET
    requires m.payload.Acks? ==> IsOrder(s.order, m.payload.acks)
    requires 0 < GetLength(s.cfg.payloadSize) < 0x1_0000
    ensures var payload := if m.error > 0 then [m.error] else [];
      && EncodedPayload(s, m) == Ok(Encoded(payload, false, NONE))
      && AnnouncedLength(m, payload) == (if m.error > 0 then BLOCK else 0)
      && GetLength(|payload|) == BLOCK <= GetLength(s.cfg.payloadSize)
  {
    PadLength(seq(s.cfg.payloadSize, _ => 0));
  }

  /** Keepalive and reset messages carry their header only. An error code attached
      to one is announced by its flag but not recovered. */
  lemma ControlRoundTrip(s: Sender, keys: Keys, m: Message)
    requires Good(keys) && (m.typ == KEEPALIVE || m.typ == RESET)
    requires m.payload.Acks? ==> IsOrder(s.order, m.payload.acks)
    requires 0 < GetLength(s.cfg.payloadSize) < 0x1_0000
    ensures EncodedPayload(s, m).Ok?
    ensures var taken := Delivered(s, keys, m);
      && taken.Ok?
      && taken.value.(payload := NoPayload) == HeaderRead(m, EncodedPayload(s, m).value)
      && (taken.value.error == m.error <==> m.error == 0)
  {
    ControlIsEncoded(s, m);
    var e := EncodedPayload(s, m).value;
    if e.payload != [] { DecryptAfterEncrypt(KeyFor(keys, m), e.payload); }
    DeliveredIsSealed(s, keys, m, e);
    hide Good, Inverse, IsOrder, Sealed, TakenApart, Delivered, Encrypted, Decrypted, Arriving, EncodedPayload, AnnouncedLength, GetLength;
    SplitSucceeds(s, keys, m, e);
  }
}
