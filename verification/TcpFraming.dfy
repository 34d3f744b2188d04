/**
 Messages over a byte stream: the reassembly loop reads headers and payloads out of
 whatever chunks the connection returns.
 */
module TcpFraming {
  import opened Bytes
  import opened Encryptor
  import opened Acknowledgements
  import opened Codec
  import opened Datagram

  /** A header as parsed, with the payload still encrypted. */
  datatype Frame = Frame(header: Message, payload: bytes)

  function HeaderIn(cfg: Config, key: Cipher, raw: bytes): Option<Message> {
    var plain := Decrypted(key, Some(raw));
    if plain.Err? then None
    else
      var m := ParsedHeader(cfg, plain.value);
      if m.Err? then None else Some(m.value)
  }

  /** Every complete frame at the front of `stream`, up to the first bad header. */
  function Frames(cfg: Config, key: Cipher, stream: bytes): seq<Frame>
    decreases |stream|
  {
    if |stream| < HEADER_LENGTH then []
    else
      var m := HeaderIn(cfg, key, stream[..HEADER_LENGTH]);
      if m.None? || |stream| < HEADER_LENGTH + m.value.payloadLength then []
      else
        var end := HEADER_LENGTH + m.value.payloadLength;
        [Frame(m.value, stream[HEADER_LENGTH..end])] + Frames(cfg, key, stream[end..])
  }

  /** What is behind the last of these frames. */
  function Behind(cfg: Config, key: Cipher, stream: bytes): bytes
    decreases |stream|
  {
    if |stream| < HEADER_LENGTH then stream
    else
      var m := HeaderIn(cfg, key, stream[..HEADER_LENGTH]);
      if m.None? || |stream| < HEADER_LENGTH + m.value.payloadLength then stream
      else Behind(cfg, key, stream[HEADER_LENGTH + m.value.payloadLength..])
  }

  /** `raw` is exactly the bytes of `frame`. */
  ghost predicate IsFrame(cfg: Config, key: Cipher, raw: bytes, frame: Frame) {
    && |raw| >= HEADER_LENGTH
    && HeaderIn(cfg, key, raw[..HEADER_LENGTH]) == Some(frame.header)
    && |raw| == HEADER_LENGTH + frame.header.payloadLength
    && frame.payload == raw[HEADER_LENGTH..]
  }

  ghost predicate AreFrames(cfg: Config, key: Cipher, parts: seq<bytes>, frames: seq<Frame>) {
    |parts| == |frames| && forall i :: 0 <= i < |parts| ==> IsFrame(cfg, key, parts[i], frames[i])
  }

  function Flatten(parts: seq<bytes>): bytes {
    if parts == [] then [] else parts[0] + Flatten(parts[1..])
  }

  lemma FrontFrame(cfg: Config, key: Cipher, raw: bytes, frame: Frame, rest: bytes)
    requires IsFrame(cfg, key, raw, frame)
    ensures Frames(cfg, key, raw + rest) == [frame] + Frames(cfg, key, rest)
  {
    var stream := raw + rest;
    assert stream[..HEADER_LENGTH] == raw[..HEADER_LENGTH];
    assert stream[HEADER_LENGTH..|raw|] == raw[HEADER_LENGTH..];
    assert stream[|raw|..] == rest;
  }

  /** Frames sent one after the other are found one after the other. */
  lemma {:induction false} FramesInFront(cfg: Config, key: Cipher, parts: seq<bytes>, frames: seq<Frame>, rest: bytes)
    requires AreFrames(cfg, key, parts, frames)
    ensures Frames(cfg, key, Flatten(parts) + rest) == frames + Frames(cfg, key, rest)
  {
    hide Frames, IsFrame;
    if parts == [] {
      assert Flatten(parts) + rest == rest;
      assert frames == [] && frames + Frames(cfg, key, rest) == Frames(cfg, key, rest);
    } else {
      var more := Flatten(parts[1..]);
      FramesInFront(cfg, key, parts[1..], frames[1..], rest);
      FrontFrame(cfg, key, parts[0], frames[0], more + rest);
      ConcatIsAssociative(parts[0], more, rest);
      assert frames == [frames[0]] + frames[1..];
      ConcatIsAssociative([frames[0]], frames[1..], Frames(cfg, key, rest));
    }
  }

  /** And what is behind them is what is behind the frames of the rest. */
  lemma {:induction false} BehindParts(cfg: Config, key: Cipher, parts: seq<bytes>, frames: seq<Frame>, rest: bytes)
    requires AreFrames(cfg, key, parts, frames)
    ensures Behind(cfg, key, Flatten(parts) + rest) == Behind(cfg, key, rest)
  {
    hide IsFrame;
    if parts == [] {
      assert Flatten(parts) + rest == rest;
    } else {
      var more := Flatten(parts[1..]) + rest;
      BehindParts(cfg, key, parts[1..], frames[1..], rest);
      BehindOne(cfg, key, parts[0], frames[0], more);
      hide Behind;
      ConcatIsAssociative(parts[0], Flatten(parts[1..]), rest);
    }
  }

  lemma BehindOne(cfg: Config, key: Cipher, raw: bytes, frame: Frame, rest: bytes)
    requires IsFrame(cfg, key, raw, frame)
    ensures Behind(cfg, key, raw + rest) == Behind(cfg, key, rest)
  {
    var stream := raw + rest;
    assert stream[..HEADER_LENGTH] == raw[..HEADER_LENGTH] && stream[|raw|..] == rest;
  }

  lemma {:induction false} FlattenAppend(parts: seq<bytes>, raw: bytes)
    ensures Flatten(parts + [raw]) == Flatten(parts) + raw
  {
    if parts == [] {
      assert [raw][1..] == [];
      assert raw + [] == raw && [] + raw == raw && [] + [raw] == [raw];
    } else {
      assert (parts + [raw])[0] == parts[0] && (parts + [raw])[1..] == parts[1..] + [raw];
      FlattenAppend(parts[1..], raw);
      assert parts[0] + (Flatten(parts[1..]) + raw) == (parts[0] + Flatten(parts[1..])) + raw;
    }
  }

  /** The first frame of a stream that has one, and what follows it. */
  lemma FirstFrame(cfg: Config, key: Cipher, stream: bytes) returns (raw: bytes, frame: Frame, rest: bytes)
    requires Frames(cfg, key, stream) != []
    ensures stream == raw + rest && IsFrame(cfg, key, raw, frame)
    ensures Frames(cfg, key, stream) == [frame] + Frames(cfg, key, rest)
  {
    frame := Frames(cfg, key, stream)[0];
    var end := HEADER_LENGTH + frame.header.payloadLength;
    raw, rest := stream[..end], stream[end..];
    assert raw[..HEADER_LENGTH] == stream[..HEADER_LENGTH] && raw[HEADER_LENGTH..] == stream[HEADER_LENGTH..end];
  }

  /** What has been delivered at any moment is a prefix of what the whole stream holds. */
  lemma {:induction false} FramesGrow(cfg: Config, key: Cipher, stream: bytes, more: bytes)
    ensures Frames(cfg, key, stream) <= Frames(cfg, key, stream + more)
    decreases |stream|
  {
    if Frames(cfg, key, stream) != [] {
      var raw, frame, rest := FirstFrame(cfg, key, stream);
      assert |rest| < |stream|;
      FramesGrow(cfg, key, rest, more);
      FrontFrame(cfg, key, raw, frame, rest + more);
      ConcatIsAssociative(raw, rest, more);
    }
  }

  // ----- the connection and the loop

  /** What a read gives: some bytes, the end of the stream, another error by which the
      connection is known to be gone, or any other error. */
  datatype Outcome = Chunk(size: nat) | EndOfStream | Interruption | Failure

  lemma TakeAndDrop<T>(s: seq<T>, n: nat)
    requires n <= |s|
    ensures s == s[..n] + s[n..]
  {
  }

  /** A connection that hands out its bytes in chunks of the planned sizes, as far as
      they and the caller's buffer allow, among the planned errors. Nothing is known of
      it beyond the plan. */
  class Connection {
    var pending: bytes
    var plan: seq<Outcome>
    ghost var consumed: bytes
    ghost var past: seq<Outcome>
    ghost var at: seq<nat>  // how much had been consumed at each of them

    constructor (stream: bytes, plan: seq<Outcome>)
      ensures pending == stream && this.plan == plan && consumed == [] && past == [] && at == []
    {
      pending, this.plan, consumed, past, at := stream, plan, [], [], [];
    }

    method Read(buf: array<u8>, start: nat) returns (n: nat, outcome: Option<Outcome>)
      requires start <= buf.Length
      modifies this, buf
      ensures start + n <= buf.Length
      ensures consumed + pending == old(consumed + pending)
      ensures consumed == old(consumed) + buf[start..start + n]
      ensures buf[..start] == old(buf[..start])
      ensures outcome.None? <==> old(plan) == []
      ensures outcome.None? ==> plan == [] && past == old(past) && at == old(at)
      ensures outcome.Some? ==> outcome.value == old(plan)[0] && plan == old(plan)[1..] && past == old(past) + [outcome.value]
      ensures outcome.Some? ==> at == old(at) + [|consumed|]
      ensures !(outcome.Some? && outcome.value.Chunk?) ==> n == 0
    {
      n := 0;
      outcome := None;
      if plan != [] {
        outcome := Some(plan[0]);
        plan, past := plan[1..], past + [plan[0]];
        if outcome.value.Chunk? {
          n := outcome.value.size;
          if n > buf.Length - start {
            n := buf.Length - start;
          }
          if n > |pending| {
            n := |pending|;
          }
        }
      }
      forall k | 0 <= k < n {
        buf[start + k] := pending[k];
      }
      ghost var chunk := pending[..n];
      assert buf[start..start + n] == chunk;
      TakeAndDrop(pending, n);
      ConcatIsAssociative(consumed, chunk, pending[n..]);
      consumed := consumed + chunk;
      pending := pending[n..];
      if outcome.Some? {
        at := at + [|consumed|];
      }
    }
  }

  /** Whether a buffer was filled, the loop ended before that, or the plan did. */
  datatype Fill = Filled | Ended | Unfinished

  /** None of the outcomes of `fatal` has been seen since `before`, except that the latest
      is one of them if `ended`. */
  ghost predicate NoneSince(before: seq<Outcome>, past: seq<Outcome>, fatal: set<Outcome>, ended: bool) {
    && before <= past
    && (forall i :: |before| <= i < |past| && past[i] in fatal ==> ended && i == |past| - 1)
    && (ended ==> |before| < |past| && past[|past| - 1] in fatal)
  }

  /** At every error since `before` at least `low` bytes had been consumed, no more than
      `now`, and fewer than `size` past `low`. */
  ghost predicate AtErrors(before: seq<nat>, at: seq<nat>, past: seq<Outcome>, low: nat, size: nat, now: nat)
    requires |at| == |past|
  {
    forall i :: |before| <= i < |at| && !past[i].Chunk? ==> low <= at[i] <= now && at[i] < low + size
  }

  lemma OneMoreOutcome(before: seq<Outcome>, past: seq<Outcome>, fatal: set<Outcome>, outcome: Outcome)
    requires NoneSince(before, past, fatal, false)
    ensures NoneSince(before, past + [outcome], fatal, outcome in fatal)
  {
  }

  /** Fills the rest of a payload buffer. Only the end of the stream makes it give up;
      after any other error it reads again. */
  method ReadPayload(conn: Connection, payload: array<u8>) returns (received: nat, fill: Fill)
    requires |conn.at| == |conn.past|
    modifies conn, payload
    ensures received <= payload.Length && (fill.Filled? <==> received == payload.Length)
    ensures conn.consumed == old(conn.consumed) + payload[..received]
    ensures conn.consumed + conn.pending == old(conn.consumed + conn.pending)
    ensures fill.Unfinished? ==> conn.plan == []
    ensures |conn.plan| <= |old(conn.plan)|
    ensures conn.past + conn.plan == old(conn.past + conn.plan)
    ensures NoneSince(old(conn.past), conn.past, {EndOfStream}, fill.Ended?)
    ensures old(conn.at) <= conn.at && |conn.at| == |conn.past|
    ensures AtErrors(old(conn.at), conn.at, conn.past, |old(conn.consumed)|, payload.Length, |conn.consumed|)
  {
    received := 0;
    ghost var before, past, at := conn.consumed, conn.past, conn.at;
    assert before + payload[..0] == before;
    while received < payload.Length
      invariant received <= payload.Length
      invariant conn.consumed == before + payload[..received]
      invariant conn.consumed + conn.pending == old(conn.consumed + conn.pending)
      invariant |conn.plan| <= |old(conn.plan)|
      invariant conn.past + conn.plan == old(conn.past + conn.plan)
      invariant NoneSince(past, conn.past, {EndOfStream}, false)
      invariant at <= conn.at && |conn.at| == |conn.past|
      invariant AtErrors(at, conn.at, conn.past, |before|, payload.Length, |conn.consumed|)
      decreases |conn.plan|
    {
      ghost var head, seen, left := payload[..received], conn.past, conn.plan;
      var n, outcome := conn.Read(payload, received);
      assert payload[..received + n] == head + payload[received..received + n];
      ConcatIsAssociative(before, head, payload[received..received + n]);
      received := received + n;
      if outcome.None? {
        return received, Unfinished;
      }
      OneMoreOutcome(past, seen, {EndOfStream}, outcome.value);
      hide NoneSince;
      assert left == [outcome.value] + conn.plan;
      ConcatIsAssociative(seen, [outcome.value], conn.plan);
      if outcome.value == EndOfStream {
        return received, Ended;
      }
    }
    return received, Filled;
  }

  /** Reads one header of exactly the expected length, in as many pieces as it takes. It
      gives up when the connection is gone; after any other error it reads again. */
  method ReadHeader(conn: Connection, header: array<u8>) returns (received: nat, fill: Fill)
    requires header.Length == HEADER_LENGTH && |conn.at| == |conn.past|
    modifies conn, header
    ensures received <= HEADER_LENGTH && (fill.Filled? <==> received == HEADER_LENGTH)
    ensures conn.consumed == old(conn.consumed) + header[..received]
    ensures conn.consumed + conn.pending == old(conn.consumed + conn.pending)
    ensures fill.Unfinished? ==> conn.plan == []
    ensures fill.Filled? ==> |conn.plan| < |old(conn.plan)|
    ensures conn.past + conn.plan == old(conn.past + conn.plan)
    ensures NoneSince(old(conn.past), conn.past, {EndOfStream, Interruption}, fill.Ended?)
    ensures old(conn.at) <= conn.at && |conn.at| == |conn.past|
    ensures AtErrors(old(conn.at), conn.at, conn.past, |old(conn.consumed)|, HEADER_LENGTH, |conn.consumed|)
    ensures fill.Ended? ==> conn.at[|conn.at| - 1] == |conn.consumed|
  {
    var receivedHeader: nat := 0;
    ghost var before, past, at := conn.consumed, conn.past, conn.at;
    ghost var fatal := {EndOfStream, Interruption};
    assert before + header[..0] == before;
    while true
      invariant receivedHeader < HEADER_LENGTH
      invariant conn.consumed == before + header[..receivedHeader]
      invariant conn.consumed + conn.pending == old(conn.consumed + conn.pending)
      invariant |conn.plan| <= |old(conn.plan)|
      invariant conn.past + conn.plan == old(conn.past + conn.plan)
      invariant NoneSince(past, conn.past, fatal, false)
      invariant at <= conn.at && |conn.at| == |conn.past|
      invariant AtErrors(at, conn.at, conn.past, |before|, HEADER_LENGTH, |conn.consumed|)
      decreases |conn.plan|
    {
      ghost var head, seen, left := header[..receivedHeader], conn.past, conn.plan;
      var n, outcome := conn.Read(header, receivedHeader);
      assert header[..receivedHeader + n] == head + header[receivedHeader..receivedHeader + n];
      ConcatIsAssociative(before, head, header[receivedHeader..receivedHeader + n]);
      receivedHeader := receivedHeader + n;
      if outcome.None? {
        return receivedHeader, Unfinished;
      }
      OneMoreOutcome(past, seen, fatal, outcome.value);
      hide NoneSince;
      assert left == [outcome.value] + conn.plan;
      ConcatIsAssociative(seen, [outcome.value], conn.plan);
      if outcome.value == EndOfStream || outcome.value == Interruption {
        return receivedHeader, Ended;
      }
      if receivedHeader == HEADER_LENGTH {
        return receivedHeader, Filled;
      }
    }
  }

  lemma OneMoreFrame(cfg: Config, key: Cipher, parts: seq<bytes>, frames: seq<Frame>, header: bytes, m: Message, payload: bytes)
    requires |header| == HEADER_LENGTH && HeaderIn(cfg, key, header) == Some(m) && |payload| == m.payloadLength
    requires AreFrames(cfg, key, parts, frames)
    ensures AreFrames(cfg, key, parts + [header + payload], frames + [Frame(m, payload)])
    ensures Flatten(parts + [header + payload]) == Flatten(parts) + header + payload
  {
    assert (header + payload)[..HEADER_LENGTH] == header && (header + payload)[HEADER_LENGTH..] == payload;
    FlattenAppend(parts, header + payload);
    ConcatIsAssociative(Flatten(parts), header, payload);
  }

  lemma NoWholeFrame(cfg: Config, key: Cipher, header: bytes, payload: bytes)
    requires |header| == HEADER_LENGTH
    requires HeaderIn(cfg, key, header).Some? ==> |payload| < HeaderIn(cfg, key, header).value.payloadLength
    ensures Frames(cfg, key, header + payload) == [] && Behind(cfg, key, header + payload) == header + payload
    ensures (header + payload)[..HEADER_LENGTH] == header
  {
    assert (header + payload)[..HEADER_LENGTH] == header;
  }

  /** How the loop stands when the plan is over: it has returned, because the stream ended
      or a header was bad, or it goes on reading. */
  datatype Standing = StreamEnded | BadHeader | Reading

  /** At the `i`-th outcome the loop returns: the stream ended, or the connection was gone
      while the loop was waiting for a header. */
  ghost predicate Ends(cfg: Config, key: Cipher, consumed: bytes, past: seq<Outcome>, at: seq<nat>, i: nat)
    requires i < |past| == |at| && at[i] <= |consumed|
  {
    past[i] == EndOfStream || (past[i] == Interruption && |Behind(cfg, key, consumed[..at[i]])| < HEADER_LENGTH)
  }

  /** That was so at the latest outcome if `ended`, and at no other. */
  ghost predicate EndsOnce(cfg: Config, key: Cipher, consumed: bytes, past: seq<Outcome>, at: seq<nat>, ended: bool) {
    && |at| == |past| && (forall i :: 0 <= i < |at| && !past[i].Chunk? ==> at[i] <= |consumed|)
    && (forall i: nat :: i < |past| && !past[i].Chunk? && Ends(cfg, key, consumed, past, at, i) ==> ended && i == |past| - 1)
    && (ended ==> past != [] && !past[|past| - 1].Chunk? && Ends(cfg, key, consumed, past, at, |past| - 1))
  }

  lemma EarlierStay(cfg: Config, key: Cipher, consumed: bytes, more: bytes, past: seq<Outcome>, at: seq<nat>,
                    later: seq<Outcome>, laterAt: seq<nat>, i: nat)
    requires EndsOnce(cfg, key, consumed, past, at, false)
    requires past <= later && at <= laterAt && |later| == |laterAt| && i < |past| && !past[i].Chunk?
    ensures laterAt[i] <= |consumed + more| && !Ends(cfg, key, consumed + more, later, laterAt, i)
  {
    assert (consumed + more)[..at[i]] == consumed[..at[i]];
    assert !Ends(cfg, key, consumed, past, at, i);
  }

  lemma BehindPartOfHeader(cfg: Config, key: Cipher, parts: seq<bytes>, frames: seq<Frame>, header: bytes)
    requires AreFrames(cfg, key, parts, frames)
    ensures |header| < HEADER_LENGTH ==> Behind(cfg, key, Flatten(parts) + header) == header
  {
    BehindParts(cfg, key, parts, frames, header);
  }

  lemma EndsAtLast(cfg: Config, key: Cipher, all: bytes, past: seq<Outcome>, later: seq<Outcome>, at: seq<nat>, ended: bool, i: nat)
    requires NoneSince(past, later, {EndOfStream, Interruption}, ended) && |past| <= i < |later| == |at| && at[i] <= |all|
    ensures Ends(cfg, key, all, later, at, i) ==> ended && i == |later| - 1
  {
  }

  lemma LastEnds(cfg: Config, key: Cipher, all: bytes, past: seq<Outcome>, later: seq<Outcome>, at: seq<nat>)
    requires NoneSince(past, later, {EndOfStream, Interruption}, true) && |later| == |at| && at[|at| - 1] == |all|
    requires |Behind(cfg, key, all)| < HEADER_LENGTH
    ensures later != [] && !later[|later| - 1].Chunk? && Ends(cfg, key, all, later, at, |later| - 1)
  {
    assert all[..|all|] == all;
  }

  /** Waiting for a header, the loop ends with the stream and with the connection. */
  lemma HeaderEndsOnce(cfg: Config, key: Cipher, parts: seq<bytes>, frames: seq<Frame>, header: bytes, past: seq<Outcome>,
                       at: seq<nat>, later: seq<Outcome>, laterAt: seq<nat>, ended: bool)
    requires AreFrames(cfg, key, parts, frames) && EndsOnce(cfg, key, Flatten(parts), past, at, false)
    requires at <= laterAt && |later| == |laterAt| && NoneSince(past, later, {EndOfStream, Interruption}, ended)
    requires AtErrors(at, laterAt, later, |Flatten(parts)|, HEADER_LENGTH, |Flatten(parts) + header|)
    requires ended ==> |header| < HEADER_LENGTH && laterAt[|laterAt| - 1] == |Flatten(parts) + header|
    ensures EndsOnce(cfg, key, Flatten(parts) + header, later, laterAt, ended)
  {
    var all := Flatten(parts) + header;
    forall i: nat | i < |later| && !later[i].Chunk?
      ensures laterAt[i] <= |all| && (Ends(cfg, key, all, later, laterAt, i) ==> ended && i == |later| - 1)
    {
      if i < |past| {
        EarlierStay(cfg, key, Flatten(parts), header, past, at, later, laterAt, i);
      } else {
        EndsAtLast(cfg, key, all, past, later, laterAt, ended, i);
      }
    }
    BehindPartOfHeader(cfg, key, parts, frames, header);
    hide AreFrames, Flatten, HeaderIn, Behind, NoneSince, AtErrors, Ends;
    if ended { LastEnds(cfg, key, all, past, later, laterAt); }
  }

  lemma BehindPartOfPayload(cfg: Config, key: Cipher, parts: seq<bytes>, frames: seq<Frame>, raw: bytes, payload: bytes, n: nat)
    requires AreFrames(cfg, key, parts, frames) && |raw| == HEADER_LENGTH && HeaderIn(cfg, key, raw).Some?
    requires |Flatten(parts) + raw| <= n <= |Flatten(parts) + raw + payload|
    requires n < |Flatten(parts) + raw| + HeaderIn(cfg, key, raw).value.payloadLength
    ensures |Behind(cfg, key, (Flatten(parts) + raw + payload)[..n])| >= HEADER_LENGTH
  {
    var part := payload[..n - |Flatten(parts) + raw|];
    assert (Flatten(parts) + raw + payload)[..n] == Flatten(parts) + (raw + part);
    BehindParts(cfg, key, parts, frames, raw + part);
    assert (raw + part)[..HEADER_LENGTH] == raw;
  }

  /** Waiting for a payload, it ends only with the stream. */
  lemma PayloadEndsOnce(cfg: Config, key: Cipher, parts: seq<bytes>, frames: seq<Frame>, raw: bytes, payload: bytes,
                        past: seq<Outcome>, at: seq<nat>, later: seq<Outcome>, laterAt: seq<nat>, ended: bool)
    requires AreFrames(cfg, key, parts, frames) && |raw| == HEADER_LENGTH && HeaderIn(cfg, key, raw).Some?
    requires EndsOnce(cfg, key, Flatten(parts) + raw, past, at, false)
    requires at <= laterAt && |later| == |laterAt| && NoneSince(past, later, {EndOfStream}, ended)
    requires AtErrors(at, laterAt, later, |Flatten(parts) + raw|, HeaderIn(cfg, key, raw).value.payloadLength,
                      |Flatten(parts) + raw + payload|)
    ensures EndsOnce(cfg, key, Flatten(parts) + raw + payload, later, laterAt, ended)
  {
    var all := Flatten(parts) + raw + payload;
    forall i: nat | i < |later| && !later[i].Chunk?
      ensures laterAt[i] <= |all| && (Ends(cfg, key, all, later, laterAt, i) ==> ended && i == |later| - 1)
    {
      if i < |past| {
        EarlierStay(cfg, key, Flatten(parts) + raw, payload, past, at, later, laterAt, i);
      } else {
        BehindPartOfPayload(cfg, key, parts, frames, raw, payload, laterAt[i]);
      }
    }
    hide AreFrames, Flatten, HeaderIn, Behind, AtErrors;
  }

  /** What is behind the frames begins with a header that cannot be read. */
  predicate Spoilt(cfg: Config, key: Cipher, stream: bytes) {
    var rest := Behind(cfg, key, stream);
    |rest| >= HEADER_LENGTH && HeaderIn(cfg, key, rest[..HEADER_LENGTH]).None?
  }

  /** The loop's contract decides when it returns: the end of the stream makes it, unless
      a bad header did before, and errors that are neither the end nor the loss of the
      connection never do, however many there are. */
  lemma ErrorsNeverEnd(cfg: Config, key: Cipher, consumed: bytes, plan: seq<Outcome>, past: seq<Outcome>, at: seq<nat>,
                       rest: seq<Outcome>, standing: Standing)
    requires past + rest == plan && EndsOnce(cfg, key, consumed, past, at, standing.StreamEnded?)
    requires standing.Reading? ==> rest == []
    ensures EndOfStream in plan ==> !standing.Reading?
    ensures (forall o :: o in plan ==> o.Chunk? || o.Failure?) ==> !standing.StreamEnded?
  {
    if standing.StreamEnded? { assert past[|past| - 1] in plan; }
    if standing.Reading? {
      assert past == plan;
      assert forall i: nat :: i < |past| && past[i] == EndOfStream ==> Ends(cfg, key, consumed, past, at, i);
    }
  }

  /** The receive loop: whatever the chunks and the errors between them, what it delivers
      is determined by the bytes it has read. As far as the framing goes, it returns
      exactly on a bad header, on the end of the stream, and on a lost connection while it
      waits for a header: as long as reads only fail otherwise it goes on reading. */
  method ReceiveTCP(cfg: Config, key: Cipher, conn: Connection) returns (frames: seq<Frame>, standing: Standing)
    requires conn.consumed == [] && conn.past == [] && conn.at == []
    modifies conn
    ensures conn.consumed + conn.pending == old(conn.pending)
    ensures frames == Frames(cfg, key, conn.consumed)
    ensures conn.past + conn.plan == old(conn.plan)
    ensures EndsOnce(cfg, key, conn.consumed, conn.past, conn.at, standing.StreamEnded?)
    ensures standing.BadHeader? <==> Spoilt(cfg, key, conn.consumed)
    ensures standing.Reading? ==> conn.plan == []
  {
    frames := [];
    ghost var parts: seq<bytes> := [];
    var header := new u8[HEADER_LENGTH](_ => 0);
    NothingYet(cfg, key, conn.plan);
    hide Frames, AreFrames, Flatten, EndsOnce, NoneSince, AtErrors, Spoilt, GetLength;
    while true
      invariant fresh(header)
      invariant conn.consumed + conn.pending == old(conn.pending)
      invariant AreFrames(cfg, key, parts, frames) && conn.consumed == Flatten(parts)
      invariant conn.past + conn.plan == old(conn.plan)
      invariant EndsOnce(cfg, key, conn.consumed, conn.past, conn.at, false)
      decreases |conn.plan|
    {
      ghost var past, at := conn.past, conn.at;
      var received, filled := ReadHeader(conn, header);
      ghost var raw := header[..received];
      HeaderEndsOnce(cfg, key, parts, frames, raw, past, at, conn.past, conn.at, filled.Ended?);
      if !filled.Filled? {
        PartOfHeader(cfg, key, parts, frames, raw);
        return frames, if filled.Ended? then StreamEnded else Reading;
      }
      assert header[..] == raw;
      var decryptedHeader := Decrypt(key, Some(header[..]));
      if decryptedHeader.Err? {
        NoFrameLeft(cfg, key, parts, frames, raw, []);
        return frames, BadHeader;
      }
      var parsed := UnmarshalHeader(cfg, decryptedHeader.value);
      if parsed.Err? {
        NoFrameLeft(cfg, key, parts, frames, raw, []);
        return frames, BadHeader;
      }
      var msg := parsed.value;
      var payload := new u8[msg.payloadLength](_ => 0);
      past, at := conn.past, conn.at;
      var receivedPayload, complete := ReadPayload(conn, payload);
      PayloadEndsOnce(cfg, key, parts, frames, raw, payload[..receivedPayload], past, at, conn.past, conn.at, complete.Ended?);
      if !complete.Filled? {
        NoFrameLeft(cfg, key, parts, frames, raw, payload[..receivedPayload]);
        return frames, if complete.Ended? then StreamEnded else Reading;
      }
      assert payload[..receivedPayload] == payload[..];
      OneMoreFrame(cfg, key, parts, frames, raw, msg, payload[..]);
      parts := parts + [raw + payload[..]];
      frames := frames + [Frame(msg, payload[..])];
    }
  }

  lemma NothingYet(cfg: Config, key: Cipher, plan: seq<Outcome>)
    ensures AreFrames(cfg, key, [], []) && Flatten([]) == [] && EndsOnce(cfg, key, [], [], [], false) && [] + plan == plan
  {
  }

  lemma PartOfHeader(cfg: Config, key: Cipher, parts: seq<bytes>, frames: seq<Frame>, header: bytes)
    requires AreFrames(cfg, key, parts, frames) && |header| < HEADER_LENGTH
    ensures Frames(cfg, key, Flatten(parts) + header) == frames && !Spoilt(cfg, key, Flatten(parts) + header)
  {
    FramesInFront(cfg, key, parts, frames, header);
    BehindParts(cfg, key, parts, frames, header);
    assert Frames(cfg, key, header) == [] && frames + [] == frames;
  }

  lemma NoFrameLeft(cfg: Config, key: Cipher, parts: seq<bytes>, frames: seq<Frame>, header: bytes, payload: bytes)
    requires AreFrames(cfg, key, parts, frames) && |header| == HEADER_LENGTH
    requires HeaderIn(cfg, key, header).Some? ==> |payload| < HeaderIn(cfg, key, header).value.payloadLength || payload == []
    requires payload == [] ==> HeaderIn(cfg, key, header).None? || HeaderIn(cfg, key, header).value.payloadLength > 0
    ensures Frames(cfg, key, Flatten(parts) + header + payload) == frames
    ensures Spoilt(cfg, key, Flatten(parts) + header + payload) <==> HeaderIn(cfg, key, header).None?
    ensures Flatten(parts) + header + [] == Flatten(parts) + header
  {
    ConcatIsAssociative(Flatten(parts), header, payload);
    NoWholeFrame(cfg, key, header, payload);
    FramesInFront(cfg, key, parts, frames, header + payload);
    BehindParts(cfg, key, parts, frames, header + payload);
    assert frames + [] == frames;
  }

  // ----- what was sent

  /** A message together with what its sender fixed and made of it. */
  datatype Item = Item(sender: Sender, msg: Message, encoded: Encoded)

  /** The header announces the bytes that follow, and the receiver accepts it. */
  predicate Framed(cfg: Config, m: Message, payload: bytes) {
    && KnownType(m.typ)
    && AnnouncedLength(m, payload) == (if payload == [] then 0 else GetLength(|payload|))
    && AnnouncedLength(m, payload) <= MaxEncrypted(cfg)
  }

  function SealedPayload(keys: Keys, m: Message, payload: bytes): bytes {
    if payload == [] then [] else Encrypted(KeyFor(keys, m), payload).value
  }

  function Wire(keys: Keys, item: Item): bytes
    requires item.encoded.compression <= ZSTD
  {
    Sealed(keys, item.msg, HeaderBytes(HeaderOf(item.msg, item.encoded)), item.encoded.payload)
  }

  function FrameOf(keys: Keys, item: Item): Frame {
    Frame(HeaderRead(item.msg, item.encoded), SealedPayload(keys, item.msg, item.encoded.payload))
  }

  /** A single message is found as its frame exactly when it is framed; an empty data
      payload is not, because its header announces a block that is never sent. */
  lemma WireIsOneFrame(keys: Keys, item: Item)
    requires Good(keys) && item.encoded.compression <= ZSTD && Representable(item.sender.cfg, item.encoded.payload)
    ensures Frames(item.sender.cfg, keys.primary, Wire(keys, item)) == [FrameOf(keys, item)]
      <==> Framed(item.sender.cfg, item.msg, item.encoded.payload)
    ensures Framed(item.sender.cfg, item.msg, item.encoded.payload)
      ==> IsFrame(item.sender.cfg, keys.primary, Wire(keys, item), FrameOf(keys, item))
  {
    var s, m, e := item.sender, item.msg, item.encoded;
    var raw := Wire(keys, item);
    SealedHeader(s, keys, m, e);
    HeaderRoundTrip(s.cfg, HeaderOf(m, e), m.error > 0, m.isACK, e.isRequest, e.compression);
    var found := HeaderIn(s.cfg, keys.primary, raw[..HEADER_LENGTH]);
    assert found.Some? ==> found.value.payloadLength == AnnouncedLength(m, e.payload);
    assert found.Some? <==> KnownType(m.typ) && AnnouncedLength(m, e.payload) <= MaxEncrypted(s.cfg);
    if Frames(s.cfg, keys.primary, raw) != [] {
      assert |Frames(s.cfg, keys.primary, raw)[0].payload| == AnnouncedLength(m, e.payload);
    }
    assert |FrameOf(keys, item).payload| == if e.payload == [] then 0 else GetLength(|e.payload|);
    if Framed(s.cfg, m, e.payload) {
      FrontFrame(s.cfg, keys.primary, raw, FrameOf(keys, item), []);
      assert raw + [] == raw && Frames(s.cfg, keys.primary, []) == [];
    }
  }

  ghost predicate AllFramed(cfg: Config, items: seq<Item>) {
    forall i :: 0 <= i < |items| ==>
      && items[i].sender.cfg == cfg && items[i].encoded.compression <= ZSTD
      && Representable(cfg, items[i].encoded.payload) && Framed(cfg, items[i].msg, items[i].encoded.payload)
  }

  function Wires(keys: Keys, items: seq<Item>): seq<bytes>
    requires forall i :: 0 <= i < |items| ==> items[i].encoded.compression <= ZSTD
  {
    seq(|items|, i requires 0 <= i < |items| => Wire(keys, items[i]))
  }

  function FramesOf(keys: Keys, items: seq<Item>): seq<Frame> {
    seq(|items|, i requires 0 <= i < |items| => FrameOf(keys, items[i]))
  }

  /** However the reads split the stream, once it is read to its end the frames found
      are the frames sent, and before that they are a prefix of them. */
  lemma StreamRoundTrip(cfg: Config, keys: Keys, items: seq<Item>, consumed: bytes, pending: bytes)
    requires Good(keys) && AllFramed(cfg, items)
    requires consumed + pending == Flatten(Wires(keys, items))
    ensures Frames(cfg, keys.primary, consumed) <= FramesOf(keys, items)
    ensures pending == [] ==> Frames(cfg, keys.primary, consumed) == FramesOf(keys, items)
  {
    var parts, frames := Wires(keys, items), FramesOf(keys, items);
    forall i | 0 <= i < |items| ensures IsFrame(cfg, keys.primary, parts[i], frames[i]) {
      WireIsOneFrame(keys, items[i]);
    }
    FramesInFront(cfg, keys.primary, parts, frames, []);
    FramesGrow(cfg, keys.primary, consumed, pending);
    assert Frames(cfg, keys.primary, []) == [];
    hide Frames, IsFrame, Wires, FramesOf;
    assert Flatten(parts) + [] == Flatten(parts) && frames + [] == frames;
    assert pending == [] ==> consumed + pending == consumed;
  }

  /** Behind the framing the payloads are treated as in a datagram, so a carried
      message is recovered from its frame. */
  lemma FrameRoundTrip(keys: Keys, item: Item)
    requires Good(keys) && Sound(item.sender.cmp) && Sendable(item.sender, item.msg)
    requires EncodedPayload(item.sender, item.msg) == Ok(item.encoded)
    requires item.msg.typ == AUTHENTICATION || item.msg.typ == HANDSHAKE || item.msg.typ == DATA
    requires Representable(item.sender.cfg, item.encoded.payload)
    requires Carried(item.sender.cfg, item.msg, item.encoded.payload)
    ensures item.encoded.compression <= ZSTD && Framed(item.sender.cfg, item.msg, item.encoded.payload)
    ensures var frame := FrameOf(keys, item);
      TakenPayload(item.sender.cmp, keys, frame.header, frame.payload) == Ok(Recovered(item.msg, item.encoded))
  {
    CompressionIsKnown(item.sender, item.msg);
    PayloadIsTaken(item.sender, keys, item.msg, item.encoded);
    hide EncodedPayload, Encrypted, Recovered, TakenPayload, HeaderRead, Good, Sound, Sendable;
  }

  // ----- the sending side

  /** A connection being written to: each write takes as much as planned, at least one
      byte, or fails. */
  class Outlet {
    var stream: bytes
    var plan: seq<Option<nat>>

    constructor (plan: seq<Option<nat>>)
      ensures stream == [] && this.plan == plan
    {
      stream, this.plan := [], plan;
    }

    method Write(data: bytes) returns (n: nat, failed: bool)
      requires data != []
      modifies this
      ensures n <= |data| && stream == old(stream) + data[..n]
      ensures failed <==> n == 0
      ensures plan == (if failed || old(plan) == [] then old(plan) else old(plan)[1..])
      ensures failed <==> old(plan) != [] && old(plan)[0].None?
    {
      if plan == [] {
        n := |data|;
      } else if plan[0].None? {
        assert stream + data[..0] == stream;
        return 0, true;
      } else {
        n := if plan[0].value == 0 then 1 else if plan[0].value > |data| then |data| else plan[0].value;
        plan := plan[1..];
      }
      stream := stream + data[..n];
      failed := false;
    }
  }

  datatype SendResult = Written | Interrupted | NotEncoded(error: DatagramError)

  /** Of the plan only successful writes have been used up. */
  ghost predicate Succeeded(before: seq<Option<nat>>, plan: seq<Option<nat>>) {
    && |plan| <= |before| && plan == before[|before| - |plan|..]
    && forall i :: 0 <= i < |before| - |plan| ==> before[i].Some?
  }

  lemma OneMoreWrite(before: seq<Option<nat>>, plan: seq<Option<nat>>)
    requires Succeeded(before, plan) && plan != [] && plan[0].Some?
    ensures Succeeded(before, plan[1..])
  {
  }

  /** Writes a message in as many pieces as it takes. A failed write leaves a part of it
      behind, and nothing else. */
  method SendTCP(s: Sender, keys: Keys, m: Message, out: Outlet) returns (r: SendResult)
    requires m.payload.Acks? ==> IsOrder(s.order, m.payload.acks)
    modifies out
    ensures match Datagram.Sent(s, keys, m)
      case Err(e) => r == NotEncoded(e) && out.stream == old(out.stream)
      case Ok(data) =>
        && !r.NotEncoded?
        && (r.Written? ==> out.stream == old(out.stream) + data)
        && (r.Interrupted? ==> exists k :: 0 <= k < |data| && out.stream == old(out.stream) + data[..k])
    ensures Succeeded(old(out.plan), out.plan)
    ensures r.Interrupted? ==> out.plan != [] && out.plan[0].None?
  {
    var encoded := SealMessage(s, keys, m);
    if encoded.Err? {
      return NotEncoded(encoded.error);
    }
    hide Datagram.Sent, IsOrder;
    var data, sent := encoded.value, 0;
    ghost var before := out.stream;
    assert before + data[..0] == before && Succeeded(out.plan, out.plan);
    hide Succeeded;
    while sent < |data|
      invariant sent <= |data| && out.stream == before + data[..sent]
      invariant Succeeded(old(out.plan), out.plan)
    {
      if out.plan != [] && out.plan[0].Some? { OneMoreWrite(old(out.plan), out.plan); }
      var n, failed := out.Write(data[sent..]);
      assert data[..sent + n] == data[..sent] + data[sent..][..n];
      ConcatIsAssociative(before, data[..sent], data[sent..][..n]);
      if failed {
        return Interrupted;
      }
      sent := sent + n;
    }
    assert data[..|data|] == data;
    return Written;
  }

  /** What a message adds to the stream is its part of the stream that is read. */
  lemma WireIsSent(keys: Keys, item: Item)
    requires item.msg.payload.Acks? ==> IsOrder(item.sender.order, item.msg.payload.acks)
    requires EncodedPayload(item.sender, item.msg) == Ok(item.encoded)
    ensures item.encoded.compression <= ZSTD && Datagram.Sent(item.sender, keys, item.msg) == Ok(Wire(keys, item))
  {
    CompressionIsKnown(item.sender, item.msg);
  }
}
