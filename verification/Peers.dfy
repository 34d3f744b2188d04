/** The body of a peer's UDP receive loop, from the bytes read to the channels it feeds,
    for the connection of one session. */
module Peers {
  import opened Bytes
  import opened Acknowledgements
  import opened Retransmission
  import opened Protocol
  import opened ProtocolRuns
  import AckCodec
  import Codec
  import Datagram
  import Encryptor
  import Fields
  import Reorder

  /** What the loop makes of a datagram that is not dropped right away. */
  function UserMessage(w: World, r: Result<Codec.Message, Datagram.DatagramError>): Option<Codec.Message> {
    if r.Ok? && r.value.sessionID == w.session && r.value.typ == Codec.DATA then Some(r.value) else None
  }

  /** The effect on the direction the datagram belongs to, and on the opposite one. */
  function Incoming(w: World, m: Option<Codec.Message>, d: Direction): Direction {
    if m.Some? && !m.value.isACK then Receiving(w, d, m.value) else d
  }

  function Outgoing(m: Option<Codec.Message>, d: Direction): Direction {
    if m.Some? && m.value.isACK then Settling(d, m.value) else d
  }

  /** The loop does to a peer's two directions what a step of the protocol does. */
  lemma LoopIsArrival(w: World, s: State, side: Side, datagram: bytes)
    ensures var m := UserMessage(w, Opened(w, datagram));
      Dispatched(w, s, side, datagram)
      == WithDirection(WithDirection(s, Other(side), Outgoing(m, From(s, Other(side)))), side, Incoming(w, m, From(s, side)))
  {
    hide Opened, Settling, Receiving;
  }

  /** What cannot be read, is of another session, or is no data message, changes nothing. */
  lemma ForeignChangesNothing(w: World, s: State, side: Side, datagram: bytes)
    requires var r := Opened(w, datagram);
      r.Ok? ==> r.value.sessionID != w.session || r.value.typ != Codec.DATA
    ensures Dispatched(w, s, side, datagram) == s
  {
    LoopIsArrival(w, s, side, datagram);
    hide Opened, Dispatched;
  }

  /** A packet of the session is passed on with its number, its endpoint, the length that its
      header announces, and its contents, and nothing else changes. */
  lemma PacketIsPassedOn(w: World, s: State, side: Side, datagram: bytes)
    requires var r := Opened(w, datagram);
      && r.Ok? && r.value.sessionID == w.session && r.value.typ == Codec.DATA && !r.value.isACK
      && r.value.payload.Raw? && w.decode(From(s, side).from, r.value.payload.data).Some?
    ensures var d, next, m := From(s, side), Dispatched(w, s, side, datagram), Opened(w, datagram).value;
      && From(next, Other(side)) == From(s, Other(side))
      && Wire(next, Client) == Wire(s, Client) && Wire(next, Server) == Wire(s, Server)
      && var received := From(next, side).received;
      && From(next, side) == d.(received := received)
      && |received| == |d.received| + 1 && received[..|d.received|] == d.received
      && received[|d.received|].id == m.id && received[|d.received|].length == m.payloadLength
      && w.decode(d.from, m.payload.data) == Some(received[|d.received|].endpoint)
      && received[|d.received|].payload == m.payload.data
  {
    hide Opened;
  }

  /** An acknowledgement of the session takes out of the table what it names, and nothing else
      changes. */
  lemma AcknowledgementTakesOut(w: World, s: State, side: Side, datagram: bytes, key: Key)
    requires var r := Opened(w, datagram);
      r.Ok? && r.value.sessionID == w.session && r.value.typ == Codec.DATA && r.value.isACK && r.value.payload.Acks?
    ensures var d, next := From(s, Other(side)), Dispatched(w, s, side, datagram);
      var acks := Opened(w, datagram).value.payload.acks;
      && From(next, side) == From(s, side)
      && Wire(next, Client) == Wire(s, Client) && Wire(next, Server) == Wire(s, Server)
      && var table := From(next, Other(side)).inFlight;
      && From(next, Other(side)) == d.(inFlight := table)
      && (key in table <==> key in d.inFlight && !(key.endpoint in acks && key.id in acks[key.endpoint]))
      && (key in table ==> table[key] == d.inFlight[key])
  {
    hide Opened;
  }

  /** Contents that are not full blocks make the receive loop panic, and so does an
      acknowledgement that is no data message. */
  lemma WhenItPanics(w: World, data: bytes, m: Codec.Message)
    requires |data| >= 16 && Encryptor.Decrypted(w.keys.primary, Some(data[..16])).Ok?
    requires Codec.ParsedHeader(w.codec, Encryptor.Decrypted(w.keys.primary, Some(data[..16])).value) == Ok(m)
    requires m.payloadLength == |data| - 16 && (m.typ == 1 || m.typ == 2 || m.typ == 3)
    ensures m.payloadLength % 16 != 0 ==> Panics(w, Datagram.TakenApart(w.codec, w.cmp, w.keys, data))
    ensures m.typ != 3 && m.isACK && m.sessionID == w.session ==>
      var r := Datagram.TakenApart(w.codec, w.cmp, w.keys, data); r.Ok? ==> Panics(w, r)
  {
    hide Codec.ParsedHeader, Fields.ReadFields, AckCodec.Decode, Encryptor.Unpad, Encryptor.Blocks;
  }

  /** Only a data message can come out with acknowledgements. */
  lemma AcksAreData(w: World, data: bytes)
    ensures var r := Datagram.TakenApart(w.codec, w.cmp, w.keys, data);
      r.Ok? && r.value.payload.Acks? ==> r.value.typ == Codec.DATA
  {
    hide Fields.ReadFields, AckCodec.Decode, Encryptor.Decrypted;
  }

  /** In every run, no datagram the network may hold, once or again, makes the receive
      loop of the other side panic. */
  lemma ReceivingNeverPanics(w: World, steps: seq<Step>, side: Side, datagram: bytes)
    requires Sensible(w) && datagram in Wire(After(w, steps), side)
    ensures !Panics(w, Opened(w, datagram))
  {
    AlwaysInv(w, steps);
    hide Opened, Panics;
    assert SideInv(w, After(w, steps), side);
  }

  class Peer {
    const w: World
    const side: Side
    const retry: Retry
    var toAck: seq<Key>                   // the accumulator's channel
    var toMerge: seq<Reorder.Message>     // the stream's channel

    constructor (w: World, side: Side)
      ensures this.w == w && this.side == side && fresh(retry) && retry.messages == map[] && toAck == [] && toMerge == []
    {
      this.w, this.side := w, side;
      retry := new Retry();
      toAck, toMerge := [], [];
    }

    /** Handles the `n` bytes read into `buf`. `outgoing` and `incoming` stand for the two
        directions as the protocol sees them. */
    method Receive(buf: array<u8>, n: nat, orderOf: AckData -> seq<u64>, ghost outgoing: Direction, ghost incoming: Direction)
      returns (panics: bool)
      requires n <= buf.Length
      requires forall data :: IsOrder(orderOf(data), data)
      requires outgoing.from == side && incoming.from == Other(side)
      requires retry.messages == outgoing.inFlight && toMerge == incoming.received
      modifies this, retry
      ensures var m := UserMessage(w, Datagram.TakenApart(w.codec, w.cmp, w.keys, buf[..n]));
        && panics == Panics(w, Datagram.TakenApart(w.codec, w.cmp, w.keys, buf[..n]))
        && retry.messages == Outgoing(m, outgoing).inFlight
        && toMerge == Incoming(w, m, incoming).received
      ensures toMerge == old(toMerge) ==> toAck == old(toAck)
      ensures toMerge != old(toMerge) ==>
        && |toMerge| == |old(toMerge)| + 1
        && var m := toMerge[|toMerge| - 1]; toAck == old(toAck) + [Key(m.endpoint, m.id)]
    {
      var taken := Datagram.ReceiveUDP(w.codec, w.cmp, w.keys, buf, n);
      AcksAreData(w, buf[..n]);
      hide Datagram.TakenApart, IsOrder;
      panics := false;
      if taken.Err? {
        return taken.error == Datagram.CryptFailed(Encryptor.Panic) || taken.error == Datagram.CodecFailed(AckCodec.IndexPanic);
      }
      var msg := taken.value;
      if msg.sessionID != w.session || msg.typ == Codec.KEEPALIVE {
        return;
      }
      if msg.isACK {
        if !msg.payload.Acks? {
          return true;
        }
        var _ := retry.Ack(Some(msg.payload.acks), orderOf(msg.payload.acks));
        return;
      }
      if msg.typ == Codec.DATA && msg.payload.Raw? {
        var endpoint := w.decode(Other(side), msg.payload.data);
        if endpoint.None? {
          return;
        }
        toAck := toAck + [Key(endpoint.value, msg.id)];
        toMerge := toMerge + [Reorder.Message(msg.id, endpoint.value, msg.payloadLength, msg.payload.data)];
      }
    }
  }
}
