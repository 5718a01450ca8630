/** A sending and a receiving peer joined by a connection that may deliver any part of what is on its
    way at any time: whatever the sockets do, packets arrive unchanged and in order. */
module Links {
  import opened Bytes
  import opened Framing
  import opened Peers
  import opened TlsPeers
  import opened BasePeers
  import SP = StreamingProtocol
  import WS = WebSocketProtocol

  /** Every unit is one that the receiver's buffer can hold. */
  ghost predicate Fits(mode: Mode, rxMax: nat, sent: seq<Outgoing>) {
    AllWritable(mode, sent) && forall i | 0 <= i < |sent| :: |Wire(mode, sent[i])| <= rxMax
  }

  /** A receiver that was sent only units it can hold never gives up. */
  lemma NeverGivesUp(mode: Mode, rxMax: nat, sent: seq<Outgoing>, received: seq<byte>)
    requires rxMax > 0 && Fits(mode, rxMax, sent) && received <= WireAll(mode, sent)
    ensures !Parse(mode, received).refused && |Parse(mode, received).rest| < rxMax
  {
    hide Parse, Wire, WireAll;
    var k := StreamPrefix(mode, sent, received);
  }

  lemma PacketWire(mode: Mode, p: SP.Packet)
    requires Writable(mode, Send(p))
    ensures var h := SP.HeaderBytes(p.signo, p.kind, |p.payload|);
            && h.Generated?
            && Wire(mode, Send(p)) == if mode.DirectTcp? then h.bytes + p.payload else WS.Frame(WS.BINARY, h.bytes + p.payload, [])
  {
  }

  /** The packets as they are asked to be sent, and how many bytes they take. */
  function Sends(ps: seq<SP.Packet>): seq<Outgoing> {
    seq(|ps|, i requires 0 <= i < |ps| => Send(ps[i]))
  }

  function WireSize(mode: Mode, ps: seq<SP.Packet>): nat
    requires forall i | 0 <= i < |ps| :: Writable(mode, Send(ps[i]))
  {
    if ps == [] then 0 else |Wire(mode, Send(ps[0]))| + WireSize(mode, ps[1..])
  }

  class Link {
    const sender: Peer
    const receiver: BasePeer
    /** Everything the sender was asked to send. */
    ghost var sent: seq<Outgoing>

    ghost predicate Valid()
      reads this, sender, sender.tx, sender.tx.blocks, receiver, receiver.rxBuffer
    {
      && receiver.rxBuffer !in sender.tx.blocks
      && sender.mode == receiver.mode
      && sender.Valid() && receiver.Valid()
      && Fits(receiver.mode, receiver.rxMax, sent)
      && sender.submitted == WireAll(receiver.mode, sent) && !sender.shutdownAsked
      && receiver.received <= sender.wire
      && (receiver.status.Open? ==> receiver.reading)
      && receiver.status != Closed(NotSupported) && receiver.status != Closed(NoBufferSpace)
    }

    constructor (mode: Mode, txBufferSize: nat, rxBufferSize: nat)
      requires rxBufferSize > 0
      ensures Valid() && sent == [] && receiver.status.Open? && sender.status.Open?
      ensures receiver.rxMax == rxBufferSize && receiver.mode == mode
    {
      hide Parse, First, WireAll, Peer.Valid, BasePeer.Valid;
      var s := new Peer(mode, txBufferSize);
      var r := new BasePeer(mode, rxBufferSize);
      r.Run();
      sender, receiver, sent := s, r, [];
      NothingOnTheWire(mode);
    }

    static lemma NothingOnTheWire(mode: Mode)
      ensures WireAll(mode, []) == []
    {
    }

    /** The promise of the transport: what was handled is a prefix of what was sent, and all of it once
        the sender's buffer and the wire are empty. */
    lemma DeliversInOrder()
      requires Valid()
      ensures receiver.events <= MeaningAll(sent)
      ensures sender.status.Open? && sender.tx.Contents() == [] && receiver.received == sender.wire ==>
                receiver.events == MeaningAll(sent)
    {
      hide Parse, WireAll, MeaningAll;
      DeliveredInOrder(receiver.mode, sent, receiver.received);
    }

    /** What was handled is what was received, and what was received is the first of what was sent. */
    lemma HandlesReceived()
      requires Valid()
      ensures receiver.events == Parse(receiver.mode, receiver.received).events
      ensures receiver.received <= WireAll(receiver.mode, sent)
      ensures sender.status.Open? && sender.tx.Contents() == [] && receiver.received == sender.wire ==>
                receiver.received == WireAll(receiver.mode, sent)
    {
      hide Parse, WireAll;
    }

    /** Sending packets never shuts the connection down: an open sender stays open if its socket does not fail
        and it has room for what the socket does not take. */
    method SendPacket(p: SP.Packet, socket: Socket)
      requires Valid() && (sender.status.Closed? ==> socket.Fails?)
      requires Writable(receiver.mode, Send(p)) && |Wire(receiver.mode, Send(p))| <= receiver.rxMax
      modifies this, sender, sender.tx, sender.tx.blocks
      ensures Valid() && sent == old(sent) + [Send(p)] && sender.status != Closed(Normal)
      ensures forall b | b in sender.tx.blocks :: b in old(sender.tx.blocks) || fresh(b)
      ensures var w := |Wire(receiver.mode, Send(p))|;
              old(sender.status).Open? && socket.Accepts? && w <= old(sender.Room()) ==>
                sender.status.Open? && sender.Room() >= old(sender.Room()) - w
    {
      hide Parse, WireAll, Peer.Valid, BasePeer.Valid, SP.HeaderBytes, WS.Frame;
      PacketWire(receiver.mode, p);
      var thrown := sender.SendPacket(p.signo, p.kind, p.payload, socket);
      WireAllAppend(receiver.mode, sent, Send(p));
      sent := sent + [Send(p)];
    }

    method SendPong(payload: seq<byte>, socket: Socket)
      requires Valid() && (sender.status.Closed? ==> socket.Fails?)
      requires Writable(receiver.mode, Pong(payload)) && |Wire(receiver.mode, Pong(payload))| <= receiver.rxMax
      modifies this, sender, sender.tx, sender.tx.blocks
      ensures Valid() && sent == old(sent) + [Pong(payload)]
    {
      hide Parse, First, WireAll, Peer.Valid, BasePeer.Valid, WS.Frame, SP.HeaderBytes;
      sender.SendWebsocketFrame(WS.PONG, payload, false, socket);
      WireAllAppend(receiver.mode, sent, Pong(payload));
      sent := sent + [Pong(payload)];
    }

    /** The sender's socket became writable again, or failed. */
    method FinishWaitTx(waitFailed: bool, socket: Socket)
      requires Valid() && sender.waitingTx && (sender.status.Closed? ==> waitFailed || socket.Fails?)
      modifies sender, sender.tx
      ensures Valid() && sender.status != Closed(Normal) && sender.Room() >= old(sender.Room())
      ensures old(sender.status).Open? && !waitFailed && socket.Accepts? ==> sender.status.Open?
      ensures old(sender.status).Open? && !waitFailed && socket.Accepts? && socket.room > 0 ==> |sender.wire| > |old(sender.wire)|
    {
      hide Parse, WireAll, Peer.Valid, BasePeer.Valid;
      sender.FinishWaitTx(waitFailed, socket);
    }

    /** The next bytes on the wire reach the receiver, which goes on reading. */
    method Deliver(chunk: seq<byte>)
      requires Valid() && receiver.status.Open?
      requires chunk != [] && receiver.received + chunk <= sender.wire
      requires |chunk| <= receiver.rxBuffer.Length - receiver.rxBytes
      modifies receiver, receiver.rxBuffer
      ensures Valid() && receiver.status.Open? && receiver.received == old(receiver.received) + chunk
      ensures fresh(receiver.rxBuffer) || receiver.rxBuffer == old(receiver.rxBuffer)
    {
      hide Parse, WireAll;
      NeverGivesUp(receiver.mode, receiver.rxMax, sent, receiver.received + chunk);
      receiver.FinishRead(Received(chunk));
    }

    /** Any number of packets for which there is room leave the sender open, whatever the socket takes. */
    method SendPackets(ps: seq<SP.Packet>, sockets: seq<Socket>)
      requires Valid() && sender.status.Open? && |sockets| == |ps|
      requires forall i | 0 <= i < |ps| :: sockets[i].Accepts? && Writable(receiver.mode, Send(ps[i]))
      requires forall i | 0 <= i < |ps| :: |Wire(receiver.mode, Send(ps[i]))| <= receiver.rxMax
      requires WireSize(receiver.mode, ps) <= sender.Room()
      modifies this, sender, sender.tx, sender.tx.blocks
      ensures Valid() && sender.status.Open? && sent == old(sent) + Sends(ps)
      ensures forall b | b in sender.tx.blocks :: b in old(sender.tx.blocks) || fresh(b)
    {
      hide Parse, First, WireAll, Wire, Peer.Valid, BasePeer.Valid;
      assert ps[0..] == ps;
      for i := 0 to |ps|
        invariant Valid() && sender.status.Open? && sent == old(sent) + Sends(ps[..i])
        invariant WireSize(receiver.mode, ps[i..]) <= sender.Room()
        invariant forall b | b in sender.tx.blocks :: b in old(sender.tx.blocks) || fresh(b)
      {
        assert ps[i..][0] == ps[i] && ps[i..][1..] == ps[i + 1..];
        assert forall k | 0 <= k < |sender.tx.blocks| :: sender.tx.blocks[k] in old(sender.tx.blocks) || fresh(sender.tx.blocks[k]);
        SendPacket(ps[i], sockets[i]);
        assert Sends(ps[..i + 1]) == Sends(ps[..i]) + [Send(ps[i])];
      }
      assert ps[..|ps|] == ps;
    }

    /** Completed write waits, as long as something is buffered, put all of it on the wire. */
    method Flush(room: nat)
      requires Valid() && sender.status.Open? && room > 0
      modifies sender, sender.tx
      ensures Valid() && sender.status.Open? && sender.wire == sender.submitted == old(sender.submitted)
    {
      hide Parse, WireAll, BasePeer.Valid, Concat;
      while sender.waitingTx
        invariant Valid() && sender.status.Open? && sender.submitted == old(sender.submitted)
        decreases |sender.submitted| - |sender.wire|
      {
        FinishWaitTx(false, Accepts(room));
      }
    }

    /** Reads, as long as something is on its way, bring all of it to the application. */
    method DeliverAll(bytes: seq<byte>)
      requires Valid() && receiver.status.Open? && sender.wire == receiver.received + bytes
      modifies receiver, receiver.rxBuffer
      ensures Valid() && receiver.status.Open? && receiver.received == sender.wire
    {
      hide Parse, WireAll, Peer.Valid;
      var at := 0;
      while at < |bytes|
        invariant at <= |bytes| && Valid() && receiver.status.Open?
        invariant sender.wire == receiver.received + bytes[at..]
        invariant fresh(receiver.rxBuffer) || receiver.rxBuffer == old(receiver.rxBuffer)
      {
        var next := at + Min(receiver.rxBuffer.Length - receiver.rxBytes, |bytes| - at);
        assert bytes[at..] == bytes[at..next] + bytes[next..];
        Deliver(bytes[at..next]);
        at := next;
      }
    }

    /** So everything sent is handled, whatever the socket takes at a time; `bytes` is what has not arrived. */
    method Settle(room: nat, bytes: seq<byte>)
      requires Valid() && sender.status.Open? && receiver.status.Open? && room > 0
      requires sender.submitted == receiver.received + bytes
      modifies sender, sender.tx, receiver, receiver.rxBuffer
      ensures Valid() && sender.status.Open? && receiver.status.Open? && sent == old(sent)
      ensures receiver.events == MeaningAll(sent)
    {
      hide Parse, WireAll, MeaningAll;
      Flush(room);
      DeliverAll(bytes);
      DeliveredInOrder(receiver.mode, sent, receiver.received);
    }

    /** The receiver's connection breaks or ends. */
    method Break(failed: bool)
      requires Valid() && receiver.status.Open?
      modifies receiver, receiver.rxBuffer
      ensures Valid() && receiver.status == Closed(if failed then SocketError else Normal)
      ensures receiver.received == old(receiver.received) && receiver.events == old(receiver.events)
    {
      hide Parse, WireAll;
      receiver.FinishRead(if failed then ReadFailed else Received([]));
    }
  }

  /** The same over TLS, where whole frames are queued and written one after the other. */
  class TlsLink {
    const sender: TlsPeer
    const receiver: BasePeer
    /** Everything the sender was asked to send. */
    ghost var sent: seq<Outgoing>

    ghost predicate Valid()
      reads this, sender, receiver, receiver.rxBuffer
    {
      && sender.mode == receiver.mode
      && sender.Valid() && receiver.Valid()
      && Fits(receiver.mode, receiver.rxMax, sent)
      && sender.submitted == WireAll(receiver.mode, sent) && !sender.shutdownAsked
      && sender.status != Closed(Normal) && receiver.received <= sender.wire
      && (receiver.status.Open? ==> receiver.reading)
      && receiver.status != Closed(NotSupported) && receiver.status != Closed(NoBufferSpace)
    }

    constructor (mode: Mode, txBufferSize: nat, rxBufferSize: nat)
      requires rxBufferSize > 0
      ensures Valid() && sent == [] && receiver.status.Open? && sender.status.Open?
      ensures receiver.rxMax == rxBufferSize && receiver.mode == mode
    {
      hide Parse, First, WireAll, BasePeer.Valid;
      var s := new TlsPeer(mode, txBufferSize);
      var r := new BasePeer(mode, rxBufferSize);
      r.Run();
      sender, receiver, sent := s, r, [];
      Link.NothingOnTheWire(mode);
    }

    /** The promise of the transport: what was handled is a prefix of what was sent, and all of it once
        the sender's queue and the wire are empty. */
    lemma DeliversInOrder()
      requires Valid()
      ensures receiver.events <= MeaningAll(sent)
      ensures sender.status.Open? && sender.queue == [] && receiver.received == sender.wire ==>
                receiver.events == MeaningAll(sent)
    {
      hide Parse, WireAll, MeaningAll;
      DeliveredInOrder(receiver.mode, sent, receiver.received);
    }

    /** What was handled is what was received, and what was received is the first of what was sent. */
    lemma HandlesReceived()
      requires Valid()
      ensures receiver.events == Parse(receiver.mode, receiver.received).events
      ensures receiver.received <= WireAll(receiver.mode, sent)
      ensures sender.status.Open? && sender.queue == [] && receiver.received == sender.wire ==>
                receiver.received == WireAll(receiver.mode, sent)
    {
      hide Parse, WireAll;
    }

    /** Sending packets never shuts the connection down: an open sender stays open within its limit. */
    method SendPacket(p: SP.Packet)
      requires Valid() && Writable(receiver.mode, Send(p)) && |Wire(receiver.mode, Send(p))| <= receiver.rxMax
      modifies this, sender
      ensures Valid() && sent == old(sent) + [Send(p)]
      ensures old(sender.status).Open? ==>
                && sender.queuedBytes == old(sender.queuedBytes) + |Wire(receiver.mode, Send(p))|
                && (sender.status.Open? <==> sender.queuedBytes <= sender.limit)
    {
      hide Parse, First, WireAll, BasePeer.Valid, TlsPeer.Valid, SP.HeaderBytes, WS.Frame;
      PacketWire(receiver.mode, p);
      var thrown := sender.SendPacket(p.signo, p.kind, p.payload);
      WireAllAppend(receiver.mode, sent, Send(p));
      sent := sent + [Send(p)];
    }

    method SendPong(payload: seq<byte>)
      requires Valid() && Writable(receiver.mode, Pong(payload)) && |Wire(receiver.mode, Pong(payload))| <= receiver.rxMax
      modifies this, sender
      ensures Valid() && sent == old(sent) + [Pong(payload)]
      ensures old(sender.status).Open? ==>
                && sender.queuedBytes == old(sender.queuedBytes) + |Wire(receiver.mode, Pong(payload))|
                && (sender.status.Open? <==> sender.queuedBytes <= sender.limit)
    {
      hide Parse, First, WireAll, BasePeer.Valid, TlsPeer.Valid, WS.Frame;
      sender.SendWebsocketFrame(WS.PONG, payload, false);
      WireAllAppend(receiver.mode, sent, Pong(payload));
      sent := sent + [Pong(payload)];
    }

    /** The stream takes some more bytes of the message in flight. */
    ghost method Transfer(n: nat)
      requires Valid() && sender.status.Open? && sender.writeInFlight && sender.progress + n <= |sender.queue[0].data|
      modifies sender`wire, sender`progress
      ensures Valid() && sender.progress == old(sender.progress) + n
    {
      hide Parse, WireAll, BasePeer.Valid;
      sender.Transfer(n);
    }

    method FinishWrite(failed: bool)
      requires Valid() && sender.writeInFlight && (!failed ==> sender.progress == |sender.queue[0].data|)
      modifies sender
      ensures Valid() && sender.status != Closed(Normal)
      ensures old(sender.status).Open? && !failed ==> sender.status.Open? && |sender.queue| == |old(sender.queue)| - 1
      ensures sender.wire == old(sender.wire) && sender.submitted == old(sender.submitted)
    {
      hide Parse, WireAll, BasePeer.Valid;
      assert sender.queue[0] in sender.queue;
      sender.FinishWrite(failed);
    }

    /** Completed writes, as long as something is queued, put all of it on the wire. */
    method Flush()
      requires Valid() && sender.status.Open?
      modifies sender
      ensures Valid() && sender.status.Open? && sender.wire == sender.submitted == old(sender.submitted)
    {
      hide Parse, WireAll, BasePeer.Valid;
      while sender.writeInFlight
        invariant Valid() && sender.status.Open? && sender.submitted == old(sender.submitted)
        decreases |sender.queue|
      {
        Transfer(|sender.queue[0].data| - sender.progress);
        FinishWrite(false);
      }
    }

    /** The next bytes on the wire reach the receiver, which goes on reading. */
    method Deliver(chunk: seq<byte>)
      requires Valid() && receiver.status.Open?
      requires chunk != [] && receiver.received + chunk <= sender.wire
      requires |chunk| <= receiver.rxBuffer.Length - receiver.rxBytes
      modifies receiver, receiver.rxBuffer
      ensures Valid() && receiver.status.Open? && receiver.received == old(receiver.received) + chunk
    {
      hide Parse, WireAll;
      NeverGivesUp(receiver.mode, receiver.rxMax, sent, receiver.received + chunk);
      receiver.FinishRead(Received(chunk));
    }
  }
}
