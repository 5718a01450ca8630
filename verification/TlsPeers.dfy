/** The sending half of a peer over TLS: whole frames in a bounded queue, one write at a time. */
module TlsPeers {
  import opened Bytes
  import opened Framing
  import SP = StreamingProtocol
  import WS = WebSocketProtocol

  datatype Message = Message(data: seq<byte>, shutdownAfter: bool)

  function QueuedSize(queue: seq<Message>): nat {
    if queue == [] then 0 else |queue[0].data| + QueuedSize(queue[1..])
  }

  function QueuedBytes(queue: seq<Message>): seq<byte> {
    if queue == [] then [] else queue[0].data + QueuedBytes(queue[1..])
  }

  lemma {:induction false} QueuePush(queue: seq<Message>, m: Message)
    ensures QueuedSize(queue + [m]) == QueuedSize(queue) + |m.data|
    ensures QueuedBytes(queue + [m]) == QueuedBytes(queue) + m.data
  {
    if queue == [] {
      assert QueuedSize([m][1..]) == 0 && QueuedBytes([m][1..]) == [];
    } else {
      assert (queue + [m])[1..] == queue[1..] + [m];
      QueuePush(queue[1..], m);
    }
  }

  /** A frame to shut down after is queued. */
  predicate EndsIn(queue: seq<Message>) {
    exists m :: m in queue && m.shutdownAfter
  }

  lemma EndsPush(queue: seq<Message>, m: Message)
    ensures EndsIn(queue + [m]) <==> EndsIn(queue) || m.shutdownAfter
  {
    forall x | x in queue + [m] && x.shutdownAfter ensures EndsIn(queue) || m.shutdownAfter {
      assert x in queue || x == m;
    }
    forall x | x in queue && x.shutdownAfter ensures EndsIn(queue + [m]) {
      assert x in queue + [m];
    }
    assert m in queue + [m];
  }

  /** What was submitted is on the wire or queued, and a shutdown asked for is still to come. */
  predicate Accounted(queue: seq<Message>, progress: nat, wire: seq<byte>, submitted: seq<byte>, shutdownAsked: bool) {
    && progress <= |QueuedBytes(queue)| && submitted == wire + QueuedBytes(queue)[progress..]
    && (shutdownAsked <==> EndsIn(queue))
  }

  lemma AccountedPush(queue: seq<Message>, m: Message, progress: nat, wire: seq<byte>, submitted: seq<byte>, asked: bool)
    requires Accounted(queue, progress, wire, submitted, asked)
    ensures QueuedSize(queue + [m]) == QueuedSize(queue) + |m.data|
    ensures Accounted(queue + [m], progress, wire, submitted + m.data, asked || m.shutdownAfter)
    ensures wire <= submitted + m.data
    ensures queue + [m] != [] && (queue != [] ==> (queue + [m])[0] == queue[0])
  {
    QueuePush(queue, m);
    EndsPush(queue, m);
    assert QueuedBytes(queue + [m])[progress..] == QueuedBytes(queue)[progress..] + m.data;
    hide QueuedBytes, EndsIn, QueuedSize;
  }

  lemma AccountedTransfer(queue: seq<Message>, progress: nat, n: nat, wire: seq<byte>, submitted: seq<byte>, asked: bool)
    requires Accounted(queue, progress, wire, submitted, asked) && queue != [] && progress + n <= |queue[0].data|
    ensures var more := wire + queue[0].data[progress..progress + n];
            Accounted(queue, progress + n, more, submitted, asked) && more <= submitted
  {
    var bytes := QueuedBytes(queue);
    assert bytes[progress..progress + n] == queue[0].data[progress..progress + n];
    assert bytes[progress..] == bytes[progress..progress + n] + bytes[progress + n..];
    hide QueuedBytes, EndsIn;
  }

  lemma QueueFront(queue: seq<Message>)
    requires queue != []
    ensures |queue[0].data| <= |QueuedBytes(queue)|
  {
  }

  class TlsPeer {
    const mode: Mode
    const limit: nat
    var queue: seq<Message>
    var queuedBytes: nat
    var writeInFlight: bool
    var status: Status
    /** Every frame passed to Write, concatenated. */
    ghost var submitted: seq<byte>
    /** Every byte the stream accepted. */
    ghost var wire: seq<byte>
    /** How many bytes of the message in flight the stream accepted. */
    ghost var progress: nat
    /** Whether a frame to shut down after was written while the peer was open. */
    ghost var shutdownAsked: bool

    /** The outgoing stream law: one message is in flight exactly when the queue is not empty, the byte
        count is the size of what is queued and within the limit, and nothing is lost or reordered; once it
        was asked to shut down it is open only as long as the frame in question is queued, and no peer
        shuts down that was not asked to. */
    ghost predicate Valid()
      reads this
    {
      && queuedBytes == QueuedSize(queue)
      && wire <= submitted
      && (writeInFlight ==> queue != [] && progress <= |queue[0].data|)
      && (!writeInFlight ==> progress == 0)
      && (status.Open? ==>
            && (writeInFlight <==> queue != [])
            && queuedBytes <= limit
            && Accounted(queue, progress, wire, submitted, shutdownAsked))
      && (status == Closed(Normal) ==> shutdownAsked)
    }

    constructor (mode: Mode, txBufferSize: nat)
      ensures this.mode == mode && limit == txBufferSize && Valid() && status == Open
      ensures queue == [] && submitted == wire == [] && !shutdownAsked
    {
      this.mode, limit := mode, txBufferSize;
      queue, queuedBytes, writeInFlight, status := [], 0, false, Open;
      submitted, wire, progress, shutdownAsked := [], [], 0, false;
    }

    method Close(reason: CloseReason)
      modifies this`status
      ensures status == if old(status).Open? then Closed(reason) else old(status)
    {
      if status.Open? {
        status := Closed(reason);
      }
    }

    /** What a peer does with a frame: it queues it, unless it is closed, and closes over the limit. */
    twostate predicate Handled(frame: seq<byte>, shutdownAfter: bool)
      reads this
    {
      && submitted == old(submitted) + frame && wire == old(wire)
      && shutdownAsked == (old(shutdownAsked) || (old(status).Open? && shutdownAfter))
      && (old(status).Closed? ==> status == old(status) && queue == old(queue))
      && (old(status).Open? ==>
            && queue == old(queue) + [Message(frame, shutdownAfter)]
            && queuedBytes == old(queuedBytes) + |frame|
            && status == if queuedBytes > limit then Closed(NoBufferSpace) else Open)
    }

    method Write(frame: seq<byte>, shutdownAfter: bool)
      requires Valid()
      modifies this
      ensures Valid() && Handled(frame, shutdownAfter)
    {
      hide QueuedSize, Accounted;
      assert wire <= submitted + frame;
      ghost var before := submitted;
      submitted := submitted + frame;
      if status.Closed? {
        return;
      }
      AccountedPush(queue, Message(frame, shutdownAfter), progress, wire, before, shutdownAsked);
      shutdownAsked := shutdownAsked || shutdownAfter;
      queuedBytes := queuedBytes + |frame|;
      queue := queue + [Message(frame, shutdownAfter)];
      if queuedBytes > limit {
        Close(NoBufferSpace);
      } else if !writeInFlight {
        writeInFlight := true;
      }
    }

    /** Sends a packet: its header and payload as they are, or in one binary WebSocket frame. */
    method SendPacket(signo: uint32, kind: uint32, payload: seq<byte>) returns (thrown: bool)
      requires Valid() && |payload| < 0x1_0000_0000_0000_0000 - 8
      modifies this
      ensures Valid()
      ensures var h := SP.HeaderBytes(signo, kind, |payload|);
              && (thrown <==> h.TooLarge?)
              && (!thrown ==>
                    Handled(if mode.DirectTcp? then h.bytes + payload else WS.Frame(2, h.bytes + payload, []), false))
      ensures thrown ==> submitted == old(submitted) && wire == old(wire) && status == old(status) && queue == old(queue)
      ensures thrown ==> shutdownAsked == old(shutdownAsked)
    {
      var header := new byte[SP.MAX_HEADER_SIZE];
      var size: nat;
      thrown, size := SP.GenerateHeader(header, signo, kind, |payload|);
      if thrown {
        return;
      }
      var packet := header[..size] + payload;
      if mode.DirectTcp? {
        Write(packet, false);
      } else {
        SendWebsocketFrame(WS.BINARY, packet, false);
      }
    }

    method SendWebsocketFrame(opcode: uint32, payload: seq<byte>, shutdownAfter: bool)
      requires Valid() && |payload| < 0x1_0000_0000_0000_0000
      modifies this
      ensures Valid() && Handled(WS.Frame(opcode, payload, []), shutdownAfter)
    {
      var header := new byte[WS.MAX_HEADER_SIZE];
      var size := WS.GenerateHeader(header, opcode, WS.FIN, |payload|);
      Write(header[..size] + payload, shutdownAfter);
    }

    /** The stream takes some more bytes of the message in flight. */
    ghost method Transfer(n: nat)
      requires Valid() && status.Open? && writeInFlight && progress + n <= |queue[0].data|
      modifies this`wire, this`progress
      ensures Valid() && progress == old(progress) + n
      ensures wire == old(wire) + queue[0].data[old(progress)..progress]
    {
      AccountedTransfer(queue, progress, n, wire, submitted, shutdownAsked);
      hide Accounted, QueuedSize;
      wire := wire + queue[0].data[progress..progress + n];
      progress := progress + n;
    }

    /** The handler of a completed write; without an error all of the message was transferred. */
    method FinishWrite(failed: bool)
      requires Valid() && writeInFlight && (!failed ==> progress == |queue[0].data|)
      modifies this
      ensures Valid() && submitted == old(submitted) && wire == old(wire) && shutdownAsked == old(shutdownAsked)
      ensures queue == if failed then old(queue) else old(queue[1..])
      ensures old(status).Closed? ==> status == old(status)
      ensures old(status).Open? ==>
                status == if failed then Closed(SocketError)
                          else if old(queue[0].shutdownAfter) then Closed(Normal)
                          else Open
    {
      writeInFlight := false;
      ghost var sent := progress;
      progress := 0;
      if failed {
        Close(SocketError);
        return;
      }
      var entry := queue[0];
      assert QueuedBytes(queue)[sent..] == QueuedBytes(queue[1..]);
      assert EndsIn(queue) <==> EndsIn(queue[1..]) || entry.shutdownAfter by {
        assert queue == [entry] + queue[1..];
      }
      queue := queue[1..];
      queuedBytes := queuedBytes - |entry.data|;
      if entry.shutdownAfter {
        Close(Normal);
        return;
      }
      if queue != [] {
        writeInFlight := true;
      }
    }
  }
}
