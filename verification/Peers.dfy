/** The sending half of a peer over plain TCP: direct sends mixed with buffered ones. */
module Peers {
  import opened Bytes
  import opened DynamicBuffers
  import opened Framing
  import SP = StreamingProtocol
  import WS = WebSocketProtocol

  /** What a non-blocking send does: it takes as many bytes as there is room for, none at all when it
      would block, or fails. */
  datatype Socket = Accepts(room: nat) | Fails

  /** Whole blocks fill the limit but for less than one. */
  lemma BlocksFill(limit: nat, block: nat, n: nat)
    requires block == (if limit < 65536 then limit else 65536)
    requires if block > 0 then n * block <= limit < (n + 1) * block else n == 0
    ensures limit - 65536 < n * block <= limit && (limit < 65536 ==> n * block == limit)
  {
    assert (n + 1) * block == n * block + block;
  }

  class Peer {
    const mode: Mode
    const tx: DynamicBuffer
    var waitingTx: bool
    var shutdownWhenEmpty: bool
    var status: Status
    /** Every frame passed to Write, concatenated. */
    ghost var submitted: seq<byte>
    /** Every byte the socket accepted. */
    ghost var wire: seq<byte>
    /** Whether a frame to shut down after was written while the peer was open. */
    ghost var shutdownAsked: bool

    /** The outgoing stream law. While the peer is open, what is on the wire and what is buffered make
        up the frames written, and a write wait is active exactly when something is buffered; once it was
        asked to shut down it is open only as long as something is. Whatever happened, the wire holds a
        prefix of the frames written, and no peer shuts down that was not asked to. */
    ghost predicate Valid()
      reads this, tx, tx.blocks
    {
      && tx.Valid()
      && wire <= submitted
      && (status.Open? ==>
            && submitted == wire + tx.Contents()
            && (waitingTx <==> tx.Contents() != [])
            && (shutdownWhenEmpty <==> shutdownAsked)
            && (shutdownAsked ==> tx.Contents() != []))
      && (status == Closed(Normal) ==> shutdownAsked)
    }

    constructor (mode: Mode, txBufferSize: nat)
      ensures this.mode == mode && Valid() && status == Open && submitted == wire == [] && !waitingTx && !shutdownAsked
      ensures fresh(tx) && tx.blocks == []
      ensures txBufferSize - 65536 < Room() <= txBufferSize && (txBufferSize < 65536 ==> Room() == txBufferSize)
    {
      this.mode := mode;
      var buffer := new DynamicBuffer(txBufferSize, 64 * 1024);
      BlocksFill(txBufferSize, buffer.blockSize, buffer.maxBlocks);
      buffer.EmptyUsesNone();
      hide DynamicBuffer.Stored, DynamicBuffer.Contents;
      tx := buffer;
      waitingTx, shutdownWhenEmpty, status := false, false, Open;
      submitted, wire, shutdownAsked := [], [], false;
    }

    /** The bytes the transmit buffer can still take. */
    ghost function Room(): int
      reads tx
    {
      tx.maxBlocks * tx.blockSize - tx.size - tx.readOffset
    }

    method Close(reason: CloseReason)
      modifies this`status
      ensures status == if old(status).Open? then Closed(reason) else old(status)
    {
      if status.Open? {
        status := Closed(reason);
      }
    }

    /** What a peer does with a frame: it goes directly to the socket as far as that takes it, unless buffered
        bytes are ahead of it or the socket fails, and the rest is buffered, if there is room. */
    twostate predicate Handled(frame: seq<byte>, shutdownAfter: bool, socket: Socket)
      reads this, tx
    {
      var direct := if old(waitingTx) || socket.Fails? then 0 else Min(socket.room, |frame|);
      && submitted == old(submitted) + frame
      && wire == old(wire) + frame[..direct]
      && shutdownAsked == (old(shutdownAsked) || (old(status).Open? && shutdownAfter))
      && (old(status).Closed? ==> status == old(status))
      && (old(status).Open? ==>
            && status == (if !old(waitingTx) && socket.Fails? then Closed(SocketError)
                          else if !old(waitingTx) && direct == |frame|
                          then if shutdownAfter then Closed(Normal) else Open
                          else if |frame| - direct > old(Room()) then Closed(NoBufferSpace)
                          else Open)
            && (status.Open? ==> Room() == old(Room()) - (|frame| - direct)))
    }

    /** Sends a frame: directly as far as the socket takes it, unless buffered bytes are ahead of it. */
    method Write(frame: seq<byte>, shutdownAfter: bool, socket: Socket)
      requires Valid() && (status.Closed? ==> socket.Fails?)
      modifies this, tx, tx.blocks
      ensures Valid() && forall b | b in tx.blocks :: b in old(tx.blocks) || fresh(b)
      ensures Handled(frame, shutdownAfter, socket)
    {
      hide DynamicBuffer.Stored, DynamicBuffer.Contents, Concat, Pieces, Offsets, DynamicBuffers.Sized;
      submitted := submitted + frame;
      shutdownAsked := shutdownAsked || (status.Open? && shutdownAfter);
      if waitingTx {
        Enqueue(frame, shutdownAfter);
        return;
      }
      if socket.Fails? {
        Close(SocketError);
        return;
      }
      var sent := Min(socket.room, |frame|);
      assert frame == frame[..sent] + frame[sent..];
      wire := wire + frame[..sent];
      if sent == |frame| {
        if shutdownAfter {
          Close(Normal);
        }
        return;
      }
      Enqueue(frame[sent..], shutdownAfter);
    }

    /** Buffers bytes and makes sure that a write wait is active. */
    method Enqueue(bytes: seq<byte>, shutdownAfter: bool)
      requires tx.Valid() && wire <= submitted
      requires status.Open? ==> submitted == wire + tx.Contents() + bytes
      requires waitingTx || bytes != []
      requires status.Open? ==> (tx.Contents() != [] <==> waitingTx)
      requires status.Open? ==> (shutdownAsked <==> shutdownWhenEmpty || shutdownAfter) && (shutdownWhenEmpty ==> waitingTx)
      requires status == Closed(Normal) ==> shutdownAsked
      modifies this`status, this`waitingTx, this`shutdownWhenEmpty, tx, tx.blocks
      ensures Valid() && forall b | b in tx.blocks :: b in old(tx.blocks) || fresh(b)
      ensures status == if |bytes| > old(Room()) && old(status).Open? then Closed(NoBufferSpace) else old(status)
      ensures status.Open? ==> shutdownWhenEmpty == (old(shutdownWhenEmpty) || shutdownAfter)
      ensures status.Open? ==> Room() == old(Room()) - |bytes|
    {
      var accepted := tx.Write(bytes);
      if accepted < |bytes| {
        Close(NoBufferSpace);
        return;
      }
      assert bytes[..accepted] == bytes;
      if shutdownAfter {
        shutdownWhenEmpty := true;
      }
      if !waitingTx {
        waitingTx := true;
      }
    }

    /** The handler of a completed write wait. */
    method FinishWaitTx(waitFailed: bool, socket: Socket)
      requires Valid() && waitingTx && (status.Closed? ==> waitFailed || socket.Fails?)
      modifies this, tx
      ensures Valid() && forall b | b in tx.blocks :: b in old(tx.blocks)
      ensures submitted == old(submitted) && old(wire) <= wire && shutdownAsked == old(shutdownAsked)
      ensures old(status).Closed? ==> status == old(status) && wire == old(wire)
      ensures Room() >= old(Room())
      ensures old(status).Open? && (waitFailed || socket.Fails?) ==>
                status == Closed(SocketError) && wire == old(wire)
      ensures old(status).Open? && !waitFailed && socket.Accepts? ==>
                && |wire| - |old(wire)| <= socket.room
                && (socket.room > 0 ==> |wire| > |old(wire)|)
                && (old(tx.used) <= MAX_BUFFERS ==> |wire| - |old(wire)| == Min(socket.room, |old(tx.Contents())|))
                && status == if wire == submitted && shutdownAsked then Closed(Normal) else Open
    {
      waitingTx := false;
      if waitFailed || socket.Fails? {
        Close(SocketError);
        return;
      }
      SendBuffered(socket.room);
      if shutdownWhenEmpty && tx.Empty() {
        Close(Normal);
        return;
      }
      if !tx.Empty() {
        waitingTx := true;
      }
    }

    /** Offers the buffered bytes to the socket and drops from the buffer what it took. */
    method SendBuffered(room: nat)
      requires tx.Valid()
      modifies this`wire, tx
      ensures tx.Valid() && forall b | b in tx.blocks :: b in old(tx.blocks)
      ensures old(wire) <= wire && old(wire + tx.Contents()) == wire + tx.Contents()
      ensures |wire| - |old(wire)| <= room
      ensures room > 0 && old(tx.Contents()) != [] ==> |wire| > |old(wire)|
      ensures old(tx.used) <= MAX_BUFFERS ==> |wire| - |old(wire)| == Min(room, |old(tx.Contents())|)
      ensures Room() >= old(Room())
    {
      hide Described, InBounds, Pieces, Concat, DynamicBuffer.Stored, DynamicBuffer.Shape;
      var gather := tx.Data();
      ghost var offered := Described(gather, tx.image, tx.blockSize);
      ghost var contents := tx.Contents();
      DescribedSize(gather, tx.image, tx.blockSize);
      var sent := Min(room, Total(gather));
      wire := wire + offered[..sent];
      tx.Consume(sent);
      assert contents == offered[..sent] + contents[sent..];
    }

    /** Sends a packet: its header and payload as they are, or in one binary WebSocket frame. */
    method SendPacket(signo: uint32, kind: uint32, payload: seq<byte>, socket: Socket) returns (thrown: bool)
      requires Valid() && (status.Closed? ==> socket.Fails?) && |payload| < 0x1_0000_0000_0000_0000 - 8
      modifies this, tx, tx.blocks
      ensures Valid() && forall b | b in tx.blocks :: b in old(tx.blocks) || fresh(b)
      ensures var h := SP.HeaderBytes(signo, kind, |payload|);
              && (thrown <==> h.TooLarge?)
              && (!thrown ==>
                    Handled(if mode.DirectTcp? then h.bytes + payload else WS.Frame(2, h.bytes + payload, []), false, socket))
      ensures thrown ==> wire == old(wire) && submitted == old(submitted) && status == old(status)
      ensures thrown ==> shutdownAsked == old(shutdownAsked)
    {
      var header := new byte[SP.MAX_HEADER_SIZE];
      var size: nat;
      thrown, size := SP.GenerateHeader(header, signo, kind, |payload|);
      if thrown {
        return;
      }
      var packet := header[..size] + payload;
      if mode.DirectTcp? {
        Write(packet, false, socket);
      } else {
        SendWebsocketFrame(WS.BINARY, packet, false, socket);
      }
    }

    method SendWebsocketFrame(opcode: uint32, payload: seq<byte>, shutdownAfter: bool, socket: Socket)
      requires Valid() && (status.Closed? ==> socket.Fails?) && |payload| < 0x1_0000_0000_0000_0000
      modifies this, tx, tx.blocks
      ensures Valid() && forall b | b in tx.blocks :: b in old(tx.blocks) || fresh(b)
      ensures Handled(WS.Frame(opcode, payload, []), shutdownAfter, socket)
    {
      var header := new byte[WS.MAX_HEADER_SIZE];
      var size := WS.GenerateHeader(header, opcode, WS.FIN, |payload|);
      Write(header[..size] + payload, shutdownAfter, socket);
    }
  }
}
