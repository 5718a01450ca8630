/** The receiving half of a peer: it reassembles packets out of whatever the reads deliver. */
module BasePeers {
  import opened Bytes
  import opened Framing
  import SP = StreamingProtocol
  import WS = WebSocketProtocol

  const INITIAL_RX_BUFFER_SIZE := 64 * 1024

  /** How a read ends: with an error, with some bytes, or (no bytes) at the end of the stream. */
  datatype ReadOutcome = ReadFailed | Received(chunk: seq<byte>)

  class BasePeer {
    const mode: Mode
    const rxMax: nat
    var rxBuffer: array<byte>
    var rxBytes: nat
    var reading: bool
    var status: Status
    /** Every byte received. */
    ghost var received: seq<byte>
    /** Everything handled. */
    var events: seq<Event>

    ghost predicate Sized()
      reads this
    {
      0 < rxBuffer.Length <= rxMax && rxBytes <= rxBuffer.Length
    }

    /** What was handled, and what is left in the buffer, is the greedy parse of everything received;
        and a read is issued only when there is room for it. */
    ghost predicate Valid()
      reads this, rxBuffer
    {
      && Sized()
      && events == Parse(mode, received).events
      && (reading && status.Open? ==>
            && !Parse(mode, received).refused
            && rxBuffer[..rxBytes] == Parse(mode, received).rest
            && rxBytes < rxBuffer.Length)
      && (!reading && status.Open? ==> received == [] && rxBytes == 0)
    }

    constructor (mode: Mode, rxBufferSize: nat)
      requires rxBufferSize > 0
      ensures this.mode == mode && rxMax == rxBufferSize && fresh(rxBuffer)
      ensures rxBuffer.Length == if rxBufferSize < 65536 then rxBufferSize else 65536
      ensures Valid() && status == Open && !reading && received == [] && events == []
    {
      this.mode, rxMax := mode, rxBufferSize;
      rxBuffer := new byte[Min(INITIAL_RX_BUFFER_SIZE, rxBufferSize)];
      rxBytes, reading, status := 0, false, Open;
      received, events := [], [];
    }

    method Close(reason: CloseReason)
      modifies this`status
      ensures status == if old(status).Open? then Closed(reason) else old(status)
    {
      if status.Open? {
        status := Closed(reason);
      }
    }

    /** Doubles the buffer, up to its maximum; what it holds stays. */
    method GrowRxBuffer() returns (grown: bool)
      requires Sized()
      modifies this`rxBuffer
      ensures Sized() && rxBuffer[..rxBytes] == old(rxBuffer[..rxBytes])
      ensures grown <==> old(rxBuffer.Length) < rxMax
      ensures rxBuffer.Length == Min(2 * old(rxBuffer.Length), rxMax) || !grown
      ensures if grown then fresh(rxBuffer) else rxBuffer == old(rxBuffer)
    {
      if rxBuffer.Length >= rxMax {
        return false;
      }
      var larger := new byte[Min(rxBuffer.Length * 2, rxMax)];
      forall i | 0 <= i < rxBuffer.Length {
        larger[i] := rxBuffer[i];
      }
      rxBuffer := larger;
      return true;
    }

    /** Starts reading. */
    method Run()
      requires Valid() && status.Open? && !reading
      modifies this`reading
      ensures Valid() && reading
    {
      NothingParses();
      reading := true;
    }

    lemma NothingParses()
      ensures Parse(mode, []) == Parsed([], [], false)
    {
    }

    /** Starts with data an earlier layer received already. */
    method RunWithData(data: seq<byte>)
      requires Valid() && status.Open? && !reading
      modifies this, rxBuffer
      ensures Valid() && (rxBuffer == old(rxBuffer) || fresh(rxBuffer))
      ensures |data| > rxMax <==> received == [] && data != [] && status == Closed(NoBufferSpace)
      ensures |data| <= rxMax ==>
                && received == data
                && var p := Parse(mode, data);
                status == (if p.refused then Closed(NotSupported) else if |p.rest| == rxMax then Closed(NoBufferSpace) else Open)
                && (status.Open? ==> reading)
    {
      hide Parse, First;
      NothingParses();
      var grown := true;
      while |data| > rxBuffer.Length && grown
        invariant Sized() && rxBytes == 0 && status.Open? && events == [] && received == []
        invariant rxBuffer == old(rxBuffer) || fresh(rxBuffer)
        invariant !grown ==> rxBuffer.Length == rxMax
        decreases rxMax - rxBuffer.Length, grown
      {
        grown := GrowRxBuffer();
      }
      if |data| > rxBuffer.Length {
        Close(NoBufferSpace);
        return;
      }
      forall i | 0 <= i < |data| {
        rxBuffer[i] := data[i];
      }
      rxBytes := |data|;
      received := data;
      assert rxBuffer[..rxBytes] == data;
      ProcessBuffer();
    }

    /** A peer that gives up for lack of space was sent a unit it could never have held: whatever
        completes the bytes waiting, header and payload together exceed the maximum. */
    lemma GivesUpOnlyOnOversizedUnits(more: seq<byte>)
      requires !Parse(mode, received).refused && |Parse(mode, received).rest| == rxMax
      ensures var rest := Parse(mode, received).rest;
              First(mode, rest + more).Complete? ==> First(mode, rest + more).size > rxMax
    {
      RestIncomplete(mode, received);
      UnitExceedsRest(mode, Parse(mode, received).rest, more);
    }

    /** Whether the peer goes on after a parse: not after a refused frame, nor when a full maximum's
        worth of one unit is waiting. */
    ghost function Outcome(p: Parsed): Status {
      if p.refused then Closed(NotSupported)
      else if |p.rest| == rxMax then Closed(NoBufferSpace)
      else Open
    }

    /** The handler of a completed read. */
    method FinishRead(outcome: ReadOutcome)
      requires Valid() && reading
      requires outcome.Received? ==> status.Open? && |outcome.chunk| <= rxBuffer.Length - rxBytes
      modifies this, rxBuffer
      ensures Valid() && (rxBuffer == old(rxBuffer) || fresh(rxBuffer))
      ensures received == if outcome.ReadFailed? then old(received) else old(received) + outcome.chunk
      ensures old(status).Closed? ==> status == old(status)
      ensures old(status).Open? ==>
                status == if outcome.ReadFailed? then Closed(SocketError)
                          else if outcome.chunk == [] then Closed(Normal)
                          else if Parse(mode, received).refused then Closed(NotSupported)
                          else if |Parse(mode, received).rest| == rxMax then Closed(NoBufferSpace)
                          else Open
      ensures status.Open? ==> reading
    {
      hide Parse, First;
      reading := false;
      if outcome.ReadFailed? {
        Close(SocketError);
        return;
      }
      if outcome.chunk == [] {
        Close(Normal);
        assert received + [] == received;
        return;
      }
      ghost var before := received;
      forall i | 0 <= i < |outcome.chunk| {
        rxBuffer[rxBytes + i] := outcome.chunk[i];
      }
      rxBytes := rxBytes + |outcome.chunk|;
      received := received + outcome.chunk;
      assert rxBuffer[..rxBytes] == Parse(mode, before).rest + outcome.chunk;
      ParseAppend(mode, before, outcome.chunk);
      ProcessBuffer();
    }

    /** Handles what is in the buffer, keeps what is left over, and reads on. */
    method ProcessBuffer()
      requires Sized() && status.Open?
      modifies this`events, this`rxBuffer, this`rxBytes, this`reading, this`status, rxBuffer
      ensures Sized() && (rxBuffer == old(rxBuffer) || fresh(rxBuffer))
      ensures var p := Parse(mode, old(rxBuffer[..rxBytes]));
              && events == old(events) + p.events
              && status == Outcome(p)
              && (status.Open? ==> reading && rxBuffer[..rxBytes] == p.rest && rxBytes < rxBuffer.Length)
    {
      if mode.DirectTcp? {
        ProcessBufferTcp();
      } else {
        ProcessBufferWs();
      }
    }

    method ProcessBufferTcp()
      requires Sized() && status.Open? && mode.DirectTcp?
      modifies this`events, this`rxBuffer, this`rxBytes, this`reading, this`status, rxBuffer
      ensures Sized() && (rxBuffer == old(rxBuffer) || fresh(rxBuffer))
      ensures var p := Parse(mode, old(rxBuffer[..rxBytes]));
              && events == old(events) + p.events
              && status == Outcome(p)
              && (status.Open? ==> reading && rxBuffer[..rxBytes] == p.rest && rxBytes < rxBuffer.Length)
    {
      hide Parse, First, OnTrack;
      ghost var d, done := rxBuffer[..rxBytes], [];
      TrackStart(mode, d);
      var offset: nat := 0;
      while true
        invariant offset <= rxBytes && events == old(events) + done && OnTrack(mode, d, offset, done)
        modifies this`events
        decreases rxBytes - offset
      {
        assert rxBuffer[offset..rxBytes] == d[offset..];
        var consumed := ProcessPacket(offset, rxBytes - offset);
        if consumed == 0 {
          break;
        }
        TrackStep(mode, d, offset, done);
        done := done + First(mode, d[offset..]).events;
        offset := offset + consumed;
      }
      TrackEnd(mode, d, offset, done);
      SlideAndGoOn(offset);
    }

    method ProcessBufferWs()
      requires Sized() && status.Open? && mode.WebSocket?
      modifies this`events, this`rxBuffer, this`rxBytes, this`reading, this`status, rxBuffer
      ensures Sized() && (rxBuffer == old(rxBuffer) || fresh(rxBuffer))
      ensures var p := Parse(mode, old(rxBuffer[..rxBytes]));
              && events == old(events) + p.events
              && status == Outcome(p)
              && (status.Open? ==> reading && rxBuffer[..rxBytes] == p.rest && rxBytes < rxBuffer.Length)
    {
      hide Parse, First, OnTrack;
      ghost var d, done := rxBuffer[..rxBytes], [];
      TrackStart(mode, d);
      var offset: nat := 0;
      while true
        invariant offset <= rxBytes && events == old(events) + done && OnTrack(mode, d, offset, done)
        invariant rxBuffer[offset..rxBytes] == d[offset..] && status.Open?
        modifies this`events, this`status, rxBuffer
        decreases rxBytes - offset
      {
        ghost var before := rxBuffer[..];
        assert before[offset..rxBytes] == d[offset..];
        var consumed, refused := ProcessFrame(offset, rxBytes - offset);
        if consumed == 0 {
          break;
        }
        if refused {
          TrackEnd(mode, d, offset, done);
          Close(NotSupported);
          return;
        }
        TrackStep(mode, d, offset, done);
        done := done + First(mode, d[offset..]).events;
        assert rxBuffer[offset + consumed..rxBytes] == d[offset + consumed..] by {
          assert rxBuffer[offset + consumed..] == before[offset + consumed..];
          assert rxBuffer[offset + consumed..rxBytes] == rxBuffer[offset + consumed..][..rxBytes - (offset + consumed)];
          assert before[offset + consumed..rxBytes] == before[offset + consumed..][..rxBytes - (offset + consumed)];
          assert before[offset..rxBytes][consumed..] == before[offset + consumed..rxBytes];
          assert d[offset..][consumed..] == d[offset + consumed..];
        }
        offset := offset + consumed;
      }
      TrackEnd(mode, d, offset, done);
      SlideAndGoOn(offset);
    }

    /** One turn of the loop above: decodes and handles one frame, if it is complete. */
    method ProcessFrame(begin: nat, size: nat) returns (consumed: nat, refused: bool)
      requires begin + size <= rxBuffer.Length
      modifies this`events, rxBuffer
      ensures var u := First(WebSocket, old(rxBuffer[begin..begin + size]));
              && (consumed == 0 <==> u.Incomplete?)
              && (!u.Complete? ==> events == old(events))
              && (u.Refused? ==> refused)
              && (u.Complete? ==> !refused && consumed == u.size && events == old(events) + u.events)
      ensures consumed <= size && rxBuffer[begin + consumed..] == old(rxBuffer[begin + consumed..])
    {
      hide FrameEvents, Unmasked, WS.Decode;
      var header := WS.DecodeHeader(rxBuffer, begin, size);
      if header.headerSize == 0 {
        return 0, false;
      }
      SubSlice(rxBuffer, begin, size, header.headerSize, header.headerSize + header.payloadSize);
      ghost var at := begin + header.headerSize;
      FrameEventsAre(header.opcode, Unmasked(header, rxBuffer[at..at + header.payloadSize]));
      refused := ProcessWebsocketFrame(header, begin + header.headerSize, header.payloadSize);
      consumed := header.headerSize + header.payloadSize;
    }

    /** Slides the one incomplete unit left to the front, makes room if it fills the buffer, and reads. */
    method SlideAndGoOn(offset: nat)
      requires Sized() && status.Open? && offset <= rxBytes
      modifies this`rxBuffer, this`rxBytes, this`reading, this`status, rxBuffer
      ensures Sized() && (rxBuffer == old(rxBuffer) || fresh(rxBuffer))
      ensures rxBytes == old(rxBytes) - offset && rxBuffer[..rxBytes] == old(rxBuffer[offset..rxBytes])
      ensures status == if rxBytes == rxMax then Closed(NoBufferSpace) else Open
      ensures status.Open? ==> reading && rxBytes < rxBuffer.Length
    {
      if offset > 0 {
        rxBytes := rxBytes - offset;
        forall i | 0 <= i < rxBytes {
          rxBuffer[i] := rxBuffer[offset + i];
        }
      }
      if rxBytes == rxBuffer.Length {
        var grown := GrowRxBuffer();
        if !grown {
          Close(NoBufferSpace);
          return;
        }
      }
      reading := true;
    }

    /** Handles one frame, unmasking it in place; refuses a frame that is only part of a message. */
    method ProcessWebsocketFrame(header: WS.Header, begin: nat, size: nat) returns (refused: bool)
      requires begin + size <= rxBuffer.Length && |header.key| == 4
      requires forall i | 0 <= i < 4 :: 0 <= header.key[i] < 256
      modifies this`events, rxBuffer
      ensures refused <==> header.flags < 128
      ensures refused ==> events == old(events)
      ensures !refused ==>
                var payload := Unmasked(header, old(rxBuffer[begin..begin + size]));
                events == old(events) + if header.opcode == 8 then [Reply(8, [], true)]
                                        else if header.opcode == 9 then [Reply(10, payload, false)]
                                        else if header.opcode == 2 then Packets(payload)
                                        else []
      ensures rxBuffer[..begin] == old(rxBuffer[..begin]) && rxBuffer[begin + size..] == old(rxBuffer[begin + size..])
    {
      if header.flags < WS.FIN {
        return true;
      }
      if header.masked {
        Unmask(begin, size, header.key);
      }
      if header.opcode == WS.CLOSE {
        events := events + [Reply(WS.CLOSE, [], true)];
      } else if header.opcode == WS.PING {
        events := events + [Reply(WS.PONG, rxBuffer[begin..begin + size], false)];
      } else if header.opcode == WS.BINARY {
        ProcessPackets(begin, size);
      }
      return false;
    }

    method Unmask(begin: nat, size: nat, key: seq<byte>)
      requires begin + size <= rxBuffer.Length && |key| == 4
      modifies rxBuffer
      ensures rxBuffer[begin..begin + size] == WS.Masked(old(rxBuffer[begin..begin + size]), key)
      ensures forall i, k | 0 <= i < size && 0 <= k < 8 ::
                Bit(rxBuffer[begin + i], k) == if Bit(WS.Repeated(key, size)[i], k) == 1 then 1 - old(Bit(rxBuffer[begin + i], k))
                                               else old(Bit(rxBuffer[begin + i], k))
      ensures rxBuffer[..begin] == old(rxBuffer[..begin]) && rxBuffer[begin + size..] == old(rxBuffer[begin + size..])
    {
      var i := 0;
      while i < size
        invariant i <= size
        invariant forall j | 0 <= j < i :: rxBuffer[begin + j] == XorByte(old(rxBuffer[begin + j]), key[j % 4])
        invariant forall j | 0 <= j < begin || begin + i <= j < rxBuffer.Length :: rxBuffer[j] == old(rxBuffer[j])
      {
        rxBuffer[begin + i] := XorByte(rxBuffer[begin + i], key[i % 4]);
        i := i + 1;
      }
      ghost var before, after := old(rxBuffer[begin..begin + size]), rxBuffer[begin..begin + size];
      forall i, k | 0 <= i < size && 0 <= k < 8
        ensures Bit(after[i], k) == if Bit(WS.Repeated(key, size)[i], k) == 1 then 1 - Bit(before[i], k) else Bit(before[i], k)
      {
        WS.MaskedBits(before, key, i, k);
      }
    }

    /** Handles the complete packets in the payload of a binary frame. */
    method ProcessPackets(begin: nat, size: nat)
      requires begin + size <= rxBuffer.Length
      modifies this`events
      ensures events == old(events) + Packets(rxBuffer[begin..begin + size])
    {
      hide First, Packets;
      ghost var d, done := rxBuffer[begin..begin + size], [];
      var offset: nat := 0;
      assert d[0..] == d;
      var consumed := 1;
      while consumed != 0
        invariant offset <= size && events == old(events) + done
        invariant Packets(d) == done + if consumed != 0 then Packets(d[offset..]) else []
        decreases size - offset, consumed
      {
        SubSlice(rxBuffer, begin, size, offset, size);
        PacketsStep(d[offset..]);
        ghost var u := First(DirectTcp, d[offset..]);
        consumed := ProcessPacket(begin + offset, size - offset);
        if consumed != 0 {
          assert d[offset..][consumed..] == d[offset + consumed..];
          assert done + (u.events + Packets(d[offset + consumed..])) == (done + u.events) + Packets(d[offset + consumed..]);
          done := done + u.events;
        }
        offset := offset + consumed;
      }
    }

    /** Handles one packet, if it is complete, and says how many bytes it took. */
    method ProcessPacket(begin: nat, size: nat) returns (consumed: nat)
      requires begin + size <= rxBuffer.Length
      modifies this`events
      ensures var u := First(DirectTcp, rxBuffer[begin..begin + size]);
              if u.Complete? then consumed == u.size && events == old(events) + u.events
              else consumed == 0 && events == old(events)
    {
      var header := SP.DecodeHeader(rxBuffer, begin, size);
      if header.headerSize == 0 {
        return 0;
      }
      var at, end := begin + header.headerSize, begin + header.headerSize + header.payloadSize;
      SubSlice(rxBuffer, begin, size, header.headerSize, header.headerSize + header.payloadSize);
      if header.kind == SP.DATA {
        events := events + [Data(header.signo, rxBuffer[at..end])];
      } else if header.kind == SP.METADATA {
        events := events + [Metadata(header.signo, rxBuffer[at..end])];
      }
      return header.headerSize + header.payloadSize;
    }
  }
}
