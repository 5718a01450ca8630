/** What a stream of received bytes means: the pure greedy parse that the receiving peer must compute,
    whichever way the bytes arrive, and what the sending peer's frames parse to. */
module Framing {
  import opened Bytes
  import SP = StreamingProtocol
  import WS = WebSocketProtocol

  datatype Mode = DirectTcp | WebSocket

  /** Why a peer closed its connection. */
  datatype CloseReason = Normal | NoBufferSpace | SocketError | NotSupported
  datatype Status = Open | Closed(reason: CloseReason)

  /** What handling received bytes makes happen, in order. */
  datatype Event =
    | Data(signo: nat, payload: seq<byte>)
    | Metadata(signo: nat, payload: seq<byte>)
    | Reply(opcode: nat, payload: seq<byte>, shutdownAfter: bool)

  function PacketEvents(kind: nat, signo: nat, payload: seq<byte>): seq<Event> {
    if kind == SP.DATA then [Data(signo, payload)]
    else if kind == SP.METADATA then [Metadata(signo, payload)]
    else []
  }

  /** The events of the complete packets at the front of a byte string. */
  function Packets(d: seq<byte>): seq<Event>
    decreases |d|
  {
    var h := SP.Decode(d);
    if h.headerSize == 0 then []
    else
      var end := h.headerSize + h.payloadSize;
      PacketEvents(h.kind, h.signo, d[h.headerSize..end]) + Packets(d[end..])
  }

  /** The events of one unmasked frame. */
  function FrameEvents(opcode: nat, payload: seq<byte>): seq<Event> {
    if opcode == WS.CLOSE then [Reply(WS.CLOSE, [], true)]
    else if opcode == WS.PING then [Reply(WS.PONG, payload, false)]
    else if opcode == WS.BINARY then Packets(payload)
    else []
  }

  function Unmasked(h: WS.Header, payload: seq<byte>): seq<byte>
    requires |h.key| == 4
  {
    if h.masked then WS.Masked(payload, h.key) else payload
  }

  /** The first packet or frame of a byte string. A frame without the FIN flag is refused. */
  datatype Unit = Incomplete | Complete(size: nat, events: seq<Event>) | Refused

  function First(mode: Mode, d: seq<byte>): (u: Unit)
    ensures u.Complete? ==> 0 < u.size <= |d|
    ensures mode.DirectTcp? ==> !u.Refused?
  {
    match mode
    case DirectTcp =>
      var h := SP.Decode(d);
      var end := h.headerSize + h.payloadSize;
      if h.headerSize == 0 then Incomplete
      else Complete(end, PacketEvents(h.kind, h.signo, d[h.headerSize..end]))
    case WebSocket =>
      var h := WS.Decode(d);
      var end := h.headerSize + h.payloadSize;
      if h.headerSize == 0 then Incomplete
      else if h.flags < WS.FIN then Refused
      else Complete(end, FrameEvents(h.opcode, Unmasked(h, d[h.headerSize..end])))
  }

  /** The packets of a payload are those of the same bytes sent over direct TCP. */
  lemma PacketsStep(d: seq<byte>)
    ensures var u := First(DirectTcp, d);
            Packets(d) == if u.Complete? then u.events + Packets(d[u.size..]) else []
  {
  }

  datatype Parsed = Parsed(events: seq<Event>, rest: seq<byte>, refused: bool)

  /** The greedy parse: everything complete is handled, and an incomplete unit is left over. */
  function Parse(mode: Mode, d: seq<byte>): Parsed
    decreases |d|
  {
    match First(mode, d)
    case Incomplete => Parsed([], d, false)
    case Refused => Parsed([], d, true)
    case Complete(size, events) =>
      var p := Parse(mode, d[size..]);
      p.(events := events + p.events)
  }

  /** A parse that goes on from events handled already. */
  function Prepend(done: seq<Event>, p: Parsed): Parsed {
    Parsed(done + p.events, p.rest, p.refused)
  }

  lemma PrependTwice(a: seq<Event>, b: seq<Event>, p: Parsed)
    ensures Prepend(a, Prepend(b, p)) == Prepend(a + b, p)
  {
    assert a + (b + p.events) == (a + b) + p.events;
  }

  /** A parsing loop that has handled `done` and stands at `offset`. */
  predicate OnTrack(mode: Mode, d: seq<byte>, offset: nat, done: seq<Event>) {
    offset <= |d| && Parse(mode, d) == Prepend(done, Parse(mode, d[offset..]))
  }

  lemma TrackStart(mode: Mode, d: seq<byte>)
    ensures OnTrack(mode, d, 0, [])
  {
    assert d[0..] == d && [] + Parse(mode, d).events == Parse(mode, d).events;
  }

  lemma TrackStep(mode: Mode, d: seq<byte>, offset: nat, done: seq<Event>)
    requires OnTrack(mode, d, offset, done) && First(mode, d[offset..]).Complete?
    ensures var u := First(mode, d[offset..]);
            OnTrack(mode, d, offset + u.size, done + u.events)
  {
    hide First, Parse;
    ParseStep(mode, d[offset..]);
    var u := First(mode, d[offset..]);
    assert d[offset..][u.size..] == d[offset + u.size..];
    PrependTwice(done, u.events, Parse(mode, d[offset + u.size..]));
  }

  lemma TrackEnd(mode: Mode, d: seq<byte>, offset: nat, done: seq<Event>)
    requires OnTrack(mode, d, offset, done) && !First(mode, d[offset..]).Complete?
    ensures Parse(mode, d) == Parsed(done, d[offset..], First(mode, d[offset..]).Refused?)
  {
    hide First, Parse;
    ParseStep(mode, d[offset..]);
  }

  lemma FirstStable(mode: Mode, d: seq<byte>, tail: seq<byte>)
    requires !First(mode, d).Incomplete?
    ensures First(mode, d + tail) == First(mode, d)
  {
    match mode
    case DirectTcp =>
      SP.DecodeStable(d, tail);
      var h := SP.Decode(d);
      assert (d + tail)[h.headerSize..h.headerSize + h.payloadSize] == d[h.headerSize..h.headerSize + h.payloadSize];
    case WebSocket =>
      WS.DecodeStable(d, tail);
      var h := WS.Decode(d);
      assert (d + tail)[h.headerSize..h.headerSize + h.payloadSize] == d[h.headerSize..h.headerSize + h.payloadSize];
  }

  /** A unit is recognized from its own bytes alone. */
  lemma FirstLocal(mode: Mode, d: seq<byte>)
    requires First(mode, d).Complete?
    ensures First(mode, d[..First(mode, d).size]) == First(mode, d)
  {
    match mode
    case DirectTcp =>
      SP.DecodeLocal(d);
      var h := SP.Decode(d);
      var end := h.headerSize + h.payloadSize;
      assert d[..end][h.headerSize..end] == d[h.headerSize..end];
    case WebSocket =>
      WS.DecodeLocal(d);
      var h := WS.Decode(d);
      var end := h.headerSize + h.payloadSize;
      assert d[..end][h.headerSize..end] == d[h.headerSize..end];
  }

  /** Parsing can stop after any byte and go on from what was left over. */
  lemma {:induction false} ParseAppend(mode: Mode, a: seq<byte>, b: seq<byte>)
    ensures !Parse(mode, a).refused ==>
              var p := Parse(mode, Parse(mode, a).rest + b);
              Parse(mode, a + b) == p.(events := Parse(mode, a).events + p.events)
    ensures Parse(mode, a).refused ==>
              Parse(mode, a + b) == Parse(mode, a).(rest := Parse(mode, a).rest + b)
    decreases |a|
  {
    hide First, Parse;
    ParseStep(mode, a);
    match First(mode, a)
    case Incomplete =>
      var p := Parse(mode, a + b);
      assert [] + p.events == p.events;
    case Refused =>
      FirstStable(mode, a, b);
      ParseStep(mode, a + b);
    case Complete(size, events) =>
      FirstStable(mode, a, b);
      ParseStep(mode, a + b);
      assert (a + b)[size..] == a[size..] + b;
      ParseAppend(mode, a[size..], b);
      var p, q := Parse(mode, a[size..]), Parse(mode, Parse(mode, a[size..]).rest + b);
      assert events + (p.events + q.events) == (events + p.events) + q.events;
  }

  lemma ParseStep(mode: Mode, d: seq<byte>)
    ensures First(mode, d).Incomplete? ==> Parse(mode, d) == Parsed([], d, false)
    ensures First(mode, d).Refused? ==> Parse(mode, d) == Parsed([], d, true)
    ensures First(mode, d).Complete? ==>
              Parse(mode, d) == Prepend(First(mode, d).events, Parse(mode, d[First(mode, d).size..]))
  {
  }

  /** What is left over is an incomplete unit, or nothing, unless a frame was refused. */
  lemma {:induction false} RestIncomplete(mode: Mode, d: seq<byte>)
    ensures |Parse(mode, d).rest| <= |d|
    ensures First(mode, Parse(mode, d).rest) == if Parse(mode, d).refused then Refused else Incomplete
    decreases |d|
  {
    if First(mode, d).Complete? {
      RestIncomplete(mode, d[First(mode, d).size..]);
    }
  }

  /** A unit that is still incomplete is larger than what has arrived of it. */
  lemma UnitExceedsRest(mode: Mode, rest: seq<byte>, more: seq<byte>)
    requires First(mode, rest).Incomplete?
    ensures First(mode, rest + more).Complete? ==> First(mode, rest + more).size > |rest|
  {
    hide First;
    var u := First(mode, rest + more);
    if u.Complete? && u.size <= |rest| {
      FirstLocal(mode, rest + more);
      assert (rest + more)[..u.size] == rest[..u.size];
      assert rest == rest[..u.size] + rest[u.size..];
      FirstStable(mode, rest[..u.size], rest[u.size..]);
    }
  }

  /** Handling one read: the new bytes join what was left over. Nothing is read after a refusal. */
  function Feed(mode: Mode, state: Parsed, chunk: seq<byte>): Parsed {
    if state.refused then state
    else
      var p := Parse(mode, state.rest + chunk);
      p.(events := state.events + p.events)
  }

  function FeedAll(mode: Mode, chunks: seq<seq<byte>>): Parsed {
    if chunks == [] then Parsed([], [], false)
    else Feed(mode, FeedAll(mode, chunks[..|chunks| - 1]), chunks[|chunks| - 1])
  }

  /** Chunking independence: what is handled, and what is left over, depends only on the
      concatenation of everything received, never on how it was split into reads. */
  lemma {:induction false} ChunkingIndependence(mode: Mode, chunks: seq<seq<byte>>)
    ensures FeedAll(mode, chunks).events == Parse(mode, Concat(chunks)).events
    ensures FeedAll(mode, chunks).refused == Parse(mode, Concat(chunks)).refused
    ensures FeedAll(mode, chunks).refused || FeedAll(mode, chunks).rest == Parse(mode, Concat(chunks)).rest
  {
    if chunks != [] {
      var front, last := chunks[..|chunks| - 1], chunks[|chunks| - 1];
      ChunkingIndependence(mode, front);
      assert chunks == front + [last];
      ConcatAppend(front, [last]);
      assert Concat([last]) == last;
      ParseAppend(mode, Concat(front), last);
    }
  }

  /** A masked frame makes the same things happen as its unmasked form. */
  lemma MaskedFrameSameEvents(opcode: uint32, payload: seq<byte>, key: seq<byte>, tail: seq<byte>)
    requires opcode < 16 && |key| == 4 && |payload| < 0x1_0000_0000_0000_0000
    ensures var u, m := WS.Frame(opcode, payload, []), WS.Frame(opcode, payload, key);
            && First(WebSocket, u + tail) == Complete(|u|, FrameEvents(opcode, payload))
            && First(WebSocket, m + tail) == Complete(|m|, FrameEvents(opcode, payload))
  {
    FrameParses(opcode, payload, [], tail);
    FrameParses(opcode, payload, key, tail);
  }

  lemma FrameParses(opcode: uint32, payload: seq<byte>, mask: seq<byte>, tail: seq<byte>)
    requires opcode < 16 && WS.IsMask(mask) && |payload| < 0x1_0000_0000_0000_0000
    ensures var f := WS.Frame(opcode, payload, mask);
            First(WebSocket, f + tail) == Complete(|f|, FrameEvents(opcode, payload))
  {
    var f := WS.Frame(opcode, payload, mask);
    var body := if mask == [] then payload else WS.Masked(payload, mask);
    WS.RoundTrip(opcode, payload, mask, tail);
    var h := WS.Decode(f + tail);
    assert (f + tail)[h.headerSize..h.headerSize + h.payloadSize] == body;
    if mask != [] {
      WS.MaskInvolutive(payload, mask);
    }
  }

  // ----- what frames make happen -----

  /** The bytes of an answer: an unmasked frame. */
  function Answer(e: Event): seq<byte>
    requires e.Reply? && |e.payload| < 0x1_0000_0000_0000_0000
  {
    WS.Frame(e.opcode % 0x1_0000_0000, e.payload, [])
  }

  /** What a frame makes happen, by the opcodes of section 5.2 of RFC 6455: a close (8) and a ping (9) are
      answered, a binary frame (2) carries packets, and any other frame is ignored. */
  lemma FrameMeans(opcode: uint32, payload: seq<byte>, mask: seq<byte>, tail: seq<byte>)
    requires opcode < 16 && WS.IsMask(mask) && |payload| < 0x1_0000_0000_0000_0000
    ensures var f := WS.Frame(opcode, payload, mask);
            First(WebSocket, f + tail) == Complete(|f|,
              if opcode == 8 then [Reply(8, [], true)]
              else if opcode == 9 then [Reply(10, payload, false)]
              else if opcode == 2 then Packets(payload)
              else [])
  {
    FrameParses(opcode, payload, mask, tail);
  }

  lemma FrameEventsAre(opcode: nat, payload: seq<byte>)
    ensures FrameEvents(opcode, payload) ==
            if opcode == 8 then [Reply(8, [], true)]
            else if opcode == 9 then [Reply(10, payload, false)]
            else if opcode == 2 then Packets(payload)
            else []
  {
  }

  /** A ping is answered by one pong, an unmasked frame with the same payload, and nothing is shut down. */
  lemma PingAnswered(payload: seq<byte>, mask: seq<byte>, tail: seq<byte>)
    requires WS.IsMask(mask) && |payload| < 0x1_0000_0000_0000_0000
    ensures var u := First(WebSocket, WS.Frame(9, payload, mask) + tail);
            && u.Complete? && u.size == |WS.Frame(9, payload, mask)| && |u.events| == 1
            && u.events[0].Reply? && !u.events[0].shutdownAfter && |u.events[0].payload| == |payload|
            && Answer(u.events[0]) == [138] + WS.LengthField(false, |payload|) + payload
  {
    hide *;
    FrameMeans(9, payload, mask, tail);
    AnswerLayout(10, payload, false);
  }

  lemma AnswerLayout(opcode: uint32, payload: seq<byte>, shutdownAfter: bool)
    requires opcode < 16 && |payload| < 0x1_0000_0000_0000_0000
    ensures Answer(Reply(opcode, payload, shutdownAfter)) == [128 + opcode] + WS.LengthField(false, |payload|) + payload
  {
    hide WS.Frame, WS.LengthField;
    WS.FrameLayout(opcode, payload, []);
  }

  /** A close is answered by an empty close, after which the connection is shut down. */
  lemma CloseAnswered(payload: seq<byte>, mask: seq<byte>, tail: seq<byte>)
    requires WS.IsMask(mask) && |payload| < 0x1_0000_0000_0000_0000
    ensures var u := First(WebSocket, WS.Frame(8, payload, mask) + tail);
            && u.Complete? && u.size == |WS.Frame(8, payload, mask)| && |u.events| == 1
            && u.events[0].Reply? && u.events[0].shutdownAfter && |u.events[0].payload| == 0
            && Answer(u.events[0]) == [136, 0]
  {
    hide *;
    FrameMeans(8, payload, mask, tail);
    AnswerLayout(8, [], true);
    NoLength();
  }

  lemma NoLength()
    ensures WS.LengthField(false, 0) == [0]
  {
  }

  /** A frame is refused exactly when it is complete and its final-fragment bit is not set. */
  lemma RefusedExactly(d: seq<byte>)
    ensures First(WebSocket, d).Refused? <==> WS.Decode(d).headerSize > 0 && d[0] < 128
    ensures First(WebSocket, d).Incomplete? <==> WS.Decode(d).headerSize == 0
  {
  }

  function EncodeAll(ps: seq<SP.Packet>): seq<byte>
    requires forall p | p in ps :: SP.Sendable(p)
  {
    if ps == [] then [] else SP.Encode(ps[0]) + EncodeAll(ps[1..])
  }

  /** What packets tell: data for type 1, metadata for type 2, nothing for any other type. */
  function Told(ps: seq<SP.Packet>): seq<Event> {
    if ps == [] then []
    else
      var p := ps[0];
      (if p.kind == 1 then [Data(p.signo, p.payload)] else if p.kind == 2 then [Metadata(p.signo, p.payload)] else [])
      + Told(ps[1..])
  }

  /** The payload of a binary frame: any number of packets, handled in order, and perhaps a part of one more,
      which is dropped. */
  lemma {:induction false} PacketsTold(ps: seq<SP.Packet>, last: SP.Packet, n: nat)
    requires forall p | p in ps :: SP.Sendable(p)
    requires SP.Sendable(last) && n < |SP.Encode(last)|
    ensures Packets(EncodeAll(ps) + SP.Encode(last)[..n]) == Told(ps)
  {
    hide Packets, SP.Encode;
    var part := SP.Encode(last)[..n];
    if ps == [] {
      PartDropped(last, n);
      assert EncodeAll(ps) + part == part;
    } else {
      var p, rest := ps[0], EncodeAll(ps[1..]) + part;
      assert EncodeAll(ps) + part == SP.Encode(p) + rest;
      PacketsTold(ps[1..], last, n);
      PacketThen(p, rest);
    }
  }

  lemma PartDropped(last: SP.Packet, n: nat)
    requires SP.Sendable(last) && n < |SP.Encode(last)|
    ensures Packets(SP.Encode(last)[..n]) == []
  {
    SP.ProperPrefixIncomplete(last, n);
  }

  lemma PacketThen(p: SP.Packet, rest: seq<byte>)
    requires SP.Sendable(p)
    ensures Packets(SP.Encode(p) + rest) == PacketEvents(p.kind, p.signo, p.payload) + Packets(rest)
  {
    var d := SP.Encode(p) + rest;
    SP.RoundTrip(p, rest);
    var h := SP.Decode(d);
    hide SP.Decode, SP.HeaderBytes;
    assert d[h.headerSize..h.headerSize + h.payloadSize] == p.payload;
    assert d[h.headerSize + h.payloadSize..] == rest;
  }

  // ----- what the sender puts on the wire -----

  /** What a peer writes: a data or metadata packet, or the answer to a ping. */
  datatype Outgoing = Send(packet: SP.Packet) | Pong(payload: seq<byte>)

  predicate Writable(mode: Mode, o: Outgoing) {
    match o
    case Send(p) => SP.Sendable(p) && (p.kind == SP.DATA || p.kind == SP.METADATA)
    case Pong(payload) => mode.WebSocket? && |payload| < 0x8000_0000
  }

  predicate AllWritable(mode: Mode, os: seq<Outgoing>) {
    forall i | 0 <= i < |os| :: Writable(mode, os[i])
  }

  /** The bytes of one frame (or, in direct TCP mode, packet). */
  function Wire(mode: Mode, o: Outgoing): seq<byte>
    requires Writable(mode, o)
  {
    match o
    case Send(p) => if mode.DirectTcp? then SP.Encode(p) else WS.Frame(WS.BINARY, SP.Encode(p), [])
    case Pong(payload) => WS.Frame(WS.PONG, payload, [])
  }

  /** What the remote peer must handle for it. */
  function Meaning(o: Outgoing): seq<Event> {
    match o
    case Send(p) => PacketEvents(p.kind, p.signo, p.payload)
    case Pong(_) => []
  }

  function WireAll(mode: Mode, os: seq<Outgoing>): seq<byte>
    requires AllWritable(mode, os)
  {
    if os == [] then [] else Wire(mode, os[0]) + WireAll(mode, os[1..])
  }

  function MeaningAll(os: seq<Outgoing>): seq<Event> {
    if os == [] then [] else Meaning(os[0]) + MeaningAll(os[1..])
  }

  lemma {:induction false} WireAllAppend(mode: Mode, os: seq<Outgoing>, o: Outgoing)
    requires AllWritable(mode, os) && Writable(mode, o)
    ensures WireAll(mode, os + [o]) == WireAll(mode, os) + Wire(mode, o)
    ensures MeaningAll(os + [o]) == MeaningAll(os) + Meaning(o)
  {
    hide Wire;
    if os == [] {
      assert os + [o] == [o];
      assert WireAll(mode, [o][1..]) == [];
    } else {
      assert (os + [o])[1..] == os[1..] + [o];
      WireAllAppend(mode, os[1..], o);
    }
  }

  lemma WireParses(mode: Mode, o: Outgoing, tail: seq<byte>)
    requires Writable(mode, o)
    ensures First(mode, Wire(mode, o) + tail) == Complete(|Wire(mode, o)|, Meaning(o))
  {
    match o
    case Pong(payload) => FrameParses(WS.PONG, payload, [], tail);
    case Send(p) =>
      if mode.DirectTcp? {
        PacketParses(p, tail);
      } else {
        FramedPacketParses(p, tail);
      }
  }

  lemma PacketParses(p: SP.Packet, tail: seq<byte>)
    requires SP.Sendable(p)
    ensures var d := SP.Encode(p);
            First(DirectTcp, d + tail) == Complete(|d|, PacketEvents(p.kind, p.signo, p.payload))
  {
    SP.RoundTrip(p, tail);
    var d := SP.Encode(p) + tail;
    var h := SP.Decode(d);
    assert d[h.headerSize..h.headerSize + h.payloadSize] == p.payload;
  }

  lemma FramedPacketParses(p: SP.Packet, tail: seq<byte>)
    requires SP.Sendable(p)
    ensures var d := WS.Frame(WS.BINARY, SP.Encode(p), []);
            First(WebSocket, d + tail) == Complete(|d|, PacketEvents(p.kind, p.signo, p.payload))
  {
    hide First, Packets, WS.Frame, SP.Decode;
    EncodedPacket(p);
    FrameParses(WS.BINARY, SP.Encode(p), [], tail);
  }

  /** One encoded packet is one event, and nothing is left of it. */
  lemma EncodedPacket(p: SP.Packet)
    requires SP.Sendable(p)
    ensures Packets(SP.Encode(p)) == PacketEvents(p.kind, p.signo, p.payload)
  {
    var d := SP.Encode(p);
    assert d + [] == d;
    SP.RoundTrip(p, []);
    var h := SP.Decode(d);
    assert d[h.headerSize..h.headerSize + h.payloadSize] == p.payload;
    assert Packets(d[h.headerSize + h.payloadSize..]) == [];
  }

  lemma WirePrefixIncomplete(mode: Mode, o: Outgoing, n: nat)
    requires Writable(mode, o) && n < |Wire(mode, o)|
    ensures First(mode, Wire(mode, o)[..n]) == Incomplete
  {
    match o
    case Pong(payload) => WS.ProperPrefixIncomplete(WS.PONG, payload, [], n);
    case Send(p) =>
      if mode.DirectTcp? {
        SP.ProperPrefixIncomplete(p, n);
      } else {
        WS.ProperPrefixIncomplete(WS.BINARY, SP.Encode(p), [], n);
      }
  }

  /** Whatever part of the sender's stream has arrived, the receiver has handled exactly the first k
      things that were written, in order, and holds a proper part of the next one. */
  lemma {:induction false} StreamPrefix(mode: Mode, os: seq<Outgoing>, received: seq<byte>) returns (k: nat)
    requires AllWritable(mode, os) && received <= WireAll(mode, os)
    ensures k <= |os|
    ensures var p := Parse(mode, received);
            && !p.refused
            && p.events == MeaningAll(os[..k])
            && received == WireAll(mode, os[..k]) + p.rest
            && if k == |os| then p.rest == [] else p.rest < Wire(mode, os[k])
  {
    hide First, Parse, Wire;
    ParseStep(mode, received);
    if os == [] {
      k := 0;
      NothingIncomplete(mode);
    } else {
      var w := Wire(mode, os[0]);
      if |received| < |w| {
        assert received == w[..|received|];
        WirePrefixIncomplete(mode, os[0], |received|);
        k := 0;
      } else {
        var tail := received[|w|..];
        assert received == w + tail;
        WireParses(mode, os[0], tail);
        assert tail <= WireAll(mode, os[1..]) by {
          assert WireAll(mode, os)[|w|..] == WireAll(mode, os[1..]);
        }
        var j := StreamPrefix(mode, os[1..], tail);
        k := j + 1;
        StreamPrefixStep(mode, os, k, tail, Parse(mode, tail).rest);
      }
    }
  }

  lemma NothingIncomplete(mode: Mode)
    ensures First(mode, []) == Incomplete
  {
  }

  lemma StreamPrefixStep(mode: Mode, os: seq<Outgoing>, k: nat, tail: seq<byte>, rest: seq<byte>)
    requires AllWritable(mode, os) && 1 <= k <= |os|
    requires tail == WireAll(mode, os[1..][..k - 1]) + rest
    ensures Wire(mode, os[0]) + tail == WireAll(mode, os[..k]) + rest
    ensures MeaningAll(os[..k]) == Meaning(os[0]) + MeaningAll(os[1..][..k - 1])
  {
    hide Wire;
    assert os[..k][1..] == os[1..][..k - 1];
  }

  lemma {:induction false} MeaningPrefix(os: seq<Outgoing>, k: nat)
    requires k <= |os|
    ensures MeaningAll(os[..k]) <= MeaningAll(os)
  {
    if k > 0 {
      assert os[..k][1..] == os[1..][..k - 1];
      MeaningPrefix(os[1..], k - 1);
    }
  }

  /** Transport end to end, on values: what was handled is a prefix of what was written, and all of it
      once every byte has arrived. */
  lemma DeliveredInOrder(mode: Mode, os: seq<Outgoing>, received: seq<byte>)
    requires AllWritable(mode, os) && received <= WireAll(mode, os)
    ensures !Parse(mode, received).refused
    ensures Parse(mode, received).events <= MeaningAll(os)
    ensures received == WireAll(mode, os) ==> Parse(mode, received) == Parsed(MeaningAll(os), [], false)
  {
    hide First, Parse, Wire;
    var k := StreamPrefix(mode, os, received);
    MeaningPrefix(os, k);
    if received == WireAll(mode, os) && k < |os| {
      WireAllSplit(mode, os, k);
      assert false;
    }
    assert k == |os| ==> os[..k] == os;
  }

  /** The stream up to unit k, that unit, and something more or nothing. */
  lemma {:induction false} WireAllSplit(mode: Mode, os: seq<Outgoing>, k: nat)
    requires AllWritable(mode, os) && k < |os|
    ensures |WireAll(mode, os)| >= |WireAll(mode, os[..k])| + |Wire(mode, os[k])|
  {
    hide Wire;
    if k > 0 {
      assert os[..k][1..] == os[1..][..k - 1];
      WireAllSplit(mode, os[1..], k - 1);
    }
  }
}
