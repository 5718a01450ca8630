/** Both layers together: whatever part of the publisher's bytes has arrived, in whatever pieces, the
    remote application has been given the first of the promised deliveries, with their times, provided
    that the two ends agree on the byte order of one word. */
module EndToEnd {
  import opened Bytes
  import opened LinearTables
  import opened Publishers
  import Rx = Receivers
  import F = Framing
  import SP = StreamingProtocol
  import D = Directories
  import T = TimeAgreement
  import L = Links

  /** The number in the header of a message's packet; the messages about availability have none. */
  function SignoOf(m: Message): nat {
    match m
    case Available(_) => 0
    case Unavailable(_) => 0
    case Subscribe(signo, _) => signo
    case Unsubscribe(signo, _) => signo
    case Signal(signo, _) => signo
    case Block(signo, _) => signo
  }

  // ----- metadata packets -----

  const JSON := 1
  const MSGPACK := 2

  /** The byte order of the sending host, which the word in front of the metadata is written in. */
  datatype HostOrder = LittleHost | BigHost

  function EncodingWord(host: HostOrder): (d: seq<byte>)
    ensures |d| == 4
  {
    if host.LittleHost? then ToLittle(MSGPACK, 4) else ToBig(MSGPACK, 4)
  }

  /** The receiver reads the word in the byte order of its mode. */
  function ReadWord(mode: F.Mode, d: seq<byte>): nat
    requires |d| >= 4
  {
    if mode.DirectTcp? then BigValue(d[..4]) else LittleValue(d[..4])
  }

  /** What a metadata packet says apart from its number: a method and its parameters. */
  datatype Request =
    | AvailableIds(ids: seq<string>)
    | UnavailableIds(ids: seq<string>)
    | SubscribeId(id: string)
    | UnsubscribeId(id: string)
    | SignalMetadata(metadata: Metadata)

  function RequestOf(m: Message): Request
    requires !m.Block?
  {
    match m
    case Available(ids) => AvailableIds(ids)
    case Unavailable(ids) => UnavailableIds(ids)
    case Subscribe(_, id) => SubscribeId(id)
    case Unsubscribe(_, id) => UnsubscribeId(id)
    case Signal(_, metadata) => SignalMetadata(metadata)
  }

  /** How the receiving connection dispatches a request that came under a number: metadata is for a numbered
      signal, advertisements are not. */
  function Dispatch(signo: nat, q: Request): seq<Message> {
    match q
    case SubscribeId(id) => [Subscribe(signo, id)]
    case UnsubscribeId(id) => [Unsubscribe(signo, id)]
    case SignalMetadata(metadata) => if signo != 0 then [Signal(signo, metadata)] else []
    case AvailableIds(ids) => if signo == 0 then [Available(ids)] else []
    case UnavailableIds(ids) => if signo == 0 then [Unavailable(ids)] else []
  }

  /** A request is ignored exactly when it came under the wrong kind of number, and is otherwise one message with
      that number. */
  lemma DispatchExactly(signo: nat, m: Message)
    requires !m.Block?
    ensures Dispatch(SignoOf(m), RequestOf(m)) == if m.Signal? && m.signo == 0 then [] else [m]
    ensures Dispatch(signo, RequestOf(m)) == [] <==>
            (m.Signal? && signo == 0) || ((m.Available? || m.Unavailable?) && signo != 0)
  {
  }

  /** How requests are written as MessagePack and read back, and how JSON is read; what the bytes are does
      not matter. */
  datatype Codec = Codec(
    encode: Request -> seq<byte>,
    decode: seq<byte> -> Option<Request>,
    parse: seq<byte> -> Option<Request>)

  function PayloadOf(c: Codec, host: HostOrder, m: Message): seq<byte> {
    if m.Block? then m.bytes else EncodingWord(host) + c.encode(RequestOf(m))
  }

  function DispatchRead(signo: nat, q: Option<Request>): seq<Message> {
    if q.Some? then Dispatch(signo, q.value) else []
  }

  /** What the receiver makes of a metadata packet; one in an encoding it does not know is dropped. */
  function Understand(c: Codec, mode: F.Mode, signo: nat, payload: seq<byte>): seq<Message> {
    if |payload| < 4 then []
    else
      var word := ReadWord(mode, payload);
      if word == JSON then DispatchRead(signo, c.parse(payload[4..]))
      else if word == MSGPACK then DispatchRead(signo, c.decode(payload[4..]))
      else []
  }

  /** The two ends read the word alike. */
  predicate SameOrder(mode: F.Mode, host: HostOrder) {
    mode.WebSocket? <==> host.LittleHost?
  }

  /** The word is read as it was written if and only if they do; otherwise its bytes are read backwards. */
  lemma WordExactly(mode: F.Mode, host: HostOrder, tail: seq<byte>)
    ensures ReadWord(mode, EncodingWord(host) + tail) == if SameOrder(mode, host) then MSGPACK else 0x0200_0000
  {
    var d := EncodingWord(host);
    assert (d + tail)[..4] == d;
    WordBytes();
    hide ToLittle, ToBig, LittleValue, BigValue;
    WordValues();
  }

  lemma WordValues()
    ensures LittleValue([2, 0, 0, 0]) == 2 == BigValue([0, 0, 0, 2])
    ensures LittleValue([0, 0, 0, 2]) == 0x200_0000 == BigValue([2, 0, 0, 0])
  {
    hide LittleValue, BigValue;
    FourBytes([2, 0, 0, 0]);
    FourBytes([0, 0, 0, 2]);
  }

  lemma WordBytes()
    ensures ToLittle(MSGPACK, 4) == [2, 0, 0, 0] && ToBig(MSGPACK, 4) == [0, 0, 0, 2]
  {
    assert ToLittle(2, 4) == [2] + ToLittle(0, 3);
    assert ToLittle(0, 3) == [0] + ToLittle(0, 2);
    assert ToLittle(0, 2) == [0] + ToLittle(0, 1);
    assert ToBig(2, 4) == ToBig(0, 3) + [2];
    assert ToBig(0, 3) == ToBig(0, 2) + [0];
    assert ToBig(0, 2) == ToBig(0, 1) + [0];
  }

  lemma FourBytes(d: seq<byte>)
    requires |d| == 4
    ensures LittleValue(d) == SP.Assemble(d[0], d[1], d[2], d[3])
    ensures BigValue(d) == SP.Assemble(d[3], d[2], d[1], d[0])
  {
    SP.AssembleIsLittle(d);
    assert d[..3][..2] == d[..2] && d[..2][..1] == d[..1];
    assert BigValue(d[..1]) == d[0];
    assert BigValue(d[..2]) == 256 * BigValue(d[..1]) + d[1];
    assert BigValue(d[..3]) == 256 * BigValue(d[..2]) + d[2];
  }

  /** By numbers, not names: a word of 1 in the byte order of the mode means JSON and 2 MessagePack; anything
      else, or less than a word, is dropped. */
  lemma EncodingsKnown(c: Codec, mode: F.Mode, signo: nat, payload: seq<byte>)
    ensures Understand(c, mode, signo, payload) ==
            if |payload| >= 4 && payload[..4] == (if mode.DirectTcp? then [0, 0, 0, 1] else [1, 0, 0, 0])
            then DispatchRead(signo, c.parse(payload[4..]))
            else if |payload| >= 4 && payload[..4] == (if mode.DirectTcp? then [0, 0, 0, 2] else [2, 0, 0, 0])
            then DispatchRead(signo, c.decode(payload[4..]))
            else []
  {
    if |payload| >= 4 {
      FourBytes(payload[..4]);
      var d := payload[..4];
      assert d == [d[0], d[1], d[2], d[3]];
      hide LittleValue, BigValue, DispatchRead;
    }
  }

  /** A message that fits a packet, and that MessagePack carries unchanged. */
  predicate Carried(c: Codec, host: HostOrder, m: Message) {
    && SignoOf(m) < 0x10_0000 && 1 <= |PayloadOf(c, host, m)| < 0x8000_0000
    && (!m.Block? ==> c.decode(c.encode(RequestOf(m))) == Some(RequestOf(m)))
  }

  predicate AllCarried(c: Codec, host: HostOrder, ms: seq<Message>) {
    forall m | m in ms :: Carried(c, host, m)
  }

  /** Metadata is only ever sent for numbered signals. */
  predicate MetadataNumbered(ms: seq<Message>) {
    forall m | m in ms :: m.Signal? ==> m.signo > 0
  }

  lemma ConnectNumbered(p: Publisher, id: string)
    requires id in p.locals && p.locals[id].signo > 0
    ensures MetadataNumbered(Connect(p, id).out)
  {
  }

  predicate AllNumbered(p: Publisher) {
    forall id | id in p.locals :: p.locals[id].signo > 0
  }

  lemma CountingNumbered(p: Publisher, id: string, explicitly: bool)
    requires AllNumbered(p) && id in p.locals
    ensures AllNumbered(Counting(p, id, explicitly))
  {
  }

  lemma ConnectKeepsNumbers(p: Publisher, id: string)
    requires AllNumbered(p) && id in p.locals
    ensures AllNumbered(Connect(p, id).pub)
  {
  }

  lemma {:induction false} SubscribeNumbered(p: Publisher, id: string, explicitly: bool)
    requires AllNumbered(p)
    ensures MetadataNumbered(SubscribeLocal(p, id, explicitly).out) && AllNumbered(SubscribeLocal(p, id, explicitly).pub)
    decreases explicitly
  {
    SubscribeStep(p, id, explicitly);
    if id in p.locals {
      var q := Counting(p, id, explicitly);
      CountingNumbered(p, id, explicitly);
      CountingKeeps(p, id, explicitly);
      hide SubscribeLocal, Counting, Connect;
      if !p.locals[id].Subscribed() {
        var t := p.locals[id].metadata.tableId;
        if explicitly && Foreign(id, p.locals[id].metadata) {
          SubscribeNumbered(q, t, false);
          var d := SubscribeLocal(q, t, false);
          ConnectNumbered(d.pub, id);
          ConnectKeepsNumbers(d.pub, id);
        } else {
          ConnectNumbered(q, id);
          ConnectKeepsNumbers(q, id);
        }
      }
    }
  }

  lemma {:induction false} UnsubscribeNumbered(p: Publisher, id: string, explicitly: bool)
    ensures MetadataNumbered(UnsubscribeLocal(p, id, explicitly).out)
    decreases explicitly, LastOnes(p)
  {
    UnsubscribeStep(p, id, explicitly);
    hide UnsubscribeLocal;
    if id in p.locals {
      var q := Uncounting(p, id, explicitly);
      if !q.locals[id].Subscribed() {
        var c := Disconnect(q, id);
        assert !explicitly ==> id in LastOnes(p) && id !in LastOnes(c.pub);
        if Foreign(id, p.locals[id].metadata) {
          UnsubscribeNumbered(c.pub, p.locals[id].metadata.tableId, false);
        }
      }
    }
  }

  lemma StepNumbered(p: Publisher, op: Op)
    requires AllNumbered(p)
    ensures MetadataNumbered(Apply(p, op).out)
  {
    match op
    case OpAdd(id, md) =>
    case OpRemove(id) =>
    case OpHello =>
    case OpSubscribe(id) => SubscribeNumbered(p, id, true);
    case OpUnsubscribe(id) => UnsubscribeNumbered(p, id, true);
    case OpSetMetadata(id, md) =>
    case OpPublish(id, time, count, data) =>
  }

  lemma {:induction false} RunNumbered(ops: seq<Op>)
    requires D.HaveIds(ops)
    ensures MetadataNumbered(Run(ops).out)
  {
    if ops != [] {
      hide Apply;
      var front := ops[..|ops| - 1];
      RunNumbered(front);
      D.EveryRunAgrees(front);
      D.KeepsMeans(Run(front), Rx.NOBODY);
      StepNumbered(Run(front).pub, ops[|ops| - 1]);
    }
  }

  /** Metadata is understood if and only if the two ends read the word alike, and otherwise dropped: on
      little-endian hosts it is understood in WebSocket mode only. */
  lemma UnderstoodExactly(c: Codec, mode: F.Mode, host: HostOrder, m: Message)
    requires Carried(c, host, m) && !m.Block? && (SameOrder(mode, host) && m.Signal? ==> m.signo > 0)
    ensures Understand(c, mode, SignoOf(m), PayloadOf(c, host, m)) == if SameOrder(mode, host) then [m] else []
  {
    WordExactly(mode, host, c.encode(RequestOf(m)));
    assert PayloadOf(c, host, m)[4..] == c.encode(RequestOf(m));
  }

  // ----- messages over bytes -----

  function PacketOf(c: Codec, host: HostOrder, m: Message): (p: SP.Packet)
    requires Carried(c, host, m)
    ensures forall mode :: F.Writable(mode, F.Send(p))
  {
    SP.Packet(SignoOf(m), if m.Block? then SP.DATA else SP.METADATA, PayloadOf(c, host, m))
  }

  /** What the publishing connection hands to its peer. */
  function Outgoing(c: Codec, host: HostOrder, ms: seq<Message>): (os: seq<F.Outgoing>)
    requires AllCarried(c, host, ms)
    ensures |os| == |ms|
    ensures forall mode :: F.AllWritable(mode, os)
  {
    seq(|ms|, i requires 0 <= i < |ms| => F.Send(PacketOf(c, host, ms[i])))
  }

  /** What the receiving connection makes of its peer's events. */
  function MessagesOf(c: Codec, mode: F.Mode, events: seq<F.Event>): seq<Message> {
    if events == [] then []
    else
      var first :=
        match events[0]
        case Data(signo, payload) => [Block(signo, payload)]
        case Metadata(signo, payload) => Understand(c, mode, signo, payload)
        case Reply(_, _, _) => [];
      first + MessagesOf(c, mode, events[1..])
  }

  /** The messages that get through: the data only, if the two ends do not read the word alike. */
  function Through(mode: F.Mode, host: HostOrder, ms: seq<Message>): seq<Message> {
    if ms == [] then []
    else (if SameOrder(mode, host) || ms[0].Block? then [ms[0]] else []) + Through(mode, host, ms[1..])
  }

  lemma {:induction false} AllThrough(mode: F.Mode, host: HostOrder, ms: seq<Message>)
    requires SameOrder(mode, host)
    ensures Through(mode, host, ms) == ms
  {
    if ms != [] {
      AllThrough(mode, host, ms[1..]);
    }
  }

  lemma OutgoingPrefix(c: Codec, host: HostOrder, ms: seq<Message>, k: nat)
    requires AllCarried(c, host, ms) && k <= |ms|
    ensures AllCarried(c, host, ms[..k]) && Outgoing(c, host, ms)[..k] == Outgoing(c, host, ms[..k])
  {
  }

  /** Messages come out as they went in, those that get through. */
  lemma {:induction false} MessagesSurvive(c: Codec, mode: F.Mode, host: HostOrder, ms: seq<Message>)
    requires AllCarried(c, host, ms) && (SameOrder(mode, host) ==> MetadataNumbered(ms))
    ensures MessagesOf(c, mode, F.MeaningAll(Outgoing(c, host, ms))) == Through(mode, host, ms)
  {
    if ms != [] {
      hide Understand;
      var m := ms[0];
      assert m in ms;
      MessagesSurvive(c, mode, host, ms[1..]);
      if !m.Block? {
        UnderstoodExactly(c, mode, host, m);
      }
      var events := F.MeaningAll(Outgoing(c, host, ms));
      assert Outgoing(c, host, ms)[1..] == Outgoing(c, host, ms[1..]);
      assert events[1..] == F.MeaningAll(Outgoing(c, host, ms[1..]));
      var first := if SameOrder(mode, host) || m.Block? then [m] else [];
      assert MessagesOf(c, mode, events) == first + MessagesOf(c, mode, events[1..]);
    }
  }

  /** The receiving connection has handled the first of the messages sent, each of them unchanged, and
      all of them once every byte has arrived; but only the data among them if the ends do not read the
      word alike. */
  lemma MessagesArriveInOrder(c: Codec, mode: F.Mode, host: HostOrder, ms: seq<Message>, received: seq<byte>)
      returns (k: nat)
    requires AllCarried(c, host, ms) && received <= F.WireAll(mode, Outgoing(c, host, ms))
    requires SameOrder(mode, host) ==> MetadataNumbered(ms)
    ensures k <= |ms| && MessagesOf(c, mode, F.Parse(mode, received).events) == Through(mode, host, ms[..k])
    ensures SameOrder(mode, host) ==> MessagesOf(c, mode, F.Parse(mode, received).events) == ms[..k]
    ensures received == F.WireAll(mode, Outgoing(c, host, ms)) ==> k == |ms|
  {
    hide F.Parse, F.WireAll, F.MeaningAll, MessagesOf, Through;
    var os := Outgoing(c, host, ms);
    if received == F.WireAll(mode, os) {
      F.DeliveredInOrder(mode, os, received);
      MessagesSurvive(c, mode, host, ms);
      k := |ms|;
      assert ms[..k] == ms;
    } else {
      k := F.StreamPrefix(mode, os, received);
      OutgoingPrefix(c, host, ms, k);
      MessagesSurvive(c, mode, host, ms[..k]);
    }
    if SameOrder(mode, host) {
      AllThrough(mode, host, ms[..k]);
    }
  }

  // ----- times over bytes -----

  /** From published samples over bytes to delivered samples: the deliveries caused by whatever part of
      the stream has arrived are the first of those promised, and all of them when all has arrived. */
  lemma TimesSurviveTheWire(c: Codec, mode: F.Mode, host: HostOrder, ops: seq<Op>, received: seq<byte>)
    requires T.AllMannerly(ops) && AllCarried(c, host, Run(ops).out) && SameOrder(mode, host)
    requires received <= F.WireAll(mode, Outgoing(c, host, Run(ops).out))
    ensures var q := Rx.HandleAll(Rx.NOBODY, MessagesOf(c, mode, F.Parse(mode, received).events));
            && q.delivered <= T.Promised(ops)
            && (received == F.WireAll(mode, Outgoing(c, host, Run(ops).out)) ==> q.delivered == T.Promised(ops))
  {
    hide *;
    T.MannerlyHaveIds(ops);
    RunNumbered(ops);
    var k := MessagesArriveInOrder(c, mode, host, Run(ops).out, received);
    T.TimeAgreement(ops, k);
  }

  /** Over a connection: whatever the sockets do, at any moment the deliveries are the first of those promised,
      and all of them once the sender's buffer and the wire are empty. */
  lemma TimesSurviveTheLink(c: Codec, host: HostOrder, ops: seq<Op>, link: L.Link)
    requires link.Valid() && T.AllMannerly(ops) && AllCarried(c, host, Run(ops).out)
    requires link.sent == Outgoing(c, host, Run(ops).out) && SameOrder(link.receiver.mode, host)
    ensures var q := Rx.HandleAll(Rx.NOBODY, MessagesOf(c, link.receiver.mode, link.receiver.events));
            && q.delivered <= T.Promised(ops)
            && (link.sender.status.Open? && link.sender.tx.Contents() == [] && link.receiver.received == link.sender.wire ==>
                  q.delivered == T.Promised(ops))
  {
    hide *;
    link.HandlesReceived();
    TimesSurviveTheWire(c, link.receiver.mode, host, ops, link.receiver.received);
  }

  /** The same over TLS. */
  lemma TimesSurviveTheTlsLink(c: Codec, host: HostOrder, ops: seq<Op>, link: L.TlsLink)
    requires link.Valid() && T.AllMannerly(ops) && AllCarried(c, host, Run(ops).out)
    requires link.sent == Outgoing(c, host, Run(ops).out) && SameOrder(link.receiver.mode, host)
    ensures var q := Rx.HandleAll(Rx.NOBODY, MessagesOf(c, link.receiver.mode, link.receiver.events));
            && q.delivered <= T.Promised(ops)
            && (link.sender.status.Open? && link.sender.queue == [] && link.receiver.received == link.sender.wire ==>
                  q.delivered == T.Promised(ops))
  {
    hide *;
    link.HandlesReceived();
    TimesSurviveTheWire(c, link.receiver.mode, host, ops, link.receiver.received);
  }

  /** Where the ends do not read the word alike, as over direct TCP between little-endian hosts, no signal
      ever becomes known, and nothing is delivered whatever arrives. */
  lemma NothingDelivered(c: Codec, mode: F.Mode, host: HostOrder, ms: seq<Message>, received: seq<byte>)
    requires AllCarried(c, host, ms) && !SameOrder(mode, host)
    requires received <= F.WireAll(mode, Outgoing(c, host, ms))
    ensures Rx.HandleAll(Rx.NOBODY, MessagesOf(c, mode, F.Parse(mode, received).events)) == Rx.NOBODY
  {
    hide F.Parse, F.WireAll, MessagesOf, Outgoing, AllCarried, Rx.HandleAll;
    var k := MessagesArriveInOrder(c, mode, host, ms, received);
    BlocksOnly(mode, host, ms[..k]);
    hide Through;
    BlocksToNobody(Through(mode, host, ms[..k]));
  }

  lemma {:induction false} BlocksOnly(mode: F.Mode, host: HostOrder, ms: seq<Message>)
    requires !SameOrder(mode, host)
    ensures forall m | m in Through(mode, host, ms) :: m.Block?
  {
    if ms != [] {
      BlocksOnly(mode, host, ms[1..]);
    }
  }

  lemma {:induction false} BlocksToNobody(ms: seq<Message>)
    requires forall m | m in ms :: m.Block?
    ensures Rx.HandleAll(Rx.NOBODY, ms) == Rx.NOBODY
  {
    if ms != [] {
      BlocksToNobody(ms[..|ms| - 1]);
      assert ms[|ms| - 1] in ms;
      assert Rx.Handle(Rx.NOBODY, ms[|ms| - 1]) == Rx.NOBODY;
    }
  }
}
