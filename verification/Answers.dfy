/** The two halves of a peer together: close and ping frames that arrive are answered by the sending half. */
module Answers {
  import opened Bytes
  import opened Framing
  import opened Peers
  import opened BasePeers
  import WS = WebSocketProtocol

  /** A reply is an empty close to shut down after, or a pong; nothing else is ever answered. */
  predicate WellFormed(e: Event) {
    e.Reply? ==>
      && |e.payload| < 0x1_0000_0000_0000_0000
      && if e.shutdownAfter then e.opcode == 8 && e.payload == [] else e.opcode == 10
  }

  predicate AllWellFormed(events: seq<Event>) {
    forall e | e in events :: WellFormed(e)
  }

  lemma {:induction false} PacketsWellFormed(d: seq<byte>)
    ensures AllWellFormed(Packets(d))
    decreases |d|
  {
    hide WellFormed;
    PacketsStep(d);
    var u := First(DirectTcp, d);
    if u.Complete? {
      PacketsWellFormed(d[u.size..]);
      UnitPacketWellFormed(d);
    }
  }

  lemma UnitPacketWellFormed(d: seq<byte>)
    requires First(DirectTcp, d).Complete?
    ensures AllWellFormed(First(DirectTcp, d).events)
  {
  }

  lemma UnitWellFormed(mode: Mode, d: seq<byte>)
    requires First(mode, d).Complete?
    ensures AllWellFormed(First(mode, d).events)
  {
    if mode.DirectTcp? {
      UnitPacketWellFormed(d);
    } else {
      var h := WS.Decode(d);
      WS.SizeBound(d);
      var payload := Unmasked(h, d[h.headerSize..h.headerSize + h.payloadSize]);
      FrameEventsAre(h.opcode, payload);
      PacketsWellFormed(payload);
    }
  }

  lemma {:induction false} ParseWellFormed(mode: Mode, d: seq<byte>)
    ensures AllWellFormed(Parse(mode, d).events)
    decreases |d|
  {
    hide WellFormed, First;
    ParseStep(mode, d);
    if First(mode, d).Complete? {
      UnitWellFormed(mode, d);
      ParseWellFormed(mode, d[First(mode, d).size..]);
    }
  }

  /** Everything answered, as bytes. */
  function AnswersTo(events: seq<Event>): seq<byte>
    requires AllWellFormed(events)
  {
    if events == [] then []
    else
      var front, e := events[..|events| - 1], events[|events| - 1];
      assert WellFormed(e) by {
        assert e in events;
      }
      AnswersTo(front) + if e.Reply? then Answer(e) else []
  }

  predicate AsksShutdown(events: seq<Event>) {
    exists e :: e in events && e.Reply? && e.shutdownAfter
  }

  function AnswersToFront(events: seq<Event>, i: nat): seq<byte>
    requires AllWellFormed(events) && i <= |events|
  {
    AnswersTo(events[..i])
  }

  lemma AnswersNext(events: seq<Event>, i: nat)
    requires AllWellFormed(events) && i < |events|
    ensures WellFormed(events[i])
    ensures var e := events[i];
            AnswersToFront(events, i + 1) == AnswersToFront(events, i) + if e.Reply? then WS.Frame(e.opcode, e.payload, []) else []
    ensures AsksShutdown(events[..i + 1]) <==> AsksShutdown(events[..i]) || (events[i].Reply? && events[i].shutdownAfter)
  {
    hide WS.Frame;
    assert events[i] in events;
    assert events[..i + 1] == events[..i] + [events[i]];
  }

  lemma NothingYet(events: seq<Event>)
    requires AllWellFormed(events)
    ensures AnswersToFront(events, 0) == [] && !AsksShutdown(events[..0])
  {
  }

  lemma LaterWellFormed(mode: Mode, d: seq<byte>, n: nat)
    requires n <= |Parse(mode, d).events|
    ensures AllWellFormed(Parse(mode, d).events[n..])
  {
    hide Parse, WellFormed;
    ParseWellFormed(mode, d);
  }

  class Endpoint {
    const sender: Peer
    const receiver: BasePeer

    ghost predicate Valid()
      reads this, sender, sender.tx, sender.tx.blocks, receiver, receiver.rxBuffer
    {
      sender.Valid() && receiver.Valid() && receiver.rxBuffer !in sender.tx.blocks
    }

    constructor (mode: Mode, txBufferSize: nat, rxBufferSize: nat)
      requires rxBufferSize > 0
      ensures Valid() && sender.status.Open? && receiver.status.Open? && receiver.mode == sender.mode == mode
    {
      hide Peer.Valid, BasePeer.Valid;
      sender := new Peer(mode, txBufferSize);
      receiver := new BasePeer(mode, rxBufferSize);
    }

    /** The handler of a completed read: what arrived is handled, and what must be answered is answered, in
        order; once a close was answered the sender is open only until its answer is on the wire. */
    method FinishRead(outcome: ReadOutcome, sockets: nat -> Socket)
      requires Valid() && receiver.reading
      requires outcome.Received? ==> receiver.status.Open? && |outcome.chunk| <= receiver.rxBuffer.Length - receiver.rxBytes
      modifies receiver, receiver.rxBuffer, sender, sender.tx, sender.tx.blocks
      ensures Valid() && old(receiver.events) <= receiver.events && AllWellFormed(receiver.events[|old(receiver.events)|..])
      ensures receiver.received == if outcome.ReadFailed? then old(receiver.received) else old(receiver.received) + outcome.chunk
      ensures receiver.events == Parse(receiver.mode, receiver.received).events
      ensures var more := receiver.events[|old(receiver.events)|..];
              && sender.submitted == old(sender.submitted) + AnswersTo(more)
              && (sender.status.Open? ==>
                    && (sender.shutdownAsked <==> old(sender.shutdownAsked) || AsksShutdown(more))
                    && (sender.shutdownAsked ==> sender.wire != sender.submitted))
              && (sender.status == Closed(Normal) ==> old(sender.shutdownAsked) || AsksShutdown(more))
    {
      hide Parse, First, Peer.Valid, AsksShutdown, AnswersTo, AllWellFormed;
      var before := receiver.events;
      ghost var received := receiver.received;
      receiver.FinishRead(outcome);
      if outcome.Received? {
        ParseAppend(receiver.mode, received, outcome.chunk);
      }
      var more := receiver.events[|before|..];
      LaterWellFormed(receiver.mode, receiver.received, |before|);
      AnswerAll(more, sockets);
    }

    /** Answers what must be answered. */
    method AnswerAll(more: seq<Event>, sockets: nat -> Socket)
      requires Valid() && AllWellFormed(more)
      modifies sender, sender.tx, sender.tx.blocks
      ensures Valid() && sender.submitted == old(sender.submitted) + AnswersTo(more)
      ensures sender.status.Open? ==>
                && (sender.shutdownAsked <==> old(sender.shutdownAsked) || AsksShutdown(more))
                && (sender.shutdownAsked ==> sender.wire != sender.submitted)
      ensures sender.status == Closed(Normal) ==> old(sender.shutdownAsked) || AsksShutdown(more)
    {
      hide Parse, First, Peer.Valid, AnswersTo, AllWellFormed, WS.Frame;
      NothingYet(more);
      for i := 0 to |more|
        invariant Valid() && sender.submitted == old(sender.submitted) + AnswersToFront(more, i)
        invariant sender.status.Open? ==> (sender.shutdownAsked <==> old(sender.shutdownAsked) || AsksShutdown(more[..i]))
        invariant sender.shutdownAsked ==> old(sender.shutdownAsked) || AsksShutdown(more[..i])
        invariant forall b | b in sender.tx.blocks :: b in old(sender.tx.blocks) || fresh(b)
      {
        var e := more[i];
        AnswersNext(more, i);
        if e.Reply? {
          assert forall k | 0 <= k < |sender.tx.blocks| :: sender.tx.blocks[k] in old(sender.tx.blocks) || fresh(sender.tx.blocks[k]);
          sender.SendWebsocketFrame(e.opcode, e.payload, e.shutdownAfter,
            if sender.status.Closed? then Fails else sockets(i));
        }
      }
      assert more[..|more|] == more;
      MeaningOfValid();
    }

    lemma MeaningOfValid()
      requires Valid()
      ensures sender.status.Open? && sender.shutdownAsked ==> sender.wire != sender.submitted
      ensures sender.status == Closed(Normal) ==> sender.shutdownAsked
    {
    }
  }
}
