/** What becomes of the times when a signal is made a domain after it was published on, while nobody was
    told: exactly which first block loses its time. */
module LateDomains {
  import opened Bytes
  import opened LinearTables
  import opened Publishers
  import opened Receivers
  import D = Directories
  import R = References
  import opened Steps
  import opened Bindings
  import T = TimeAgreement

  // ----- what was published -----

  /** The samples published on a signal while it was subscribed, since it was registered or a change of
      its metadata was last forwarded. */
  ghost function SamplesSince(ops: seq<Op>, id: string): nat {
    if ops == [] then 0
    else
      var front, op := ops[..|ops| - 1], ops[|ops| - 1];
      var p := Run(front).pub;
      if id !in p.locals || id !in Run(ops).pub.locals then 0
      else if op.OpPublish? && op.id == id && p.locals[id].Subscribed() then SamplesSince(front, id) + op.count
      else if op.OpSetMetadata? && op.id == id && p.locals[id].Subscribed() then 0
      else SamplesSince(front, id)
  }

  /** The value index after a step, and the samples counted. */
  function NextIndexOf(p: Publisher, op: Op, id: string): int64
    requires id in p.locals
  {
    var index := p.locals[id].valueIndex;
    if op.OpPublish? && op.id == id && p.locals[id].Subscribed() then Wrap(index + op.count)
    else if op.OpSetMetadata? && op.id == id && p.locals[id].Subscribed() then 0
    else index
  }

  lemma AddIndex(p: Publisher, s: string, md: Metadata, id: string)
    requires id in AddLocal(p, s, md).pub.locals
    ensures AddLocal(p, s, md).pub.locals[id].valueIndex == if id in p.locals then p.locals[id].valueIndex else 0
  {
  }

  lemma SetMetadataIndex(p: Publisher, s: string, md: Metadata, id: string)
    requires Plain(p) && id in p.locals
    ensures id in SetMetadata(p, s, md).pub.locals
    ensures SetMetadata(p, s, md).pub.locals[id].valueIndex == NextIndexOf(p, OpSetMetadata(s, md), id)
  {
    hide Wrap;
  }

  lemma PublishIndex(p: Publisher, s: string, time: int64, count: nat, data: seq<byte>, id: string)
    requires Plain(p) && id in p.locals
    ensures id in Publish(p, s, time, count, data).pub.locals
    ensures Publish(p, s, time, count, data).pub.locals[id].valueIndex == NextIndexOf(p, OpPublish(s, time, count, data), id)
  {
    if s in p.locals && p.locals[s].connected {
      assert Retime(p, s, time).pub.locals == p.locals;
      hide Retime, Wrap;
    }
  }

  /** Subscribing moves no value index. */
  lemma {:induction false} SubscribeIndex(p: Publisher, s: string, explicitly: bool, id: string)
    requires id in p.locals
    ensures SubscribeLocal(p, s, explicitly).pub.locals[id].valueIndex == p.locals[id].valueIndex
    decreases explicitly
  {
    SubscribeStep(p, s, explicitly);
    hide SubscribeLocal;
    if s in p.locals {
      var q := Counting(p, s, explicitly);
      if !p.locals[s].Subscribed() && explicitly && Foreign(s, p.locals[s].metadata) {
        SubscribeIndex(q, p.locals[s].metadata.tableId, false, id);
      }
    }
  }

  /** What a step does to a signal's value index. */
  lemma IndexAfter(p: Publisher, op: Op, id: string)
    requires Plain(p) && id in Apply(p, op).pub.locals
    ensures Apply(p, op).pub.locals[id].valueIndex == if id in p.locals then NextIndexOf(p, op, id) else 0
  {
    hide NextIndexOf, Plain, Publish, SetMetadata, AddLocal, SubscribeLocal, UnsubscribeLocal;
    match op
    case OpSubscribe(s) =>
      SubscribeIndex(p, s, true, id);
      OtherIndex(p, op, id);
    case OpUnsubscribe(s) =>
      UnsubscribeQuiet(p, s, true);
      OtherIndex(p, op, id);
    case OpAdd(s, md) =>
      AddIndex(p, s, md, id);
      OtherIndex(p, op, id);
    case OpRemove(_) => OtherIndex(p, op, id);
    case OpHello => OtherIndex(p, op, id);
    case OpSetMetadata(s, md) => SetMetadataFound(p, s, md, id);
    case OpPublish(s, time, count, data) => PublishFound(p, s, time, count, data, id);
  }

  lemma OtherIndex(p: Publisher, op: Op, id: string)
    requires !op.OpSetMetadata? && !op.OpPublish?
    ensures id in p.locals ==> NextIndexOf(p, op, id) == p.locals[id].valueIndex
  {
  }

  lemma SetMetadataFound(p: Publisher, s: string, md: Metadata, id: string)
    requires Plain(p) && id in SetMetadata(p, s, md).pub.locals
    ensures id in p.locals && SetMetadata(p, s, md).pub.locals[id].valueIndex == NextIndexOf(p, OpSetMetadata(s, md), id)
  {
    assert id in p.locals;
    hide SetMetadata, NextIndexOf;
    SetMetadataIndex(p, s, md, id);
  }

  lemma PublishFound(p: Publisher, s: string, time: int64, count: nat, data: seq<byte>, id: string)
    requires Plain(p) && id in Publish(p, s, time, count, data).pub.locals
    ensures id in p.locals
    ensures Publish(p, s, time, count, data).pub.locals[id].valueIndex == NextIndexOf(p, OpPublish(s, time, count, data), id)
  {
    assert id in p.locals;
    hide Publish, NextIndexOf;
    PublishIndex(p, s, time, count, data, id);
  }

  /** The value index counts the samples published, as far as 64 bits go. */
  lemma {:induction false} IndexCounts(ops: seq<Op>, id: string)
    requires R.AllPermitted(ops) && id in Run(ops).pub.locals
    ensures Run(ops).pub.locals[id].valueIndex == Wrap(SamplesSince(ops, id))
  {
    if ops != [] {
      hide R.CountsRight, R.View, R.Permitted, Apply, SamplesSince, NextIndexOf, Wrap;
      var front, op := ops[..|ops| - 1], ops[|ops| - 1];
      var p := Run(front).pub;
      R.CountsConserved(front);
      CountedPlain(p);
      IndexAfter(p, op, id);
      WrapZero();
      if id in p.locals {
        IndexCounts(front, id);
      }
      SamplesStep(ops, id);
    } else {
      assert false;
    }
  }

  lemma WrapZero()
    ensures Wrap(0) == 0
  {
  }

  lemma SamplesStep(ops: seq<Op>, id: string)
    requires ops != [] && id in Run(ops).pub.locals
    ensures var front, op := ops[..|ops| - 1], ops[|ops| - 1];
            var p := Run(front).pub;
            && (id !in p.locals ==> SamplesSince(ops, id) == 0)
            && (id in p.locals && p.locals[id].valueIndex == Wrap(SamplesSince(front, id)) ==>
                  NextIndexOf(p, op, id) == Wrap(SamplesSince(ops, id)))
  {
    hide Run, Wrap;
    var front, op := ops[..|ops| - 1], ops[|ops| - 1];
    WrapZero();
    if op.OpPublish? {
      WrapSum(SamplesSince(front, id), op.count);
    }
  }

  lemma WrapSum(x: int, y: int)
    ensures Wrap(Wrap(x) + y) == Wrap(x + y)
  {
    var k := WrapOffset(x);
    WrapPeriod(x + y, k);
  }

  // ----- connecting a signal, whatever its value index -----

  /** A sound publishing side, but for the value indices of its linear signals. */
  predicate Loose(p: Publisher) {
    && Bounded(p.store)
    && forall id | id in p.locals ::
         && id != "" && Owns(p.store, p.locals[id].table, id) && Old(p.store, p.locals[id].domainTable)
         && WellMade(id, p.locals[id].metadata)
  }

  lemma SoundIsLoose(p: Publisher)
    requires PubSound(p)
    ensures Loose(p)
  {
    forall id | id in p.locals
      ensures && id != "" && Owns(p.store, p.locals[id].table, id) && Old(p.store, p.locals[id].domainTable)
              && WellMade(id, p.locals[id].metadata)
    {
      assert LocalSound(p.store, id, p.locals[id]);
    }
  }

  /** The receiver's own reference of a signal it may not know yet. */
  function OwnAt(r: Receiver, id: string): Option<nat> {
    if id in r.signals then r.signals[id].table else None
  }

  /** What connecting a signal does on both ends. */
  predicate Connected(p: Publisher, r: Receiver, id: string, q: Publisher, r': Receiver) {
    && id in p.locals && q.locals.Keys == p.locals.Keys && r'.signals.Keys == r.signals.Keys + {id}
    && q.locals == p.locals[id := q.locals[id]]
    && (forall v | v in r.signals && v != id :: v in r'.signals && SameRemote(r.signals[v], r'.signals[v]))
    && (q.store, q.locals[id].table) == p.store.Refreshed(p.locals[id].table, p.locals[id].metadata)
    && (r'.store, r'.signals[id].table) == r.store.Refreshed(OwnAt(r, id), Sent(p.locals[id]))
    && q.locals[id].connected && q.locals[id].signo == p.locals[id].signo
    && q.locals[id].metadata == p.locals[id].metadata && q.locals[id].valueIndex == p.locals[id].valueIndex
    && q.locals[id].isExplicit == p.locals[id].metadata.rule.Explicit? == r'.signals[id].isExplicit
    && r'.signals[id].valueIndex == p.locals[id].valueIndex
    && r'.delivered == r.delivered
  }

  /** How both ends bind the signal connected. */
  predicate ConnectedBinding(p: Publisher, r: Receiver, id: string, q: Publisher, r': Receiver)
    requires id in p.locals && id in q.locals && id in r'.signals
  {
    var t := p.locals[id].metadata.tableId;
    var bound := Foreign(id, p.locals[id].metadata) && t in p.locals;
    && q.locals[id].domainTable == (if bound then p.locals[t].table else None)
    && (bound ==> q.locals[id].domainSigno == p.locals[t].signo)
    && r'.signals[id].domainTable ==
         if Foreign(id, p.locals[id].metadata) && t in r.signals && r.store.Lock(r.signals[t].table).Some?
         then r.signals[t].table else None
  }

  lemma ConnectEffect(p: Publisher, r: Receiver, id: string)
    requires D.Agree(p, r) && Loose(p) && RxSound(r) && id in p.locals
    ensures var c := Connect(p, id);
            var r' := HandleAll(r, c.out);
            D.Agree(c.pub, r') && Connected(p, r, id, c.pub, r') && ConnectedBinding(p, r, id, c.pub, r')
  {
    var e := p.locals[id];
    var r1 := Handle(r, Subscribe(e.signo, id));
    assert id != "" && WellMade(id, e.metadata);
    hide Handle, HandleAll, HandleSignal, HandleSubscribe, Store.Refreshed, D.Agree, D.Keeps, RxSound, Loose, Connect;
    ConnectHandled(p, r, id);
    SubscribeEffect(p, r, id);
    SignalEffect(r1, e.signo, id, Sent(e));
    ConnectedPub(p, id);
  }

  lemma ConnectHandled(p: Publisher, r: Receiver, id: string)
    requires D.Agree(p, r) && id in p.locals
    ensures var c, e := Connect(p, id), p.locals[id];
            && HandleAll(r, c.out) == HandleSignal(Handle(r, Subscribe(e.signo, id)), e.signo, Sent(e))
            && D.Agree(c.pub, HandleAll(r, c.out))
  {
    hide D.Agree, D.Keeps, Handle, HandleAll, HandleSignal, Connect;
    var e := p.locals[id];
    D.ConnectAgrees(p, r, id);
    D.KeepsMeans(Connect(p, id), r);
    D.ConnectSends(p, id);
    D.Two(r, Subscribe(e.signo, id), Signal(e.signo, Sent(e)));
    D.SignalHandled(Handle(r, Subscribe(e.signo, id)), e.signo, Sent(e));
  }

  lemma ConnectedPub(p: Publisher, id: string)
    requires id in p.locals
    ensures var q, e, t := Connect(p, id).pub, p.locals[id], p.locals[id].metadata.tableId;
            var bound := Foreign(id, e.metadata) && t in p.locals;
            && q.locals.Keys == p.locals.Keys && q.locals == p.locals[id := q.locals[id]]
            && (q.store, q.locals[id].table) == p.store.Refreshed(e.table, e.metadata)
            && q.locals[id].connected && q.locals[id].signo == e.signo
            && q.locals[id].metadata == e.metadata && q.locals[id].valueIndex == e.valueIndex
            && q.locals[id].isExplicit == e.metadata.rule.Explicit?
            && q.locals[id].domainTable == (if bound then p.locals[t].table else None)
            && (bound ==> q.locals[id].domainSigno == p.locals[t].signo)
  {
    hide Store.Refreshed;
  }

  /** After the subscribe message the signal is known and found by its number, and nothing else changed. */
  lemma SubscribeEffect(p: Publisher, r: Receiver, id: string)
    requires D.Agree(p, r) && RxSound(r) && id in p.locals && id != ""
    ensures var r1 := Handle(r, Subscribe(p.locals[id].signo, id));
            && RxSound(r1) && Find(r1, p.locals[id].signo) == Some(id) && id in r1.signals
            && r1.store == r.store && r1.delivered == r.delivered && r1.signals[id].table == OwnAt(r, id)
            && (forall v | v in r.signals :: v in r1.signals && SameRemote(r.signals[v], r1.signals[v]))
            && r1.signals.Keys == r.signals.Keys + {id}
  {
    SubscribeKeeps(r, p.locals[id].signo, id);
    hide D.Agree;
  }

  lemma ConnectedSound(p: Publisher, r: Receiver, id: string, q: Publisher, r': Receiver)
    requires Loose(p) && RxSound(r) && Connected(p, r, id, q, r') && ConnectedBinding(p, r, id, q, r')
    ensures Loose(q) && RxSound(r')
  {
    var own, rxOwn, md := p.locals[id].table, OwnAt(r, id), p.locals[id].metadata;
    RefreshedLock(p.store, own, md, id, None);
    RefreshedLock(r.store, rxOwn, Sent(p.locals[id]), id, None);
    hide Store.Refreshed;
    forall v | v in q.locals && v != id ensures Owns(q.store, q.locals[v].table, v) {
      LockElsewhere(p.store, own, md, id, p.locals[v].table);
    }
    forall v | v in r'.signals && v != id ensures Owns(r'.store, r'.signals[v].table, v) {
      LockElsewhere(r.store, rxOwn, Sent(p.locals[id]), id, r.signals[v].table);
    }
  }

  // ----- the first block -----

  /** A signal that is forwarded and bound to a forwarded domain, whose tables at the two ends may differ. */
  predicate Drifted(p: Publisher, r: Receiver, v: string, d: string, tp: Table, tr: Table) {
    && v != d && v in p.locals && d in p.locals && p.locals[v].connected && p.locals[d].connected
    && v in r.signals && d in r.signals
    && p.locals[v].isExplicit == r.signals[v].isExplicit && r.store.Lock(r.signals[v].table) == None
    && r.signals[v].valueIndex == p.locals[v].valueIndex
    && p.store.Lock(p.locals[v].domainTable) == Some(tp) && p.locals[v].domainSigno == p.locals[d].signo
    && r.store.Lock(r.signals[v].domainTable) == Some(tr) && r.signals[v].domainTable == r.signals[d].table
  }

  /** A block is delivered with its time if a domain packet precedes it, and otherwise with the time that
      the receiver's table has: at the signal's own index, or at the index that table has reached. */
  lemma DriftedBlock(p: Publisher, r: Receiver, v: string, d: string, tp: Table, tr: Table,
                     time: int64, count: nat, data: seq<byte>)
    requires D.Agree(p, r) && Drifted(p, r, v, d, tp, tr)
    ensures var x := HandleAll(r, Publish(p, v, time, count, data).out).delivered;
            x != [] && x[|x| - 1].time ==
            if time != tp.ValueAt(NextIndex(p.locals[v], tp)) then time else tr.ValueAt(NextIndex(p.locals[v], tr))
  {
    var e, index := p.locals[v], NextIndex(p.locals[v], tp);
    DriftedOut(p, r, v, d, tp, tr, time, count, data);
    FoundBySigno(p, r, v);
    hide Table.ValueAt, Wrap, HandleAll, Handle, D.Agree, LinearPayload, Publish;
    if time != tp.ValueAt(index) {
      var payload := LinearPayload(index, time);
      D.Two(r, Block(e.domainSigno, payload), Block(e.signo, data));
      PacketTaken(p, r, v, d, tp, tr, index, time);
      PayloadSets(tr, index, time, []);
      BlockHandled(Handle(r, Block(e.domainSigno, payload)), v, e.signo, tr.Set(index, time), data);
    } else {
      D.One(r, Block(e.signo, data));
      BlockHandled(r, v, e.signo, tr, data);
    }
  }

  lemma DriftedOut(p: Publisher, r: Receiver, v: string, d: string, tp: Table, tr: Table, time: int64, count: nat, data: seq<byte>)
    requires Drifted(p, r, v, d, tp, tr)
    ensures var e, index := p.locals[v], NextIndex(p.locals[v], tp);
            Publish(p, v, time, count, data).out ==
            if time != tp.ValueAt(index) then [Block(e.domainSigno, LinearPayload(index, time)), Block(e.signo, data)]
            else [Block(e.signo, data)]
  {
    hide Table.ValueAt, LinearPayload, Advance;
  }

  /** The domain packet sets the receiver's table, whatever it was. */
  lemma PacketTaken(p: Publisher, r: Receiver, v: string, d: string, tp: Table, tr: Table, index: int64, time: int64)
    requires D.Agree(p, r) && Drifted(p, r, v, d, tp, tr)
    ensures var r1 := Handle(r, Block(p.locals[v].domainSigno, LinearPayload(index, time)));
            && r1.signals == r.signals && r1.bySigno == r.bySigno
            && r1.store.Lock(r.signals[v].domainTable) == Some(tr.Set(index, time)) && r1.store.Lock(r.signals[v].table) == None
  {
    var payload := LinearPayload(index, time);
    FoundBySigno(p, r, d);
    PayloadSets(tr, index, time, []);
    assert payload + [] == payload;
    hide LinearPayload, UpdatedByPayload, D.Agree;
    assert Handle(r, Block(p.locals[v].domainSigno, payload)) == TakeDomainPacket(r, d, payload);
  }

  /** The time of a block of a signal bound to a table. */
  lemma BlockHandled(r: Receiver, v: string, signo: nat, t: Table, data: seq<byte>)
    requires Find(r, signo) == Some(v) && r.signals[v].subscribed && r.store.Lock(r.signals[v].table) == None
    requires r.store.Lock(r.signals[v].domainTable) == Some(t)
    ensures var x := Handle(r, Block(signo, data)).delivered;
            x != [] && x[|x| - 1].time == if r.signals[v].isExplicit then t.ValueAt(r.signals[v].valueIndex) else t.DrivenValue()
  {
    hide Table.ValueAt, Wrap, SampleCount;
  }

  /** A linear signal that is not forwarded, and a value signal that uses it and is not subscribed. */
  predicate Ready(p: Publisher, v: string, d: string) {
    && v != d && v in p.locals && d in p.locals && !p.locals[v].Subscribed() && !p.locals[d].Subscribed()
    && !p.locals[v].metadata.rule.Linear? && p.locals[v].metadata.tableId == d && d != ""
    && p.locals[d].metadata.rule.Linear?
  }

  /** The domain's tables when it starts to be forwarded: the publisher's begins at index zero, the
      receiver's at the index reached. */
  function FirstTable(p: Publisher, d: string, index: int64): Table
    requires d in p.locals && p.locals[d].metadata.start.Some? && p.locals[d].metadata.delta.Some?
  {
    var md := p.locals[d].metadata;
    Table(d, index, md.start.value, md.delta.value, index)
  }

  lemma FirstTables(p: Publisher, r: Receiver, d: string, q: Publisher, r': Receiver)
    requires Loose(p) && RxSound(r) && Connected(p, r, d, q, r') && p.locals[d].metadata.rule.Linear?
    ensures q.store.Lock(q.locals[d].table) == Some(FirstTable(p, d, 0))
    ensures r'.store.Lock(r'.signals[d].table) == Some(FirstTable(p, d, p.locals[d].valueIndex))
  {
    RefreshedLock(p.store, p.locals[d].table, p.locals[d].metadata, d, None);
    RefreshedLock(r.store, OwnAt(r, d), Sent(p.locals[d]), d, None);
    hide Store.Refreshed;
  }

  /** Connecting the signal binds it to the domain at both ends. */
  lemma SecondBinds(p: Publisher, r: Receiver, v: string, d: string, q: Publisher, r': Receiver, tp: Table, tr: Table)
    requires Loose(p) && RxSound(r) && Connected(p, r, v, q, r') && ConnectedBinding(p, r, v, q, r')
    requires v != d && d in p.locals && d in r.signals && p.locals[d].connected && d != ""
    requires !p.locals[v].metadata.rule.Linear? && p.locals[v].metadata.tableId == d
    requires p.store.Lock(p.locals[d].table) == Some(tp) && r.store.Lock(r.signals[d].table) == Some(tr)
    ensures Drifted(q, r', v, d, tp, tr) && q.locals[v].valueIndex == p.locals[v].valueIndex
    ensures q.locals[v].isExplicit == p.locals[v].metadata.rule.Explicit?
  {
    var own, rxOwn, md := p.locals[v].table, OwnAt(r, v), p.locals[v].metadata;
    RefreshedLock(p.store, own, md, v, None);
    RefreshedLock(r.store, rxOwn, Sent(p.locals[v]), v, None);
    LockElsewhere(p.store, own, md, v, p.locals[d].table);
    LockElsewhere(r.store, rxOwn, Sent(p.locals[v]), v, r.signals[d].table);
    hide Store.Refreshed;
  }

  /** The signals as they are counted just before they are connected. */
  lemma CountedAgree(p: Publisher, r: Receiver, v: string, d: string)
    requires D.Agree(p, r) && Loose(p) && Ready(p, v, d)
    ensures var q := Counting(Counting(p, v, true), d, false);
            && D.Agree(q, r) && Loose(q) && q.locals.Keys == p.locals.Keys
            && SameLocal(p.locals[v], q.locals[v]) && SameLocal(p.locals[d], q.locals[d])
            && SubscribeLocal(p, v, true).pub == Connect(Connect(q, d).pub, v).pub
            && SubscribeLocal(p, v, true).out == Connect(q, d).out + Connect(Connect(q, d).pub, v).out
  {
    ReadyCounts(p, v, d);
    hide *;
    ReadyMeans(p, v, d);
    var m := Counting(p, v, true);
    CountLoose(p, r, v, true);
    CountLoose(m, r, d, false);
    SameLocalTwice(p.locals[d], m.locals[d], Counting(m, d, false).locals[d]);
    SubscribeStep(p, v, true);
    SubscribeStep(m, d, false);
  }

  lemma ReadyCounts(p: Publisher, v: string, d: string)
    requires Ready(p, v, d)
    ensures !p.locals[v].Subscribed() && Foreign(v, p.locals[v].metadata)
    ensures var m := Counting(p, v, true);
            && d in m.locals && !m.locals[d].Subscribed() && SameLocal(p.locals[d], m.locals[d])
            && m.locals[v] == Count(p.locals[v], true)
  {
  }

  lemma SameLocalTwice(e: Local, m: Local, e': Local)
    requires SameLocal(e, m) && SameLocal(m, e')
    ensures SameLocal(e, e')
  {
  }

  lemma CountLoose(p: Publisher, r: Receiver, id: string, explicitly: bool)
    requires D.Agree(p, r) && Loose(p) && id in p.locals
    ensures var q := Counting(p, id, explicitly);
            && D.Agree(q, r) && Loose(q) && q.locals.Keys == p.locals.Keys && SameLocal(p.locals[id], q.locals[id])
            && forall v | v in p.locals && v != id :: q.locals[v] == p.locals[v]
  {
    D.CountAgrees(p, r, id, Count(p.locals[id], explicitly));
    hide D.Agree;
  }

  lemma SubscribeDrifts(p: Publisher, r: Receiver, v: string, d: string)
    requires D.Agree(p, r) && Loose(p) && RxSound(r) && Ready(p, v, d)
    ensures var o := SubscribeLocal(p, v, true);
            var q, r' := o.pub, HandleAll(r, o.out);
            && D.Agree(q, r') && v in q.locals && q.locals[v].valueIndex == p.locals[v].valueIndex
            && q.locals[v].isExplicit == p.locals[v].metadata.rule.Explicit?
            && p.locals[d].metadata.start.Some? && p.locals[d].metadata.delta.Some?
            && Drifted(q, r', v, d, FirstTable(p, d, 0), FirstTable(p, d, p.locals[d].valueIndex))
  {
    CountedAgree(p, r, v, d);
    assert p.locals[d].metadata.start.Some? && p.locals[d].metadata.delta.Some? by {
      assert WellMade(d, p.locals[d].metadata);
    }
    var q0 := Counting(Counting(p, v, true), d, false);
    var c1 := Connect(q0, d);
    var r1 := HandleAll(r, c1.out);
    var c2 := Connect(c1.pub, v);
    ReadyMeans(p, v, d);
    hide *;
    ConnectEffect(q0, r, d);
    ConnectedMeans(q0, r, d, c1.pub, r1);
    ConnectedSound(q0, r, d, c1.pub, r1);
    FirstTables(q0, r, d, c1.pub, r1);
    FirstTableIs(p, q0, d);
    ConnectedOther(q0, r, d, c1.pub, r1, v);
    SameLocalMeans(p, q0, v, d);
    ConnectEffect(c1.pub, r1, v);
    HandleAllAppend(r, c1.out, c2.out);
    SecondBinds(c1.pub, r1, v, d, c2.pub, HandleAll(r1, c2.out),
      FirstTable(p, d, 0), FirstTable(p, d, p.locals[d].valueIndex));
    DriftedMeans(c2.pub, HandleAll(r1, c2.out), v, d, FirstTable(p, d, 0), FirstTable(p, d, p.locals[d].valueIndex));
  }

  lemma ReadyMeans(p: Publisher, v: string, d: string)
    requires Ready(p, v, d)
    ensures v != d && d != "" && v in p.locals && d in p.locals && p.locals[d].metadata.rule.Linear?
    ensures !p.locals[v].metadata.rule.Linear? && p.locals[v].metadata.tableId == d
  {
  }

  lemma ConnectedMeans(p: Publisher, r: Receiver, id: string, q: Publisher, r': Receiver)
    requires Connected(p, r, id, q, r')
    ensures q.locals.Keys == p.locals.Keys && id in q.locals && id in r'.signals && q.locals[id].connected
  {
  }

  lemma ConnectedOther(p: Publisher, r: Receiver, id: string, q: Publisher, r': Receiver, v: string)
    requires Connected(p, r, id, q, r') && v in p.locals && v != id
    ensures v in q.locals && q.locals[v] == p.locals[v]
  {
  }

  lemma SameLocalMeans(p: Publisher, q: Publisher, v: string, d: string)
    requires v in p.locals && v in q.locals && d in p.locals && d in q.locals
    requires SameLocal(p.locals[v], q.locals[v]) && SameLocal(p.locals[d], q.locals[d])
    ensures q.locals[v].metadata == p.locals[v].metadata && q.locals[v].valueIndex == p.locals[v].valueIndex
    ensures q.locals[d].metadata == p.locals[d].metadata && q.locals[d].valueIndex == p.locals[d].valueIndex
  {
  }

  lemma FirstTableIs(p: Publisher, q: Publisher, d: string)
    requires d in p.locals && d in q.locals && SameLocal(p.locals[d], q.locals[d])
    requires p.locals[d].metadata.start.Some? && p.locals[d].metadata.delta.Some?
    ensures q.locals[d].metadata == p.locals[d].metadata && q.locals[d].valueIndex == p.locals[d].valueIndex
    ensures forall index: int64 :: FirstTable(q, d, index) == FirstTable(p, d, index)
  {
  }

  lemma DriftedMeans(p: Publisher, r: Receiver, v: string, d: string, tp: Table, tr: Table)
    requires Drifted(p, r, v, d, tp, tr)
    ensures v in p.locals
  {
  }

  /** The line of one table meets that of the other where the indices differ by whole turns of 64 bits. */
  lemma LinesMeet(d: string, start: int64, delta: int64, samples: nat, index: int64)
    ensures Table(d, 0, start, delta, 0).ValueAt(index) == Table(d, Wrap(samples), start, delta, Wrap(samples)).ValueAt(index)
            <==> Wrap(delta * samples) == 0
  {
    var x, y := start + delta * (index - 0), start + delta * (index - Wrap(samples));
    var period := 0x1_0000_0000_0000_0000;
    var a := WrapOffset(samples);
    var b := WrapOffset(x);
    var c := WrapOffset(y);
    var e := WrapOffset(delta * samples);
    Shift(delta, index, samples, a, period);
    assert x - y == delta * samples + (delta * a) * period;
    hide Wrap;
    if Wrap(x) == Wrap(y) {
      assert delta * samples == 0 + (c - b - delta * a) * period;
      WrapPeriod(0, c - b - delta * a);
      WrapZero();
    } else if Wrap(delta * samples) == 0 {
      assert x == y + (delta * a - e) * period;
      WrapPeriod(y, delta * a - e);
      assert false;
    }
  }

  lemma Shift(delta: int, index: int, samples: int, a: int, period: int)
    ensures delta * (index - 0) - delta * (index - (samples + a * period)) == delta * samples + (delta * a) * period
  {
  }

  // ----- over runs -----

  /** The time that the publisher predicts for a domain's sample, on a domain just made. */
  function Predicted(md: Metadata, index: int64): int64
    requires md.start.Some? && md.delta.Some?
  {
    Wrap(md.start.value + md.delta.value * index)
  }

  /** Samples that amount to nothing on the line of a domain. */
  predicate Worthless(md: Metadata, samples: nat)
    requires md.delta.Some?
  {
    Wrap(md.delta.value * samples) == 0
  }

  /** Exactly which first block keeps its time. After any mannerly run, a signal that is not subscribed is
      made a domain, a signal that uses it is subscribed, and a block is published: its time survives if
      and only if a domain packet precedes it, the time not being the one the publisher predicts, or the
      samples published on the domain before are worth nothing on its line; or the signal is not an
      explicit-rule one, which goes by the index the receiver's table has reached. */
  lemma FirstBlockTimeExactly(ops: seq<Op>, d: string, md: Metadata, v: string, time: int64, count: nat, data: seq<byte>)
    requires T.AllMannerly(ops) && WellMade(d, md) && md.rule.Linear?
    requires var p := Run(ops).pub;
             && v != d && v in p.locals && d in p.locals && !p.locals[v].Subscribed() && !p.locals[d].Subscribed()
             && !p.locals[v].metadata.rule.Linear? && p.locals[v].metadata.tableId == d
    ensures var run := ops + [OpSetMetadata(d, md)] + [OpSubscribe(v)] + [OpPublish(v, time, count, data)];
            T.LastTime(run) == time <==>
              || !Run(ops).pub.locals[v].metadata.rule.Explicit?
              || time != Predicted(md, Wrap(SamplesSince(ops, v)))
              || Worthless(md, SamplesSince(ops, d))
  {
    var p, r := Run(ops).pub, HandleAll(NOBODY, Run(ops).out);
    var q := SetMetadata(p, d, md).pub;
    MadeLinear(ops, d, md, v);
    hide *;
    SubscribeDrifts(q, r, v, d);
    var o := SubscribeLocal(q, v, true);
    var r' := HandleAll(r, o.out);
    DriftedBlock(o.pub, r', v, d, FirstTable(q, d, 0), FirstTable(q, d, q.locals[d].valueIndex), time, count, data);
    RunThree(ops, d, md, v, time, count, data);
    FirstTablesMeet(q, d, md, SamplesSince(ops, d), Wrap(SamplesSince(ops, v)));
    IndicesAre(o.pub.locals[v], FirstTable(q, d, 0));
    IndicesAre(o.pub.locals[v], FirstTable(q, d, q.locals[d].valueIndex));
  }

  lemma IndicesAre(e: Local, t: Table)
    ensures NextIndex(e, t) == (if e.isExplicit then e.valueIndex else t.driven)
    ensures t.DrivenValue() == t.ValueAt(t.driven)
  {
  }

  lemma FirstTablesMeet(p: Publisher, d: string, md: Metadata, samples: nat, index: int64)
    requires d in p.locals && p.locals[d].metadata == md && md.start.Some? && md.delta.Some?
    ensures FirstTable(p, d, 0).ValueAt(index) == Predicted(md, index)
    ensures FirstTable(p, d, 0).ValueAt(index) == FirstTable(p, d, Wrap(samples)).ValueAt(index) <==> Worthless(md, samples)
    ensures FirstTable(p, d, 0).DrivenValue() == FirstTable(p, d, Wrap(samples)).DrivenValue()
  {
    assert md.delta.value * (0 - 0) == md.delta.value * (Wrap(samples) - Wrap(samples));
    LinesMeet(d, md.start.value, md.delta.value, samples, index);
    hide Wrap;
  }

  /** The state in which the signal has been made a domain and nobody was told. */
  lemma MadeLinear(ops: seq<Op>, d: string, md: Metadata, v: string)
    requires T.AllMannerly(ops) && WellMade(d, md) && md.rule.Linear?
    requires var p := Run(ops).pub;
             && v != d && v in p.locals && d in p.locals && !p.locals[v].Subscribed() && !p.locals[d].Subscribed()
             && !p.locals[v].metadata.rule.Linear? && p.locals[v].metadata.tableId == d
    ensures md.start.Some? && md.delta.Some?
    ensures var q, r := SetMetadata(Run(ops).pub, d, md).pub, HandleAll(NOBODY, Run(ops).out);
            && D.Agree(q, r) && Loose(q) && RxSound(r) && Ready(q, v, d)
            && SetMetadata(Run(ops).pub, d, md).out == []
            && q.locals[d].metadata == md && q.locals[d].valueIndex == Wrap(SamplesSince(ops, d))
            && q.locals[v].valueIndex == Wrap(SamplesSince(ops, v))
            && q.locals[v].metadata == Run(ops).pub.locals[v].metadata
  {
    var p, r := Run(ops).pub, HandleAll(NOBODY, Run(ops).out);
    T.EverythingDue(ops);
    KeepsBothMeans(Run(ops), NOBODY, T.AllDue(ops));
    T.AllMannerlyPermitted(ops);
    IndexCounts(ops, d);
    IndexCounts(ops, v);
    hide Run, HandleAll, SamplesSince, KeepsBoth, T.AllMannerly, R.AllPermitted;
    BothMeans(p, r);
    BalancedPlain(p);
    NamedIds(p, d);
    hide R.Balanced, R.View, Both, Wrap;
    MadeLinearIn(p, r, d, md, v);
  }

  lemma MadeLinearIn(p: Publisher, r: Receiver, d: string, md: Metadata, v: string)
    requires D.Agree(p, r) && PubSound(p) && Plain(p) && WellMade(d, md) && md.rule.Linear? && d != ""
    requires v != d && v in p.locals && d in p.locals && !p.locals[v].Subscribed() && !p.locals[d].Subscribed()
    requires !p.locals[v].metadata.rule.Linear? && p.locals[v].metadata.tableId == d
    ensures var s := SetMetadata(p, d, md);
            && s.out == [] && D.Agree(s.pub, r) && Loose(s.pub) && Ready(s.pub, v, d)
            && s.pub.locals[d].metadata == md && s.pub.locals[d].valueIndex == p.locals[d].valueIndex
            && s.pub.locals[v] == p.locals[v]
  {
    SoundIsLoose(p);
    D.CountAgrees(p, r, d, p.locals[d].(metadata := md));
    hide D.Agree, PubSound;
  }

  lemma RunThree(ops: seq<Op>, d: string, md: Metadata, v: string, time: int64, count: nat, data: seq<byte>)
    requires SetMetadata(Run(ops).pub, d, md).out == []
    ensures var run := ops + [OpSetMetadata(d, md)] + [OpSubscribe(v)] + [OpPublish(v, time, count, data)];
            var o := SubscribeLocal(SetMetadata(Run(ops).pub, d, md).pub, v, true);
            var x := HandleAll(HandleAll(HandleAll(NOBODY, Run(ops).out), o.out), Publish(o.pub, v, time, count, data).out).delivered;
            T.LastTime(run) == if x == [] then 0 else x[|x| - 1].time
  {
    hide *;
    var a := ops + [OpSetMetadata(d, md)];
    var b := a + [OpSubscribe(v)];
    var o := SubscribeLocal(SetMetadata(Run(ops).pub, d, md).pub, v, true);
    RunNext(ops, OpSetMetadata(d, md));
    ApplySetMetadata(Run(ops).pub, d, md);
    RunNext(a, OpSubscribe(v));
    ApplySubscribe(Run(a).pub, v);
    RunNext(b, OpPublish(v, time, count, data));
    ApplyPublish(Run(b).pub, v, time, count, data);
    assert Run(ops).out + [] == Run(ops).out;
    HandleAllAppend(NOBODY, Run(ops).out, o.out);
    HandleAllAppend(NOBODY, Run(ops).out + o.out, Publish(o.pub, v, time, count, data).out);
    LastTimeMeans(b + [OpPublish(v, time, count, data)]);
  }

  lemma LastTimeMeans(ops: seq<Op>)
    ensures var x := HandleAll(NOBODY, Run(ops).out).delivered;
            T.LastTime(ops) == if x == [] then 0 else x[|x| - 1].time
  {
    hide Run, HandleAll;
  }

  /** The two ends start to forward a domain with the same table if and only if the samples published on it
      before, as far as 64 bits go, are none. */
  lemma FirstTablesAgreeExactly(ops: seq<Op>, r: Receiver, d: string)
    requires R.AllPermitted(ops) && d in Run(ops).pub.locals && d in r.signals && d != "" && Bounded(r.store)
    requires var p := Run(ops).pub;
             Bounded(p.store) && Owns(p.store, p.locals[d].table, d) && Owns(r.store, r.signals[d].table, d)
             && WellMade(d, p.locals[d].metadata) && p.locals[d].metadata.rule.Linear?
    ensures var q, sent := Connect(Run(ops).pub, d).pub, Connect(Run(ops).pub, d).out[1].metadata;
            && sent == Sent(Run(ops).pub.locals[d])
            && (q.store.Lock(q.locals[d].table) == TakeMetadata(r, d, sent).store.Lock(TakeMetadata(r, d, sent).signals[d].table)
                <==> Wrap(SamplesSince(ops, d)) == 0)
  {
    var p := Run(ops).pub;
    IndexCounts(ops, d);
    hide Store.Refreshed, Run, SamplesSince, Wrap;
    RefreshedLock(p.store, p.locals[d].table, p.locals[d].metadata, d, None);
    RefreshedLock(r.store, r.signals[d].table, Sent(p.locals[d]), d, None);
  }
}
