/** The two ends of a connection in step: after everything sent was handled they hold the same tables,
    bindings and sample indices. Each kind of step keeps them so. */
module Steps {
  import opened Bytes
  import opened LinearTables
  import opened Publishers
  import opened Receivers
  import D = Directories
  import R = References

  /** Metadata as the builder makes it: it has a value index of zero, and a linear signal has a start and
      a step and names itself as its table. */
  predicate WellMade(id: string, md: Metadata) {
    && md.valueIndex == Some(0)
    && (md.rule.Linear? ==> md.tableId == id && md.start.Some? && md.delta.Some?)
  }

  // ----- what the remote application must be given -----

  /** A block as the remote application must get it. */
  function ValueDelivery(id: string, e: Local, time: int64, count: nat, data: seq<byte>): Delivery {
    if e.metadata.rule.Explicit? then Delivery(id, time, count, data)
    else ConstantDelivery(id, time, e.metadata.sampleSize, data)
  }

  /** The domain packet that must precede a block, as the application gets it. */
  function PacketDelivery(p: Publisher, id: string, time: int64): seq<Delivery>
    requires id in p.locals
  {
    var e := p.locals[id];
    if OffTheLine(p, id, time) then
      [Delivery(e.metadata.tableId, 0, 0, LinearPayload(NextIndex(e, Domain(p, id).value), time))]
    else []
  }

  // ----- sound stores -----

  /** A signal's own table is alive and carries its id. */
  predicate Owns(store: Store, own: Option<nat>, id: string) {
    own.Some? ==> own.value in store.live && store.live[own.value].id == id
  }

  predicate Old(store: Store, reference: Option<nat>) {
    reference.Some? ==> reference.value < store.next
  }

  predicate Bounded(store: Store) {
    forall h | h in store.live :: h < store.next
  }

  predicate LocalSound(store: Store, id: string, e: Local) {
    && id != "" && Owns(store, e.table, id) && Old(store, e.domainTable)
    && WellMade(id, e.metadata) && (e.metadata.rule.Linear? ==> e.valueIndex == 0)
  }

  predicate PubSound(p: Publisher) {
    Bounded(p.store) && forall id | id in p.locals :: LocalSound(p.store, id, p.locals[id])
  }

  predicate RxSound(r: Receiver) {
    Bounded(r.store)
    && forall id | id in r.signals :: Owns(r.store, r.signals[id].table, id) && Old(r.store, r.signals[id].domainTable)
  }

  // ----- the two ends in step -----

  /** The two ends agree on a signal's own table, its metadata and its sample index. */
  predicate SameSignal(p: Publisher, e: Local, r: Receiver, s: Remote) {
    && p.store.Lock(e.table) == r.store.Lock(s.table)
    && (e.table.Some? <==> e.metadata.rule.Linear?)
    && e.isExplicit == s.isExplicit == e.metadata.rule.Explicit?
    && s.sampleSize == e.metadata.sampleSize && s.binary == e.metadata.binary
    && (e.isExplicit ==> s.valueIndex == e.valueIndex)
  }

  /** The two ends agree on the table a signal is bound to: a connected domain's own, or none alive; but
      the receiver may still hold the table of a domain that is no longer registered. */
  predicate SameBinding(p: Publisher, id: string, e: Local, r: Receiver, s: Remote) {
    var t := e.metadata.tableId;
    && (p.store.Lock(e.domainTable).Some? ==>
          && r.store.Lock(s.domainTable).Some?
          && t != id && t in p.locals && p.locals[t].connected && t in r.signals
          && e.domainTable == p.locals[t].table && s.domainTable == r.signals[t].table
          && e.domainSigno == p.locals[t].signo)
    && (p.store.Lock(e.domainTable).None? && r.store.Lock(s.domainTable).Some? ==>
          t != "" && t !in p.locals && r.store.Lock(s.domainTable).value.id == t)
  }

  predicate InStep(p: Publisher, r: Receiver, id: string)
    requires id in p.locals
  {
    && id in r.signals
    && SameSignal(p, p.locals[id], r, r.signals[id])
    && SameBinding(p, id, p.locals[id], r, r.signals[id])
  }

  /** Every connected signal is in step. */
  predicate AllInStep(p: Publisher, r: Receiver) {
    && PubSound(p) && RxSound(r)
    && forall id | id in p.locals && p.locals[id].connected :: InStep(p, r, id)
  }

  // ----- refreshing a table -----

  /** What refreshing a signal's table does to any reference that was handed out before. */
  lemma RefreshedLock(store: Store, own: Option<nat>, md: Metadata, id: string, reference: Option<nat>)
    requires Bounded(store) && Owns(store, own, id) && Old(store, reference)
    requires md.rule.Linear? ==> md.tableId == id != "" && md.start.Some? && md.delta.Some? && md.valueIndex.Some?
    ensures var (store', own') := store.Refreshed(own, md);
            && Bounded(store') && Owns(store', own', id) && store.next <= store'.next && Old(store', own')
            && (own'.Some? <==> md.rule.Linear?)
            && (md.rule.Linear? ==>
                  && store'.Lock(own') == Some(Table(id, md.valueIndex.value, md.start.value, md.delta.value, md.valueIndex.value))
                  && (own.Some? ==> own' == own))
            && (reference != own ==> store'.Lock(reference) == store.Lock(reference))
            && (!md.rule.Linear? ==> store'.Lock(own) == None)
  {
  }

  /** A table is found by its name exactly when the signal of that name has one. */
  lemma FindTableFinds(r: Receiver, t: string)
    requires RxSound(r) && t != ""
    ensures FindTable(r, t) == if t in r.signals && r.store.Lock(r.signals[t].table).Some? then Some(t) else None
  {
    forall id ensures HasTable(r, id, t) ==> id == t {
    }
    if HasTable(r, t, t) {
      assert IsFirstTable(r, t, t) by {
        LessIrreflexive(t);
      }
    }
  }

  /** The same as RefreshedLock for a reference to another signal's table, or a dead one. */
  lemma LockElsewhere(store: Store, own: Option<nat>, md: Metadata, id: string, reference: Option<nat>)
    requires Bounded(store) && Owns(store, own, id) && Old(store, reference)
    requires md.rule.Linear? ==> md.tableId == id != "" && md.start.Some? && md.delta.Some? && md.valueIndex.Some?
    requires reference == own ==> own == None
    ensures store.Refreshed(own, md).0.Lock(reference) == store.Lock(reference)
  {
    RefreshedLock(store, own, md, id, reference);
  }

  /** What both ends do when a signal's metadata is sent: they refresh its own table, and only its entry
      changes otherwise. */
  predicate Refreshes(p: Publisher, r: Receiver, id: string, sent: Metadata, q: Publisher, r': Receiver) {
    && id in p.locals && id in r.signals
    && q.locals.Keys == p.locals.Keys && r'.signals.Keys == r.signals.Keys
    && (forall v | v in p.locals && v != id :: q.locals[v] == p.locals[v])
    && (forall v | v in r.signals && v != id :: r'.signals[v] == r.signals[v])
    && q.locals[id].signo == p.locals[id].signo && q.locals[id].connected
    && WellMade(id, q.locals[id].metadata)
    && (q.store, q.locals[id].table) == p.store.Refreshed(p.locals[id].table, q.locals[id].metadata)
    && (r'.store, r'.signals[id].table) == r.store.Refreshed(r.signals[id].table, sent)
    && sent == q.locals[id].metadata.(valueIndex := Some(q.locals[id].valueIndex))
    && (sent.rule.Linear? ==> q.locals[id].valueIndex == 0)
  }

  /** A signal bound to another one's table stays in step when that table is refreshed. */
  lemma OthersStay(p: Publisher, r: Receiver, id: string, sent: Metadata, q: Publisher, r': Receiver, v: string)
    requires AllInStep(p, r) && Refreshes(p, r, id, sent, q, r')
    requires v in p.locals && p.locals[v].connected && v != id
    ensures InStep(q, r', v)
  {
    hide Store.Refreshed;
    var own, rxOwn, md := p.locals[id].table, r.signals[id].table, q.locals[id].metadata;
    var e, s := p.locals[v], r.signals[v];
    assert LocalSound(p.store, id, p.locals[id]) && LocalSound(p.store, v, e);
    assert InStep(p, r, v);
    LockElsewhere(p.store, own, md, id, e.table);
    LockElsewhere(r.store, rxOwn, sent, id, s.table);
    var t := e.metadata.tableId;
    if p.store.Lock(e.domainTable).Some? && t == id {
      assert InStep(p, r, id);
      RefreshedLock(p.store, own, md, id, own);
      RefreshedLock(r.store, rxOwn, sent, id, rxOwn);
    } else {
      if p.store.Lock(e.domainTable).Some? {
        assert LocalSound(p.store, t, p.locals[t]);
      }
      LockElsewhere(p.store, own, md, id, e.domainTable);
      LockElsewhere(r.store, rxOwn, sent, id, s.domainTable);
    }
  }

  /** Both ends take over the same metadata. */
  predicate TakesOver(q: Publisher, id: string, sent: Metadata, r': Receiver)
    requires id in q.locals && id in r'.signals
  {
    && q.locals[id].isExplicit == sent.rule.Explicit? == r'.signals[id].isExplicit
    && r'.signals[id].sampleSize == sent.sampleSize && r'.signals[id].binary == sent.binary
    && r'.signals[id].valueIndex == q.locals[id].valueIndex
  }

  /** Each end binds the signal to the table of the domain that the metadata names. */
  predicate Binds(p: Publisher, r: Receiver, id: string, sent: Metadata, q: Publisher, r': Receiver)
    requires id in q.locals && id in r'.signals
  {
    var t := sent.tableId;
    var bound := Foreign(id, sent) && t in p.locals;
    && q.locals[id].domainTable == (if bound then p.locals[t].table else None)
    && (bound ==> q.locals[id].domainSigno == p.locals[t].signo)
    && r'.signals[id].domainTable ==
         if Foreign(id, sent) && t in r.signals && r.store.Lock(r.signals[t].table).Some? then r.signals[t].table else None
  }

  lemma OwnSignal(p: Publisher, r: Receiver, id: string, sent: Metadata, q: Publisher, r': Receiver)
    requires PubSound(p) && RxSound(r) && Refreshes(p, r, id, sent, q, r') && TakesOver(q, id, sent, r')
    ensures SameSignal(q, q.locals[id], r', r'.signals[id])
  {
    hide Store.Refreshed;
    var own, rxOwn, md := p.locals[id].table, r.signals[id].table, q.locals[id].metadata;
    assert LocalSound(p.store, id, p.locals[id]);
    RefreshedLock(p.store, own, md, id, None);
    RefreshedLock(r.store, rxOwn, sent, id, None);
  }

  lemma OwnBinding(p: Publisher, r: Receiver, id: string, sent: Metadata, q: Publisher, r': Receiver)
    requires AllInStep(p, r) && Refreshes(p, r, id, sent, q, r') && Binds(p, r, id, sent, q, r')
    requires forall x | x in r.signals :: x in p.locals
    requires Foreign(id, sent) && sent.tableId in p.locals ==> p.locals[sent.tableId].connected
    ensures SameBinding(q, id, q.locals[id], r', r'.signals[id])
  {
    hide Store.Refreshed;
    var own, rxOwn, md, t := p.locals[id].table, r.signals[id].table, q.locals[id].metadata, sent.tableId;
    assert LocalSound(p.store, id, p.locals[id]);
    if Foreign(id, md) && t in p.locals {
      assert InStep(p, r, t) && LocalSound(p.store, t, p.locals[t]);
      LockElsewhere(p.store, own, md, id, p.locals[t].table);
      LockElsewhere(r.store, rxOwn, sent, id, r.signals[t].table);
    }
  }

  lemma RefreshSound(p: Publisher, r: Receiver, id: string, sent: Metadata, q: Publisher, r': Receiver)
    requires PubSound(p) && RxSound(r) && Refreshes(p, r, id, sent, q, r')
    requires Old(p.store, q.locals[id].domainTable) && Old(r.store, r'.signals[id].domainTable)
    ensures PubSound(q) && RxSound(r')
  {
    hide Store.Refreshed;
    var own, rxOwn, md := p.locals[id].table, r.signals[id].table, q.locals[id].metadata;
    assert LocalSound(p.store, id, p.locals[id]);
    RefreshedLock(p.store, own, md, id, None);
    RefreshedLock(r.store, rxOwn, sent, id, None);
    forall v | v in q.locals ensures LocalSound(q.store, v, q.locals[v]) {
      if v != id {
        assert LocalSound(p.store, v, p.locals[v]);
        LockElsewhere(p.store, own, md, id, p.locals[v].table);
      }
    }
    forall v | v in r'.signals ensures Owns(r'.store, r'.signals[v].table, v) && Old(r'.store, r'.signals[v].domainTable) {
      if v != id {
        LockElsewhere(r.store, rxOwn, sent, id, r.signals[v].table);
      }
    }
  }

  /** The two ends after a signal's metadata was sent and handled. */
  lemma RefreshedInStep(p: Publisher, r: Receiver, id: string, sent: Metadata, q: Publisher, r': Receiver)
    requires AllInStep(p, r) && Refreshes(p, r, id, sent, q, r')
    requires TakesOver(q, id, sent, r') && Binds(p, r, id, sent, q, r')
    requires forall x | x in r.signals :: x in p.locals
    requires Foreign(id, sent) && sent.tableId in p.locals ==> p.locals[sent.tableId].connected
    ensures AllInStep(q, r')
  {
    OldTables(p, r, id, sent, q, r');
    RefreshSound(p, r, id, sent, q, r');
    OwnSignal(p, r, id, sent, q, r');
    OwnBinding(p, r, id, sent, q, r');
    hide Refreshes, SameSignal, SameBinding, PubSound, RxSound;
    forall v | v in q.locals && q.locals[v].connected ensures InStep(q, r', v) {
      if v != id {
        ElsewhereConnected(p, r, id, sent, q, r', v);
        OthersStay(p, r, id, sent, q, r', v);
      }
    }
  }

  lemma ElsewhereConnected(p: Publisher, r: Receiver, id: string, sent: Metadata, q: Publisher, r': Receiver, v: string)
    requires Refreshes(p, r, id, sent, q, r') && v in q.locals && q.locals[v].connected && v != id
    ensures v in p.locals && p.locals[v].connected
  {
  }

  /** The tables a signal may be bound to were there before. */
  lemma OldTables(p: Publisher, r: Receiver, id: string, sent: Metadata, q: Publisher, r': Receiver)
    requires AllInStep(p, r) && id in q.locals && id in r'.signals && Binds(p, r, id, sent, q, r')
    ensures Old(p.store, q.locals[id].domainTable) && Old(r.store, r'.signals[id].domainTable)
  {
    var t := sent.tableId;
    if Foreign(id, sent) && t in p.locals {
      assert LocalSound(p.store, t, p.locals[t]);
    }
  }

  // ----- the steps that send metadata -----

  /** What the receiver makes of a signal's metadata. */
  lemma SignalEffect(r: Receiver, signo: nat, id: string, md: Metadata)
    requires RxSound(r) && Find(r, signo) == Some(id) && md.valueIndex.Some? && id != ""
    requires md.rule.Linear? ==> md.tableId == id && md.start.Some? && md.delta.Some?
    ensures var r', t := HandleSignal(r, signo, md), md.tableId;
            && id in r.signals && r'.signals.Keys == r.signals.Keys && r'.delivered == r.delivered
            && (forall v | v in r.signals && v != id :: r'.signals[v] == r.signals[v])
            && (r'.store, r'.signals[id].table) == r.store.Refreshed(r.signals[id].table, md)
            && r'.signals[id].isExplicit == md.rule.Explicit? && r'.signals[id].valueIndex == md.valueIndex.value
            && r'.signals[id].sampleSize == md.sampleSize && r'.signals[id].binary == md.binary
            && r'.signals[id].domainTable ==
                 if Foreign(id, md) && t in r.signals && r.store.Lock(r.signals[t].table).Some? then r.signals[t].table else None
  {
    var q, t := TakeMetadata(r, id, md), md.tableId;
    TakenSound(r, id, md);
    if Foreign(id, md) {
      hide Store.Refreshed, RxSound, FindTable;
      FindTableFinds(q, t);
      if t in r.signals {
        SoundAt(r, t);
        SoundAt(r, id);
        LockElsewhere(r.store, r.signals[id].table, md, id, r.signals[t].table);
      }
    }
  }

  lemma SoundAt(r: Receiver, id: string)
    requires RxSound(r) && id in r.signals
    ensures Bounded(r.store) && Owns(r.store, r.signals[id].table, id)
    ensures Old(r.store, r.signals[id].table) && Old(r.store, r.signals[id].domainTable)
  {
  }

  lemma TakenSound(r: Receiver, id: string, md: Metadata)
    requires RxSound(r) && id in r.signals && md.valueIndex.Some? && id != ""
    requires md.rule.Linear? ==> md.tableId == id && md.start.Some? && md.delta.Some?
    ensures RxSound(TakeMetadata(r, id, md))
  {
    hide Store.Refreshed;
    var q := TakeMetadata(r, id, md);
    RefreshedLock(r.store, r.signals[id].table, md, id, None);
    forall v | v in q.signals ensures Owns(q.store, q.signals[v].table, v) && Old(q.store, q.signals[v].domainTable) {
      if v != id {
        LockElsewhere(r.store, r.signals[id].table, md, id, r.signals[v].table);
      }
    }
  }

  // ----- steps that leave the tables alone -----

  predicate SameRemote(s: Remote, s': Remote) {
    && s'.table == s.table && s'.domainTable == s.domainTable && s'.isExplicit == s.isExplicit
    && s'.sampleSize == s.sampleSize && s'.binary == s.binary && s'.valueIndex == s.valueIndex
  }

  /** A message that tells nothing about metadata or data. */
  predicate RemotesKept(r: Receiver, r': Receiver) {
    && r'.store == r.store && r'.delivered == r.delivered
    && forall id | id in r'.signals ::
         SameRemote(if id in r.signals then r.signals[id] else Fresh(true), r'.signals[id])
  }

  predicate SameLocal(e: Local, e': Local) {
    && e'.signo == e.signo && e'.metadata == e.metadata && e'.table == e.table && e'.valueIndex == e.valueIndex
    && e'.domainSigno == e.domainSigno && e'.domainTable == e.domainTable && e'.isExplicit == e.isExplicit
  }

  /** Nothing of a signal changes but how it is subscribed; nothing gets connected, and what is bound to
      a signal that is disconnected is disconnected too. */
  predicate LocalsKept(p: Publisher, q: Publisher) {
    && q.store == p.store && q.locals.Keys == p.locals.Keys
    && (forall id | id in p.locals :: SameLocal(p.locals[id], q.locals[id]))
    && (forall id | id in q.locals && q.locals[id].connected :: p.locals[id].connected)
    && (forall id, t | id in q.locals && q.locals[id].connected && t in q.locals && p.locals[t].connected && !q.locals[t].connected ::
          !(Foreign(id, q.locals[id].metadata) && q.locals[id].metadata.tableId == t))
  }

  lemma KeptInStep(p: Publisher, r: Receiver, q: Publisher, r': Receiver)
    requires AllInStep(p, r) && LocalsKept(p, q) && RemotesKept(r, r')
    requires forall id | id in q.locals && q.locals[id].connected :: id in r'.signals
    ensures AllInStep(q, r')
  {
    forall id | id in q.locals ensures LocalSound(q.store, id, q.locals[id]) {
      assert LocalSound(p.store, id, p.locals[id]);
      assert SameLocal(p.locals[id], q.locals[id]);
    }
    forall id | id in q.locals && q.locals[id].connected ensures InStep(q, r', id) {
      assert InStep(p, r, id) && SameLocal(p.locals[id], q.locals[id]);
      var t := p.locals[id].metadata.tableId;
      if p.store.Lock(p.locals[id].domainTable).Some? {
        assert LocalSound(p.store, t, p.locals[t]);
        assert SameLocal(p.locals[t], q.locals[t]);
      }
    }
  }

  lemma SubscribeKeeps(r: Receiver, signo: nat, id: string)
    ensures RemotesKept(r, HandleSubscribe(r, signo, id))
    ensures forall x | x in r.signals :: x in HandleSubscribe(r, signo, id).signals
  {
  }

  lemma UnsubscribeKeeps(r: Receiver, signo: nat)
    ensures RemotesKept(r, HandleUnsubscribe(r, signo)) && HandleUnsubscribe(r, signo).signals.Keys == r.signals.Keys
  {
  }

  // ----- both agreements together -----

  ghost predicate Both(p: Publisher, r: Receiver) {
    D.Agree(p, r) && AllInStep(p, r)
  }

  /** A step that keeps both agreements and delivers what it must. */
  ghost predicate KeepsBoth(s: Step, r: Receiver, deliveries: seq<Delivery>) {
    && Both(s.pub, HandleAll(r, s.out))
    && HandleAll(r, s.out).delivered == r.delivered + deliveries
  }

  lemma BothAppend(a: Step, b: Step, r: Receiver, x: seq<Delivery>, y: seq<Delivery>)
    requires KeepsBoth(a, r, x) && KeepsBoth(b, HandleAll(r, a.out), y)
    ensures KeepsBoth(Step(b.pub, a.out + b.out), r, x + y)
  {
    hide HandleAll, Both;
    HandleAllAppend(r, a.out, b.out);
    assert (r.delivered + x) + y == r.delivered + (x + y);
  }

  lemma QuietAppend(a: Step, b: Step, r: Receiver)
    requires KeepsBoth(a, r, []) && KeepsBoth(b, HandleAll(r, a.out), [])
    ensures KeepsBoth(Step(b.pub, a.out + b.out), r, [])
  {
    hide HandleAll, Both;
    BothAppend(a, b, r, [], []);
  }

  lemma NothingBoth(p: Publisher, r: Receiver)
    requires Both(p, r)
    ensures KeepsBoth(Step(p, []), r, [])
  {
    hide Both;
    D.Nothing(r);
  }

  /** Everything known at the receiver is registered. */
  lemma KnownIsRegistered(p: Publisher, r: Receiver)
    requires D.Agree(p, r)
    ensures forall id | id in r.signals :: id in p.locals
    ensures forall id | id in p.locals && p.locals[id].connected :: id in r.signals
  {
    forall id ensures (id in r.signals ==> id in p.locals) && (id in p.locals && p.locals[id].connected ==> id in r.signals) {
      assert D.Entered(p, r, id);
    }
  }

  /** A connected signal is found by its number, and takes data. */
  lemma FoundBySigno(p: Publisher, r: Receiver, id: string)
    requires D.Agree(p, r) && id in p.locals && p.locals[id].connected
    ensures Find(r, p.locals[id].signo) == Some(id) && r.signals[id].subscribed
  {
    assert D.Entered(p, r, id);
  }

  lemma CountBoth(p: Publisher, r: Receiver, id: string, e: Local)
    requires Both(p, r) && id in p.locals && SameLocal(p.locals[id], e) && e.connected == p.locals[id].connected
    ensures Both(p.(locals := p.locals[id := e]), r)
  {
    D.CountAgrees(p, r, id, e);
    KnownIsRegistered(p, r);
    hide D.Agree, AllInStep;
    KeptInStep(p, r, p.(locals := p.locals[id := e]), r);
  }

  /** What the publishing side does when it sends a signal's metadata. */
  predicate Sends(p: Publisher, id: string, q: Publisher) {
    && id in p.locals && q.locals.Keys == p.locals.Keys
    && (forall v | v in p.locals && v != id :: q.locals[v] == p.locals[v])
    && var e, t := q.locals[id], q.locals[id].metadata.tableId;
    var bound := Foreign(id, e.metadata) && t in p.locals;
    && e.signo == p.locals[id].signo && e.connected && WellMade(id, e.metadata)
    && (q.store, e.table) == p.store.Refreshed(p.locals[id].table, e.metadata)
    && e.isExplicit == e.metadata.rule.Explicit? && (e.metadata.rule.Linear? ==> e.valueIndex == 0)
    && e.domainTable == (if bound then p.locals[t].table else None)
    && (bound ==> e.domainSigno == p.locals[t].signo && p.locals[t].connected)
  }

  function Sent(e: Local): Metadata {
    e.metadata.(valueIndex := Some(e.valueIndex))
  }

  /** The receiver follows when it handles that metadata. */
  lemma SentInStep(p: Publisher, r: Receiver, id: string, q: Publisher)
    requires AllInStep(p, r) && Sends(p, id, q) && id != ""
    requires Find(r, p.locals[id].signo) == Some(id) && forall x | x in r.signals :: x in p.locals
    ensures var r' := HandleSignal(r, p.locals[id].signo, Sent(q.locals[id]));
            AllInStep(q, r') && r'.delivered == r.delivered
  {
    var sent := Sent(q.locals[id]);
    SignalEffect(r, p.locals[id].signo, id, sent);
    var r' := HandleSignal(r, p.locals[id].signo, sent);
    hide HandleSignal, Store.Refreshed, AllInStep;
    assert Refreshes(p, r, id, sent, q, r');
    RefreshedInStep(p, r, id, sent, q, r');
  }

  lemma ConnectSends(p: Publisher, id: string)
    requires PubSound(p) && id in p.locals
    requires var t := p.locals[id].metadata.tableId;
             Foreign(id, p.locals[id].metadata) && t in p.locals ==> p.locals[t].connected
    ensures Sends(p, id, Connect(p, id).pub) && id != ""
    ensures var e := p.locals[id];
            && Sent(Connect(p, id).pub.locals[id]) == Sent(e)
            && Connect(p, id).out == [Subscribe(e.signo, id), Signal(e.signo, Sent(e))]
  {
    assert LocalSound(p.store, id, p.locals[id]);
    hide Store.Refreshed;
  }

  lemma BothMeans(p: Publisher, r: Receiver)
    ensures Both(p, r) <==> D.Agree(p, r) && AllInStep(p, r)
    ensures Both(p, r) ==> PubSound(p) && RxSound(r)
  {
  }

  /** Connecting a signal whose domain, if registered, is connected already. */
  lemma ConnectBoth(p: Publisher, r: Receiver, id: string)
    requires Both(p, r) && id in p.locals
    requires var t := p.locals[id].metadata.tableId;
             Foreign(id, p.locals[id].metadata) && t in p.locals ==> p.locals[t].connected
    ensures KeepsBoth(Connect(p, id), r, [])
  {
    hide *;
    var e, q := p.locals[id], Connect(p, id).pub;
    var sent, r1 := Sent(e), Handle(r, Subscribe(e.signo, id));
    BothMeans(p, r);
    D.ConnectAgrees(p, r, id);
    D.KeepsMeans(Connect(p, id), r);
    ConnectedFound(p, r, id);
    ConnectSends(p, id);
    SentInStep(p, r1, id, q);
    D.Two(r, Subscribe(e.signo, id), Signal(e.signo, sent));
    D.SignalHandled(r1, e.signo, sent);
    KeepsBothMeans(Connect(p, id), r, []);
  }

  lemma KeepsBothMeans(s: Step, r: Receiver, deliveries: seq<Delivery>)
    ensures KeepsBoth(s, r, deliveries) <==>
            && D.Agree(s.pub, HandleAll(r, s.out)) && AllInStep(s.pub, HandleAll(r, s.out))
            && HandleAll(r, s.out).delivered == r.delivered + deliveries
    ensures KeepsBoth(s, r, deliveries) ==> Both(s.pub, HandleAll(r, s.out))
  {
  }

  lemma ConnectedFound(p: Publisher, r: Receiver, id: string)
    requires Both(p, r) && id in p.locals
    ensures var r1 := Handle(r, Subscribe(p.locals[id].signo, id));
            && AllInStep(p, r1) && Find(r1, p.locals[id].signo) == Some(id)
            && r1.delivered == r.delivered && forall x | x in r1.signals :: x in p.locals
  {
    var n := p.locals[id].signo;
    assert D.Entered(p, r, id);
    KnownIsRegistered(p, r);
    SubscribeKeeps(r, n, id);
    var r1 := HandleSubscribe(r, n, id);
    hide D.Agree, AllInStep;
    KeptInStep(p, r, p, r1);
  }

  /** Disconnecting a signal that no connected signal names. */
  lemma DisconnectBoth(p: Publisher, r: Receiver, id: string)
    requires Both(p, r) && id in p.locals
    requires forall v | v in p.locals && p.locals[v].connected :: !Named(p, v, id)
    ensures KeepsBoth(Disconnect(p, id), r, [])
  {
    hide *;
    BothMeans(p, r);
    D.DisconnectAgrees(p, r, id);
    D.KeepsMeans(Disconnect(p, id), r);
    D.One(r, Unsubscribe(p.locals[id].signo, id));
    DisconnectKept(p, r, id);
    KeptInStep(p, r, Disconnect(p, id).pub, Handle(r, Unsubscribe(p.locals[id].signo, id)));
    KeepsBothMeans(Disconnect(p, id), r, []);
  }

  predicate Named(p: Publisher, v: string, id: string)
    requires v in p.locals
  {
    Foreign(v, p.locals[v].metadata) && p.locals[v].metadata.tableId == id
  }

  lemma DisconnectKept(p: Publisher, r: Receiver, id: string)
    requires Both(p, r) && id in p.locals
    requires forall v | v in p.locals && p.locals[v].connected :: !Named(p, v, id)
    ensures var q, r' := Disconnect(p, id).pub, Handle(r, Unsubscribe(p.locals[id].signo, id));
            && Disconnect(p, id).out == [Unsubscribe(p.locals[id].signo, id)]
            && LocalsKept(p, q) && RemotesKept(r, r') && r'.delivered == r.delivered
            && forall v | v in q.locals && q.locals[v].connected :: v in r'.signals
  {
    KnownIsRegistered(p, r);
    UnsubscribeKeeps(r, p.locals[id].signo);
    hide HandleUnsubscribe, Both, RemotesKept;
    DisconnectedLocals(p, id);
  }

  lemma DisconnectedLocals(p: Publisher, id: string)
    requires id in p.locals
    requires forall v | v in p.locals && p.locals[v].connected :: !Named(p, v, id)
    ensures LocalsKept(p, Disconnect(p, id).pub)
  {
    var q := Disconnect(p, id).pub;
    forall v | v in p.locals ensures SameLocal(p.locals[v], q.locals[v]) {
    }
    forall v | v in q.locals && q.locals[v].connected
      ensures v in p.locals && p.locals[v].connected && Named(q, v, id) == Named(p, v, id)
    {
    }
    forall v, t | v in q.locals && q.locals[v].connected && t in q.locals && p.locals[t].connected && !q.locals[t].connected
      ensures !Named(q, v, t)
    {
      assert t == id;
    }
  }

  // ----- subscribing -----

  lemma CountingBoth(p: Publisher, r: Receiver, id: string, explicitly: bool)
    requires Both(p, r) && id in p.locals
    ensures KeepsBoth(Step(Counting(p, id, explicitly), []), r, [])
    ensures Both(Counting(p, id, explicitly), r)
  {
    hide Both, KeepsBoth;
    CountBoth(p, r, id, Count(p.locals[id], explicitly));
    NothingBoth(Counting(p, id, explicitly), r);
  }

  lemma ConnectKeeps(p: Publisher, id: string)
    requires id in p.locals
    ensures Connect(p, id).pub.locals.Keys == p.locals.Keys && Connect(p, id).pub.locals[id].connected
    ensures forall v | v in p.locals && v != id :: Connect(p, id).pub.locals[v] == p.locals[v]
    ensures Connect(p, id).pub.locals[id].metadata == p.locals[id].metadata
  {
  }

  /** Counting one more user of a domain that names no domain itself. */
  lemma SubscribeDomainBoth(p: Publisher, r: Receiver, t: string)
    requires Both(p, r)
    requires t in p.locals ==> !Foreign(t, p.locals[t].metadata) && (p.locals[t].connected <==> p.locals[t].Subscribed())
    ensures var o := SubscribeLocal(p, t, false);
            && KeepsBoth(Step(o.pub, o.out), r, []) && o.pub.locals.Keys == p.locals.Keys
            && (t in p.locals ==> o.pub.locals[t].connected && o.pub.locals[t].metadata == p.locals[t].metadata)
            && forall v | v in p.locals && v != t :: o.pub.locals[v] == p.locals[v]
  {
    hide *;
    NothingBoth(p, r);
    SubscribeStep(p, t, false);
    if t in p.locals {
      var q := Counting(p, t, false);
      CountingBoth(p, r, t, false);
      CountingKeeps(p, t, false);
      if !p.locals[t].Subscribed() {
        ConnectBoth(q, r, t);
        ConnectKeeps(q, t);
        StepIs(Connect(q, t));
      }
    }
  }

  lemma StepIs(s: Step)
    ensures Step(s.pub, s.out) == s
  {
  }

  lemma SubscribeBoth(p: Publisher, r: Receiver, id: string)
    requires Both(p, r) && R.Balanced(R.View(p))
    ensures var o := SubscribeLocal(p, id, true); KeepsBoth(Step(o.pub, o.out), r, [])
  {
    hide *;
    NothingBoth(p, r);
    SubscribeStep(p, id, true);
    if id in p.locals && p.locals[id].Subscribed() {
      CountingBoth(p, r, id, true);
    } else if id in p.locals {
      var q, md, t := Counting(p, id, true), p.locals[id].metadata, p.locals[id].metadata.tableId;
      CountingBoth(p, r, id, true);
      CountingKeeps(p, id, true);
      if Foreign(id, md) {
        DomainExpected(p, id);
        ForeignIsOther(id, md);
        SubscribeDomainBoth(q, r, t);
        var d := SubscribeLocal(q, t, false);
        KeepsBothMeans(Step(d.pub, d.out), r, []);
        ConnectBoth(d.pub, HandleAll(r, d.out), id);
        QuietAppend(Step(d.pub, d.out), Connect(d.pub, id), r);
      } else {
        ConnectBoth(q, r, id);
        StepIs(Connect(q, id));
      }
    }
  }

  lemma ForeignIsOther(id: string, md: Metadata)
    requires Foreign(id, md)
    ensures md.tableId != id
  {
  }

  /** What the counts say about a registered domain. */
  lemma DomainExpected(p: Publisher, id: string)
    requires R.Balanced(R.View(p)) && id in p.locals && Foreign(id, p.locals[id].metadata)
    ensures var t := p.locals[id].metadata.tableId;
            t in p.locals ==> !Foreign(t, p.locals[t].metadata) && (p.locals[t].connected <==> p.locals[t].Subscribed())
  {
    var t := p.locals[id].metadata.tableId;
    if t in p.locals {
      R.ViewAt(p, id);
      R.ViewAt(p, t);
      R.Expected(R.View(p), t);
      assert R.Names(R.View(p), id, t);
    }
  }

  // ----- unsubscribing -----

  lemma UncountingBoth(p: Publisher, r: Receiver, id: string, explicitly: bool)
    requires Both(p, r) && id in p.locals
    ensures KeepsBoth(Step(Uncounting(p, id, explicitly), []), r, [])
    ensures Both(Uncounting(p, id, explicitly), r)
    ensures Uncounting(p, id, explicitly).locals.Keys == p.locals.Keys
    ensures forall v, t | v in p.locals :: Named(Uncounting(p, id, explicitly), v, t) == Named(p, v, t)
    ensures forall v | v in p.locals :: Uncounting(p, id, explicitly).locals[v].connected == p.locals[v].connected
  {
    hide Both, KeepsBoth;
    CountBoth(p, r, id, Uncount(p.locals[id], explicitly));
    NothingBoth(Uncounting(p, id, explicitly), r);
  }

  /** Counting one user of a domain less; when the last one is gone nobody connected names it. */
  lemma UnsubscribeDomainBoth(p: Publisher, r: Receiver, t: string)
    requires Both(p, r)
    requires t in p.locals ==> !Foreign(t, p.locals[t].metadata)
    requires t in p.locals && !Uncount(p.locals[t], false).Subscribed() ==>
               forall v | v in p.locals && p.locals[v].connected :: !Named(p, v, t)
    ensures var o := UnsubscribeLocal(p, t, false); KeepsBoth(Step(o.pub, o.out), r, [])
  {
    hide *;
    NothingBoth(p, r);
    UnsubscribeStep(p, t, false);
    if t in p.locals {
      var q := Uncounting(p, t, false);
      UncountingBoth(p, r, t, false);
      if !q.locals[t].Subscribed() {
        DisconnectBoth(q, r, t);
        StepIs(Disconnect(q, t));
      }
    }
  }

  lemma UnsubscribeBoth(p: Publisher, r: Receiver, id: string)
    requires Both(p, r) && R.Balanced(R.View(p)) && !R.Unfounded(R.View(p), id)
    ensures var o := UnsubscribeLocal(p, id, true); KeepsBoth(Step(o.pub, o.out), r, [])
  {
    hide *;
    NothingBoth(p, r);
    UnsubscribeStep(p, id, true);
    if id in p.locals {
      var q, md, t := Uncounting(p, id, true), p.locals[id].metadata, p.locals[id].metadata.tableId;
      UncountingBoth(p, r, id, true);
      if !q.locals[id].Subscribed() {
        NotImplicit(p, id);
        NobodyNames(p, id);
        DisconnectBoth(q, r, id);
        var c := Disconnect(q, id);
        StepIs(c);
        KeepsBothMeans(c, r, []);
        if Foreign(id, md) {
          DomainExpected(p, id);
          LastUserGone(p, id);
          UnsubscribeDomainBoth(c.pub, HandleAll(r, c.out), t);
          var d := UnsubscribeLocal(c.pub, t, false);
          QuietAppend(c, Step(d.pub, d.out), r);
        }
      }
    }
  }

  lemma NotImplicit(p: Publisher, id: string)
    requires id in p.locals && !Uncounting(p, id, true).locals[id].Subscribed()
    ensures p.locals[id].implicitly == 0
  {
  }

  /** Nobody connected names a signal that has no implicit subscription. */
  lemma NobodyNames(p: Publisher, id: string)
    requires R.Balanced(R.View(p)) && id in p.locals && p.locals[id].implicitly == 0
    ensures forall v | v in p.locals && p.locals[v].connected :: !Named(p, v, id)
  {
    hide R.Balanced, R.View;
    forall v | v in p.locals && p.locals[v].connected ensures !Named(p, v, id) {
      R.ViewAt(p, v);
      R.ViewAt(p, id);
      if Named(p, v, id) {
        R.DomainConnected(R.View(p), v);
      }
    }
  }

  /** When a signal was the last user of its domain, nobody else connected names that domain. */
  lemma LastUserGone(p: Publisher, id: string)
    requires R.Balanced(R.View(p)) && id in p.locals && Foreign(id, p.locals[id].metadata)
    requires !R.Unfounded(R.View(p), id)
    ensures var q, t := Disconnect(Uncounting(p, id, true), id).pub, p.locals[id].metadata.tableId;
            && (t in q.locals ==> t in p.locals && q.locals[t] == p.locals[t])
            && (t in q.locals && !Uncount(q.locals[t], false).Subscribed() ==>
                  forall v | v in q.locals && q.locals[v].connected :: !Named(q, v, t))
  {
    var t := p.locals[id].metadata.tableId;
    if t in p.locals && !Uncount(p.locals[t], false).Subscribed() {
      OnlyUser(p, id);
    }
  }

  lemma OnlyUser(p: Publisher, id: string)
    requires R.Balanced(R.View(p)) && id in p.locals && Foreign(id, p.locals[id].metadata)
    requires !R.Unfounded(R.View(p), id)
    requires p.locals[id].metadata.tableId in p.locals
    requires !Uncount(p.locals[p.locals[id].metadata.tableId], false).Subscribed()
    ensures forall v | v in p.locals && p.locals[v].connected && v != id :: !Named(p, v, p.locals[id].metadata.tableId)
  {
    var s, t := R.View(p), p.locals[id].metadata.tableId;
    R.ViewAt(p, id);
    R.ViewAt(p, t);
    R.Expected(s, id);
    assert R.Counted(s, t);
    hide R.View;
    R.DomainConnected(s, id);
    assert id in R.Users(s, t);
    forall v | v in p.locals && p.locals[v].connected && v != id ensures !Named(p, v, t) {
      R.ViewAt(p, v);
      if Named(p, v, t) {
        R.DomainConnected(s, v);
        assert v in R.Users(s, t);
        TwoElements(R.Users(s, t), id, v);
        assert false;
      }
    }
  }

  lemma TwoElements(a: set<string>, x: string, y: string)
    requires x in a && y in a && x != y
    ensures |a| >= 2
  {
    R.SubsetSize({x, y}, a);
  }

  // ----- metadata changes -----

  /** A change that nobody is told of. */
  lemma RelabelInStep(p: Publisher, r: Receiver, id: string, md: Metadata)
    requires AllInStep(p, r) && id in p.locals && !p.locals[id].connected && WellMade(id, md)
    requires md.rule.Linear? ==> p.locals[id].valueIndex == 0
    ensures AllInStep(p.(locals := p.locals[id := p.locals[id].(metadata := md)]), r)
  {
    var q := p.(locals := p.locals[id := p.locals[id].(metadata := md)]);
    forall v | v in q.locals ensures LocalSound(q.store, v, q.locals[v]) {
      assert LocalSound(p.store, v, p.locals[v]);
    }
    forall v | v in q.locals && q.locals[v].connected ensures InStep(q, r, v) {
      assert v != id && InStep(p, r, v);
    }
  }

  lemma NotifySends(p: Publisher, id: string, md: Metadata)
    requires id in p.locals && p.locals[id].connected && WellMade(id, md)
    requires Foreign(id, md) && md.tableId in p.locals ==> p.locals[md.tableId].connected
    ensures var q := p.(locals := p.locals[id := p.locals[id].(metadata := md)]);
            && SetMetadata(p, id, md) == Notify(q, id)
            && Notify(q, id).out == [Signal(p.locals[id].signo, md)]
            && Sends(p, id, Notify(q, id).pub) && Sent(Notify(q, id).pub.locals[id]) == md
  {
    hide Store.Refreshed;
  }

  /** The domain that a forwarded signal's new metadata names is connected, if it is registered. */
  lemma DomainStays(p: Publisher, id: string, md: Metadata)
    requires R.Balanced(R.View(p)) && R.Permitted(p, OpSetMetadata(id, md)) && R.Shapely(p, OpSetMetadata(id, md))
    requires id in p.locals && p.locals[id].connected
    ensures Foreign(id, md) && md.tableId in p.locals ==> p.locals[md.tableId].connected
  {
    var s, t := R.View(p), md.tableId;
    R.ViewAt(p, id);
    R.ViewAt(p, t);
    R.Expected(s, id);
    hide R.View;
    if Foreign(id, md) && t in p.locals {
      if s[id].explicitly {
        R.DomainConnected(s, id);
      } else {
        assert R.Counted(s, id);
        var v := R.SomeUser(s, id);
        assert false;
      }
    }
  }

  lemma NamedIds(p: Publisher, id: string)
    requires PubSound(p) && id in p.locals
    ensures id != ""
  {
    assert LocalSound(p.store, id, p.locals[id]);
  }

  lemma SetMetadataBoth(p: Publisher, r: Receiver, id: string, md: Metadata)
    requires Both(p, r) && R.Balanced(R.View(p)) && WellMade(id, md)
    requires R.Permitted(p, OpSetMetadata(id, md)) && R.Shapely(p, OpSetMetadata(id, md))
    requires id in p.locals && !p.locals[id].connected && md.rule.Linear? ==> p.locals[id].valueIndex == 0
    ensures KeepsBoth(SetMetadata(p, id, md), r, [])
  {
    hide Both, KeepsBoth, R.Balanced, R.View, R.Permitted, R.Shapely, PubSound, Notify, Sends, D.Agree, AllInStep, HandleSignal, HandleAll;
    BothMeans(p, r);
    NothingBoth(p, r);
    D.SetMetadataAgrees(p, r, id, md);
    D.KeepsMeans(SetMetadata(p, id, md), r);
    if id in p.locals && p.locals[id].connected {
      var q := p.(locals := p.locals[id := p.locals[id].(metadata := md)]);
      DomainStays(p, id, md);
      NotifySends(p, id, md);
      NamedIds(p, id);
      FoundBySigno(p, r, id);
      KnownIsRegistered(p, r);
      SentInStep(p, r, id, Notify(q, id).pub);
      D.One(r, Signal(p.locals[id].signo, md));
      D.SignalHandled(r, p.locals[id].signo, md);
    } else if id in p.locals {
      RelabelInStep(p, r, id, md);
      D.Nothing(r);
    }
    KeepsBothMeans(SetMetadata(p, id, md), r, []);
  }

  // ----- registration -----

  lemma AddInStep(p: Publisher, r: Receiver, id: string, md: Metadata, r': Receiver)
    requires AllInStep(p, r) && id != "" && WellMade(id, md) && id !in p.locals
    requires forall v | v in p.locals && p.locals[v].connected :: !Named(p, v, id)
    requires RemotesKept(r, r') && forall v | v in r.signals :: v in r'.signals
    ensures AllInStep(Refresh(Registered(p, id, md), id), r')
  {
    hide Store.Refreshed;
    var q := Refresh(Registered(p, id, md), id);
    RefreshedLock(p.store, None, md, id, None);
    forall v | v in q.locals ensures LocalSound(q.store, v, q.locals[v]) {
      if v != id {
        assert LocalSound(p.store, v, p.locals[v]);
        LockElsewhere(p.store, None, md, id, p.locals[v].table);
      } else if Foreign(id, md) && md.tableId in p.locals {
        assert LocalSound(p.store, md.tableId, p.locals[md.tableId]);
      }
    }
    forall v | v in q.locals && q.locals[v].connected ensures InStep(q, r', v) {
      assert LocalSound(p.store, v, p.locals[v]);
      assert InStep(p, r, v);
      LockElsewhere(p.store, None, md, id, p.locals[v].table);
      LockElsewhere(p.store, None, md, id, p.locals[v].domainTable);
    }
  }

  lemma AvailableKeeps(r: Receiver, ids: seq<string>)
    ensures RemotesKept(r, HandleAvailable(r, ids))
    ensures forall x | x in r.signals :: x in HandleAvailable(r, ids).signals
  {
    hide HandleAvailable;
    D.AvailableEffect(r, ids, "");
    forall x ensures x in r.signals ==> x in HandleAvailable(r, ids).signals {
      D.AvailableEffect(r, ids, x);
    }
    forall x | x in HandleAvailable(r, ids).signals
      ensures SameRemote(if x in r.signals then r.signals[x] else Fresh(true), HandleAvailable(r, ids).signals[x])
    {
      D.AvailableEffect(r, ids, x);
    }
  }

  lemma KeptRefl(r: Receiver)
    ensures RemotesKept(r, r)
  {
  }

  lemma AddBoth(p: Publisher, r: Receiver, id: string, md: Metadata)
    requires Both(p, r) && R.Balanced(R.View(p)) && R.Permitted(p, OpAdd(id, md)) && id != "" && WellMade(id, md)
    ensures KeepsBoth(AddLocal(p, id, md), r, [])
  {
    hide Both, KeepsBoth, D.Agree, AllInStep, HandleAvailable, HandleAll, Refresh, RemotesKept, WellMade, R.Balanced, R.View,
         R.Permitted;
    BothMeans(p, r);
    NothingBoth(p, r);
    if id !in p.locals {
      NobodyWaits(p, id, md);
      D.AddAgrees(p, r, id, md);
      D.KeepsMeans(AddLocal(p, id, md), r);
      D.Nothing(r);
      D.One(r, Available([id]));
      AvailableKeeps(r, [id]);
      KeptRefl(r);
      KeptDelivers(r, HandleAvailable(r, [id]));
      AddInStep(p, r, id, md, if p.helloSent then HandleAvailable(r, [id]) else r);
      KeepsBothMeans(AddLocal(p, id, md), r, []);
    }
  }

  /** A signal is registered while nobody connected names it. */
  lemma NobodyWaits(p: Publisher, id: string, md: Metadata)
    requires R.Balanced(R.View(p)) && R.Permitted(p, OpAdd(id, md)) && id !in p.locals
    ensures forall v | v in p.locals && p.locals[v].connected :: !Named(p, v, id)
  {
    var s := R.View(p);
    hide R.View;
    R.ViewAt(p, id);
    assert R.Users(s, id) == {};
    forall v | v in p.locals && p.locals[v].connected ensures Named(p, v, id) ==> v in R.Users(s, id) {
      R.ViewAt(p, v);
      R.Expected(s, v);
      if Named(p, v, id) {
        R.NamersAreNotDomains(s, v);
      }
    }
  }

  lemma KeptDelivers(r: Receiver, r': Receiver)
    requires RemotesKept(r, r')
    ensures r'.delivered == r.delivered + []
  {
  }

  lemma HelloBoth(p: Publisher, r: Receiver)
    requires Both(p, r)
    ensures KeepsBoth(Hello(p), r, [])
  {
    hide Both, KeepsBoth, D.Agree, AllInStep, HandleAvailable, HandleAll, RemotesKept, IdsBelow;
    BothMeans(p, r);
    var ids := IdsBelow(p, p.nextSigno);
    D.HelloAgrees(p, r);
    D.KeepsMeans(Hello(p), r);
    D.Nothing(r);
    D.One(r, Available(ids));
    AvailableKeeps(r, ids);
    KeptRefl(r);
    KeptDelivers(r, HandleAvailable(r, ids));
    KnownIsRegistered(p, r);
    KeptInStep(p, r, Hello(p).pub, if ids == [] then r else HandleAvailable(r, ids));
    KeepsBothMeans(Hello(p), r, []);
  }

  lemma RemoveInStep(p: Publisher, r: Receiver, id: string)
    requires AllInStep(p, r) && id in p.locals
    ensures AllInStep(RemoveLocal(p, id).pub, Withdraw(r, id))
    ensures Withdraw(r, id).delivered == r.delivered
  {
    var q, r' := RemoveLocal(p, id).pub, Withdraw(r, id);
    var own := p.locals[id].table;
    assert LocalSound(p.store, id, p.locals[id]);
    forall v | v in q.locals ensures LocalSound(q.store, v, q.locals[v]) {
      assert LocalSound(p.store, v, p.locals[v]);
      DroppedLock(p.store, own, id, p.locals[v].table);
    }
    forall v | v in q.locals && q.locals[v].connected ensures InStep(q, r', v) {
      assert LocalSound(p.store, v, p.locals[v]);
      assert InStep(p, r, v);
      DroppedLock(p.store, own, id, p.locals[v].table);
      var t := p.locals[v].metadata.tableId;
      if p.store.Lock(p.locals[v].domainTable).Some? && t == id {
        assert InStep(p, r, id);
      } else {
        if p.store.Lock(p.locals[v].domainTable).Some? {
          assert LocalSound(p.store, t, p.locals[t]);
        }
        DroppedLock(p.store, own, id, p.locals[v].domainTable);
      }
    }
  }

  lemma DroppedLock(store: Store, own: Option<nat>, id: string, reference: Option<nat>)
    requires Bounded(store) && Owns(store, own, id)
    requires reference == own ==> own == None
    ensures Bounded(store.Dropped(own)) && store.Dropped(own).Lock(reference) == store.Lock(reference)
  {
  }

  lemma RemoveBoth(p: Publisher, r: Receiver, id: string)
    requires Both(p, r)
    ensures KeepsBoth(RemoveLocal(p, id), r, [])
  {
    hide Both, KeepsBoth, D.Agree, AllInStep, HandleUnavailable, HandleAll, Withdraw;
    BothMeans(p, r);
    NothingBoth(p, r);
    if id in p.locals {
      D.RemoveAgrees(p, r, id);
      D.KeepsMeans(RemoveLocal(p, id), r);
      D.One(r, Unavailable([id]));
      D.OneWithdrawn(r, id);
      RemoveInStep(p, r, id);
      KeepsBothMeans(RemoveLocal(p, id), r, []);
    }
  }

  // ----- data -----

  /** Replacing a connected domain's table by the same one on both ends. */
  lemma PutInStep(p: Publisher, r: Receiver, t: string, table: Table)
    requires AllInStep(p, r) && t in p.locals && p.locals[t].connected && p.locals[t].metadata.rule.Linear?
    requires table.id == t
    ensures p.locals[t].table.Some? && t in r.signals && r.signals[t].table.Some?
    ensures var h, h' := p.locals[t].table.value, r.signals[t].table.value;
            AllInStep(p.(store := p.store.Put(h, table)), r.(store := r.store.Put(h', table)))
  {
    assert InStep(p, r, t) && LocalSound(p.store, t, p.locals[t]);
    var h, h' := p.locals[t].table.value, r.signals[t].table.value;
    var q, r' := p.(store := p.store.Put(h, table)), r.(store := r.store.Put(h', table));
    forall v | v in q.locals ensures LocalSound(q.store, v, q.locals[v]) {
      assert LocalSound(p.store, v, p.locals[v]);
    }
    forall v | v in q.locals && q.locals[v].connected ensures InStep(q, r', v) {
      assert InStep(p, r, v) && LocalSound(p.store, v, p.locals[v]);
    }
  }

  /** A connected signal's domain, if it is bound to one: a connected linear signal, with the same table
      on both ends. */
  lemma DomainKnown(p: Publisher, r: Receiver, id: string)
    requires AllInStep(p, r) && id in p.locals && p.locals[id].connected
    ensures id in r.signals
    ensures Domain(p, id).Some? ==>
              var t := p.locals[id].metadata.tableId;
              && r.store.Lock(r.signals[id].domainTable) == Domain(p, id)
              && t != id && t in p.locals && p.locals[t].connected && p.locals[t].metadata.rule.Linear?
              && Domain(p, id).value.id == t && t in r.signals
              && p.locals[id].domainTable == p.locals[t].table && r.signals[id].domainTable == r.signals[t].table
              && p.locals[id].domainSigno == p.locals[t].signo
  {
    assert InStep(p, r, id);
    if Domain(p, id).Some? {
      var t := p.locals[id].metadata.tableId;
      assert InStep(p, r, t) && LocalSound(p.store, t, p.locals[t]);
    }
  }

  /** A domain packet puts both tables back on the line of the time given. */
  lemma RetimeBoth(p: Publisher, r: Receiver, id: string, time: int64)
    requires Both(p, r) && id in p.locals && p.locals[id].connected
    ensures var s, e := Retime(p, id, time), p.locals[id];
            && KeepsBoth(s, r, PacketDelivery(p, id, time))
            && s.pub.locals == p.locals
            && Domain(s.pub, id).Some? == Domain(p, id).Some?
            && (Domain(p, id).Some? ==>
                  var t := Domain(s.pub, id).value;
                  t.ValueAt(NextIndex(e, t)) == time)
  {
    NothingBoth(p, r);
    DomainKnown(p, r, id);
    if OffTheLine(p, id, time) {
      var e, t := p.locals[id], p.locals[id].metadata.tableId;
      var table := Domain(p, id).value;
      var index := NextIndex(e, table);
      var payload := LinearPayload(index, time);
      var s := Retime(p, id, time);
      FoundBySigno(p, r, t);
      D.BlockAgrees(p, r, s.pub, e.domainSigno, payload);
      D.One(r, Block(e.domainSigno, payload));
      PayloadSets(table, index, time, []);
      assert payload + [] == payload;
      PutInStep(p, r, t, table.Set(index, time));
      hide AllInStep, D.Agree, LinearPayload, UpdatedByPayload, HandleAll, Table.ValueAt;
      assert Handle(r, Block(e.domainSigno, payload)) == TakeDomainPacket(r, t, payload);
    }
  }

  /** Both ends count the same samples. */
  lemma IndexInStep(p: Publisher, r: Receiver, id: string, index: int64)
    requires AllInStep(p, r) && id in p.locals && p.locals[id].connected && !p.locals[id].metadata.rule.Linear?
    ensures id in r.signals
    ensures var q := p.(locals := p.locals[id := p.locals[id].(valueIndex := index)]);
            && (p.locals[id].isExplicit ==> AllInStep(q, r.(signals := r.signals[id := r.signals[id].(valueIndex := index)])))
            && (!p.locals[id].isExplicit ==> AllInStep(q, r))
  {
    assert InStep(p, r, id);
    var q := p.(locals := p.locals[id := p.locals[id].(valueIndex := index)]);
    var r' := if p.locals[id].isExplicit then r.(signals := r.signals[id := r.signals[id].(valueIndex := index)]) else r;
    forall v | v in q.locals ensures LocalSound(q.store, v, q.locals[v]) {
      assert LocalSound(p.store, v, p.locals[v]);
    }
    forall v | v in q.locals && q.locals[v].connected ensures InStep(q, r', v) {
      assert InStep(p, r, v);
    }
  }

  /** The time at the receiver, if any, that a block is delivered with when the publisher has no table. */
  function LeftTime(r: Receiver, id: string, e: Local): int64
    requires id in r.signals
  {
    var t := r.store.Lock(r.signals[id].domainTable);
    if t.Some? then t.value.ValueAt(NextIndex(e, t.value)) else 0
  }

  /** The block itself, once the domain predicts its time: it is delivered with that time. */
  lemma BlockBoth(p: Publisher, r: Receiver, id: string, time: int64, count: nat, data: seq<byte>)
    requires Both(p, r) && id in p.locals && p.locals[id].connected && !p.locals[id].metadata.rule.Linear?
    requires var md := p.locals[id].metadata;
             md.rule.Explicit? ==> count == SampleCount(md.sampleSize, md.binary, |data|)
    requires Domain(p, id).Some? ==> Domain(p, id).value.ValueAt(NextIndex(p.locals[id], Domain(p, id).value)) == time
    ensures id in r.signals
    ensures var e := p.locals[id];
            KeepsBoth(Step(Advance(p, id, count), [Block(e.signo, data)]), r,
              [ValueDelivery(id, e, if Domain(p, id).Some? then time else LeftTime(r, id, e), count, data)])
  {
    var e := p.locals[id];
    BothMeans(p, r);
    FoundBySigno(p, r, id);
    AdvanceDirectory(p, id, count);
    hide Both, AllInStep, D.Agree, D.Keeps, Handle, HandleAll, Advance, LeftTime, ValueDelivery, Domain;
    D.BlockAgrees(p, r, Advance(p, id, count), e.signo, data);
    D.KeepsMeans(Step(Advance(p, id, count), [Block(e.signo, data)]), r);
    D.One(r, Block(e.signo, data));
    BlockInStep(p, r, id, time, count, data);
    KeepsBothMeans(Step(Advance(p, id, count), [Block(e.signo, data)]), r,
      [ValueDelivery(id, e, if Domain(p, id).Some? then time else LeftTime(r, id, e), count, data)]);
  }

  lemma BlockInStep(p: Publisher, r: Receiver, id: string, time: int64, count: nat, data: seq<byte>)
    requires Both(p, r) && id in p.locals && p.locals[id].connected && !p.locals[id].metadata.rule.Linear?
    requires var md := p.locals[id].metadata;
             md.rule.Explicit? ==> count == SampleCount(md.sampleSize, md.binary, |data|)
    requires Domain(p, id).Some? ==> Domain(p, id).value.ValueAt(NextIndex(p.locals[id], Domain(p, id).value)) == time
    ensures id in r.signals
    ensures var e, r' := p.locals[id], Handle(r, Block(p.locals[id].signo, data));
            && AllInStep(Advance(p, id, count), r')
            && r'.delivered == r.delivered +
                 [ValueDelivery(id, e, if Domain(p, id).Some? then time else LeftTime(r, id, e), count, data)]
  {
    BothMeans(p, r);
    BlockTaken(p, r, id, data);
    BlockTimed(p, r, id, time, count, data);
    hide Both, AllInStep, Handle, Table.ValueAt, TakeExplicit, TakeConstant, ValueDelivery, LeftTime, Domain;
    if p.locals[id].isExplicit {
      ExplicitInStep(p, r, id, count, data);
    } else {
      ConstantInStep(p, r, id, count, data);
    }
  }

  lemma ConstantInStep(p: Publisher, r: Receiver, id: string, count: nat, data: seq<byte>)
    requires AllInStep(p, r) && id in p.locals && p.locals[id].connected && !p.locals[id].isExplicit
    requires !p.locals[id].metadata.rule.Linear?
    ensures id in r.signals && AllInStep(Advance(p, id, count), TakeConstant(r, id, data))
  {
    IndexInStep(p, r, id, Wrap(p.locals[id].valueIndex + count));
    hide AllInStep;
    DeliveredOnly(Advance(p, id, count), r, TakeConstant(r, id, data));
  }

  /** The delivery of a block has the time that the two tables say, or the one that only the receiver has. */
  lemma BlockTimed(p: Publisher, r: Receiver, id: string, time: int64, count: nat, data: seq<byte>)
    requires Both(p, r) && id in p.locals && p.locals[id].connected && !p.locals[id].metadata.rule.Linear?
    requires var md := p.locals[id].metadata;
             md.rule.Explicit? ==> count == SampleCount(md.sampleSize, md.binary, |data|)
    requires Domain(p, id).Some? ==> Domain(p, id).value.ValueAt(NextIndex(p.locals[id], Domain(p, id).value)) == time
    ensures id in r.signals
    ensures var e := p.locals[id];
            (if e.isExplicit then TakeExplicit(r, id, data) else TakeConstant(r, id, data)).delivered ==
            r.delivered + [ValueDelivery(id, e, if Domain(p, id).Some? then time else LeftTime(r, id, e), count, data)]
  {
    BothMeans(p, r);
    DomainKnown(p, r, id);
    BlockTaken(p, r, id, data);
    hide Both, AllInStep, Handle, Table.ValueAt;
  }

  lemma AdvanceDirectory(p: Publisher, id: string, count: nat)
    requires id in p.locals
    ensures D.SameDirectory(p, Advance(p, id, count))
  {
  }

  /** Which branch of the receiver a block of a connected signal takes. */
  lemma BlockTaken(p: Publisher, r: Receiver, id: string, data: seq<byte>)
    requires Both(p, r) && id in p.locals && p.locals[id].connected && !p.locals[id].metadata.rule.Linear?
    ensures id in r.signals
    ensures var e := p.locals[id];
            && e.isExplicit == e.metadata.rule.Explicit?
            && r.signals[id].sampleSize == e.metadata.sampleSize && r.signals[id].binary == e.metadata.binary
            && (e.isExplicit ==> r.signals[id].valueIndex == e.valueIndex)
            && Handle(r, Block(e.signo, data)) == if e.isExplicit then TakeExplicit(r, id, data) else TakeConstant(r, id, data)
  {
    FoundBySigno(p, r, id);
    assert InStep(p, r, id) && LocalSound(p.store, id, p.locals[id]);
    hide D.Agree;
  }

  lemma DeliveredOnly(p: Publisher, r: Receiver, r': Receiver)
    requires AllInStep(p, r) && r'.signals == r.signals && r'.store == r.store
    ensures AllInStep(p, r')
  {
    forall v | v in p.locals && p.locals[v].connected ensures InStep(p, r', v) {
      assert InStep(p, r, v);
    }
  }

  lemma ExplicitInStep(p: Publisher, r: Receiver, id: string, count: nat, data: seq<byte>)
    requires AllInStep(p, r) && id in p.locals && p.locals[id].connected && p.locals[id].isExplicit
    requires id in r.signals && r.signals[id].valueIndex == p.locals[id].valueIndex
    requires !p.locals[id].metadata.rule.Linear?
    requires count == SampleCount(r.signals[id].sampleSize, r.signals[id].binary, |data|)
    ensures AllInStep(Advance(p, id, count), TakeExplicit(r, id, data))
  {
    var e := p.locals[id];
    var index := Wrap(e.valueIndex + count);
    var q := p.(locals := p.locals[id := e.(valueIndex := index)]);
    var r1 := r.(signals := r.signals[id := r.signals[id].(valueIndex := index)]);
    DomainKnown(p, r, id);
    IndexInStep(p, r, id, index);
    hide AllInStep, Wrap, Table.ValueAt;
    if Domain(p, id).Some? {
      PutInStep(q, r1, e.metadata.tableId, Domain(p, id).value.DriveTo(index));
      DeliveredOnly(Advance(p, id, count),
        r1.(store := r1.store.Put(r1.signals[e.metadata.tableId].table.value, Domain(p, id).value.DriveTo(index))),
        TakeExplicit(r, id, data));
    } else {
      var left := r.store.Lock(r.signals[id].domainTable);
      if left.Some? {
        LeftKnown(p, r, id);
        LeftInStep(q, r1, r.signals[id].domainTable.value, left.value.DriveTo(index));
        DeliveredOnly(q, r1.(store := r1.store.Put(r.signals[id].domainTable.value, left.value.DriveTo(index))),
          TakeExplicit(r, id, data));
      } else {
        DeliveredOnly(q, r1, TakeExplicit(r, id, data));
      }
    }
  }

  /** A table that only the receiver still holds is named after a signal that is not registered. */
  lemma LeftKnown(p: Publisher, r: Receiver, id: string)
    requires AllInStep(p, r) && id in p.locals && p.locals[id].connected && Domain(p, id).None?
    ensures id in r.signals
    ensures var left := r.store.Lock(r.signals[id].domainTable);
            left.Some? ==> left.value.id == p.locals[id].metadata.tableId && left.value.id != "" && left.value.id !in p.locals
  {
    assert InStep(p, r, id);
  }

  /** Such a table may change without the publisher. */
  lemma LeftInStep(p: Publisher, r: Receiver, h: nat, table: Table)
    requires AllInStep(p, r) && h in r.store.live && table.id == r.store.live[h].id && table.id !in p.locals
    ensures AllInStep(p, r.(store := r.store.Put(h, table)))
  {
    var r' := r.(store := r.store.Put(h, table));
    forall v | v in p.locals && p.locals[v].connected ensures InStep(p, r', v) {
      assert InStep(p, r, v);
    }
  }
}
