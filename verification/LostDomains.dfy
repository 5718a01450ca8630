/** What becomes of the table of a domain that is removed while signals are bound to it: the receiving side
    keeps it, and from then on only those signals move it. */
module LostDomains {
  import opened Bytes
  import opened LinearTables
  import opened Publishers
  import opened Receivers
  import D = Directories
  import R = References
  import opened Steps
  import opened Bindings

  // ----- tables that outlive their signals -----

  /** A live table that is no known signal's own. */
  predicate Outlived(r: Receiver, h: nat) {
    h in r.store.live && h < r.store.next && forall x | x in r.signals :: r.signals[x].table != Some(h)
  }

  /** A block of an explicit-rule signal drives the table that the signal is bound to. */
  predicate DrivenBy(r: Receiver, m: Message, h: nat) {
    m.Block? &&
    var id := Find(r, m.signo);
    && id.Some? && r.signals[id.value].subscribed && r.store.Lock(r.signals[id.value].table).None?
    && r.signals[id.value].isExplicit && r.signals[id.value].domainTable == Some(h)
  }

  function AfterMessage(r: Receiver, m: Message, h: nat): Table
    requires h in r.store.live
  {
    if DrivenBy(r, m, h) then
      var s := r.signals[Find(r, m.signo).value];
      r.store.live[h].DriveTo(Wrap(s.valueIndex + SampleCount(s.sampleSize, s.binary, |m.bytes|)))
    else r.store.live[h]
  }

  /** Whatever message is handled, such a table is at most driven. */
  lemma OutlivedStays(r: Receiver, m: Message, h: nat)
    requires Outlived(r, h)
    ensures Outlived(Handle(r, m), h) && Handle(r, m).store.live[h] == AfterMessage(r, m, h)
  {
    match m
    case Available(ids) => AvailableKeeps(r, ids);
    case Unavailable(ids) => WithdrawnRest(r, ids);
    case Subscribe(signo, id) => SubscribeKeeps(r, signo, id);
    case Unsubscribe(signo, id) => UnsubscribeKeeps(r, signo);
    case Signal(signo, md) =>
    case Block(signo, bytes) =>
  }

  lemma {:induction false} WithdrawnRest(r: Receiver, ids: seq<string>)
    ensures var q := HandleUnavailable(r, ids);
            && q.store == r.store && (forall x | x in q.signals :: x in r.signals && q.signals[x] == r.signals[x])
            && (forall x | x in r.signals && x !in ids :: x in q.signals)
  {
    if ids != [] {
      WithdrawnRest(r, ids[..|ids| - 1]);
      assert ids == ids[..|ids| - 1] + [ids[|ids| - 1]];
    }
  }

  /** A dead table stays dead. */
  lemma DeadStays(r: Receiver, m: Message, h: nat)
    requires h < r.store.next && h !in r.store.live
    ensures h < Handle(r, m).store.next && h !in Handle(r, m).store.live
  {
    match m
    case Available(ids) => AvailableKeeps(r, ids);
    case Unavailable(ids) => WithdrawnRest(r, ids);
    case Subscribe(signo, id) => SubscribeKeeps(r, signo, id);
    case Unsubscribe(signo, id) => UnsubscribeKeeps(r, signo);
    case Signal(signo, md) =>
    case Block(signo, bytes) =>
  }

  lemma {:induction false} AllDeadStays(r: Receiver, ms: seq<Message>, h: nat)
    requires h < r.store.next && h !in r.store.live
    ensures h < HandleAll(r, ms).store.next && h !in HandleAll(r, ms).store.live
  {
    if ms != [] {
      hide Handle;
      AllDeadStays(r, ms[..|ms| - 1], h);
      DeadStays(HandleAll(r, ms[..|ms| - 1]), ms[|ms| - 1], h);
    }
  }

  /** Messages without data leave such a table alone. */
  lemma {:induction false} NoDataStays(r: Receiver, ms: seq<Message>, h: nat)
    requires Outlived(r, h) && forall m | m in ms :: !m.Block?
    ensures Outlived(HandleAll(r, ms), h) && HandleAll(r, ms).store.live[h] == r.store.live[h]
  {
    if ms != [] {
      hide Handle, Outlived;
      assert ms[|ms| - 1] in ms;
      NoDataStays(r, ms[..|ms| - 1], h);
      OutlivedStays(HandleAll(r, ms[..|ms| - 1]), ms[|ms| - 1], h);
    }
  }

  // ----- references that stay -----

  /** A message that binds a signal anew, or forgets it. */
  predicate About(m: Message, v: string, signo: nat) {
    match m
    case Unavailable(ids) => v in ids
    case Subscribe(_, id) => id == v
    case Signal(n, _) => n == signo
    case _ => false
  }

  predicate Refers(r: Receiver, v: string, signo: nat, reference: Option<nat>) {
    v in r.signals && r.signals[v].signo == signo && r.signals[v].domainTable == reference
  }

  lemma ReferenceStays(r: Receiver, m: Message, v: string, signo: nat, reference: Option<nat>)
    requires D.Consistent(r) && Refers(r, v, signo, reference) && !About(m, v, signo)
    ensures Refers(Handle(r, m), v, signo, reference)
  {
    match m
    case Available(ids) => D.AvailableEffect(r, ids, v);
    case Unavailable(ids) => WithdrawnRest(r, ids);
    case Subscribe(n, id) =>
    case Unsubscribe(n, id) =>
    case Signal(n, md) =>
    case Block(n, bytes) =>
  }

  lemma {:induction false} AllReferencesStay(r: Receiver, ms: seq<Message>, v: string, signo: nat, reference: Option<nat>)
    requires D.StaysConsistent(r, ms) && Refers(r, v, signo, reference) && forall m | m in ms :: !About(m, v, signo)
    ensures Refers(HandleAll(r, ms), v, signo, reference)
  {
    if ms != [] {
      var front, m := ms[..|ms| - 1], ms[|ms| - 1];
      ConsistentFront(r, ms);
      hide Handle, About, D.Consistent, Refers, D.StaysConsistent;
      assert m in ms;
      AllReferencesStay(r, front, v, signo, reference);
      ReferenceStays(HandleAll(r, front), m, v, signo, reference);
    }
  }

  lemma ConsistentFront(r: Receiver, ms: seq<Message>)
    requires ms != [] && D.StaysConsistent(r, ms)
    ensures D.StaysConsistent(r, ms[..|ms| - 1]) && D.Consistent(HandleAll(r, ms[..|ms| - 1]))
  {
    hide HandleAll, D.Consistent;
    var front := ms[..|ms| - 1];
    forall k | 0 <= k <= |front| ensures D.Consistent(HandleAll(r, front[..k])) {
      assert front[..k] == ms[..k];
    }
  }

  // ----- what a step sends about a signal that it does not bind anew -----

  /** Messages about other signals, without data. */
  predicate SaysNothing(out: seq<Message>, v: string, signo: nat) {
    forall m | m in out :: !About(m, v, signo) && !m.Block?
  }

  predicate SameSignos(p: Publisher, q: Publisher) {
    q.locals.Keys == p.locals.Keys && forall v | v in p.locals :: q.locals[v].signo == p.locals[v].signo
  }

  lemma ConnectSaysNothing(p: Publisher, q: Publisher, id: string, v: string)
    requires D.Numbered(p) && SameSignos(p, q) && id in p.locals && v in p.locals && v != id
    ensures SaysNothing(Connect(q, id).out, v, p.locals[v].signo)
    ensures SameSignos(p, Connect(q, id).pub)
  {
  }

  lemma CountingSignos(p: Publisher, q: Publisher, id: string, explicitly: bool)
    requires SameSignos(p, q) && id in q.locals
    ensures SameSignos(p, Counting(q, id, explicitly))
    ensures forall v | v in q.locals :: q.locals[v].Subscribed() && v != id ==> Counting(q, id, explicitly).locals[v].Subscribed()
  {
  }

  lemma SubscribeSaysNothing(p: Publisher, s: string, v: string)
    requires D.Numbered(p) && v in p.locals && p.locals[v].Subscribed()
    ensures SaysNothing(SubscribeLocal(p, s, true).out, v, p.locals[v].signo)
  {
    hide D.Numbered, Connect, SubscribeLocal, Counting, SameSignos, About;
    SubscribeStep(p, s, true);
    if s in p.locals && !p.locals[s].Subscribed() {
      var q, t := Counting(p, s, true), p.locals[s].metadata.tableId;
      SignosSame(p);
      CountingSignos(p, p, s, true);
      CountingKeeps(p, s, true);
      if Foreign(s, p.locals[s].metadata) {
        SubscribeStep(q, t, false);
        if t in q.locals {
          CountingSignos(p, q, t, false);
          CountingKeeps(q, t, false);
          if !q.locals[t].Subscribed() {
            ConnectSaysNothing(p, Counting(q, t, false), t, v);
          }
        }
        ConnectSaysNothing(p, SubscribeLocal(q, t, false).pub, s, v);
      } else {
        ConnectSaysNothing(p, q, s, v);
      }
    }
  }

  lemma SignosSame(p: Publisher)
    ensures SameSignos(p, p)
  {
  }

  lemma {:induction false} UnsubscribeSaysNothing(p: Publisher, id: string, explicitly: bool, v: string, signo: nat)
    ensures SaysNothing(UnsubscribeLocal(p, id, explicitly).out, v, signo)
    decreases explicitly, LastOnes(p)
  {
    UnsubscribeStep(p, id, explicitly);
    hide UnsubscribeLocal;
    if id in p.locals {
      var q := Uncounting(p, id, explicitly);
      if !q.locals[id].Subscribed() {
        var c := Disconnect(q, id);
        assert !explicitly ==> id in LastOnes(p) && id !in LastOnes(c.pub);
        if Foreign(id, p.locals[id].metadata) {
          UnsubscribeSaysNothing(c.pub, p.locals[id].metadata.tableId, false, v, signo);
        }
      }
    }
  }

  /** A step that does not bind a subscribed signal anew says nothing about it, but that data may follow. */
  lemma StepSaysNothing(p: Publisher, op: Op, v: string)
    requires D.Numbered(p) && v in p.locals && p.locals[v].Subscribed() && !Resends(p, op, v) && v in Apply(p, op).pub.locals
    ensures forall m | m in Apply(p, op).out :: !About(m, v, p.locals[v].signo) && (m.Block? ==> op.OpPublish?)
  {
    hide SubscribeLocal, UnsubscribeLocal;
    match op
    case OpAdd(id, md) =>
    case OpRemove(id) =>
    case OpHello =>
    case OpSubscribe(id) => SubscribeSaysNothing(p, id, v);
    case OpUnsubscribe(id) => UnsubscribeSaysNothing(p, id, true, v, p.locals[v].signo);
    case OpSetMetadata(id, md) =>
    case OpPublish(id, time, count, data) =>
  }

  // ----- signals left with the table of a removed domain -----

  /** The table that the receiver would date a signal's next block by. */
  function Held(r: Receiver, v: string): Option<Table> {
    if v in r.signals then r.store.Lock(r.signals[v].domainTable) else None
  }

  function Reference(r: Receiver, v: string): Option<nat> {
    if v in r.signals then r.signals[v].domainTable else None
  }

  /** A forwarded signal that only the receiver still has a table for. */
  predicate Left(p: Publisher, r: Receiver, v: string) {
    v in p.locals && p.locals[v].connected && Domain(p, v).None? && Held(r, v).Some?
  }

  /** The table is named after a signal that is not registered, and is nobody's own. */
  lemma LeftOutlived(p: Publisher, r: Receiver, v: string)
    requires Both(p, r) && Left(p, r, v)
    ensures Held(r, v).value.id == p.locals[v].metadata.tableId && p.locals[v].metadata.tableId !in p.locals
    ensures v in r.signals && r.signals[v].domainTable.Some? && Outlived(r, r.signals[v].domainTable.value)
  {
    KnownIsRegistered(p, r);
    LeftKnown(p, r, v);
    hide D.Agree;
  }

  /** The reference of a signal that is not bound anew stays, on the receiving side as well; and where it leads
      to no table, it never will. */
  lemma HeldStays(p: Publisher, r: Receiver, op: Op, v: string)
    requires Both(p, r) && D.Keeps(Apply(p, op), r) && Plain(p) && v in p.locals && p.locals[v].connected
    requires !Resends(p, op, v) && v in Apply(p, op).pub.locals
    ensures var r' := HandleAll(r, Apply(p, op).out);
            && v in r.signals && v in r'.signals && r'.signals[v].domainTable == r.signals[v].domainTable
            && (Held(r, v).None? ==> Held(r', v).None?)
            && (!op.OpPublish? && Held(r, v).Some? && Outlived(r, r.signals[v].domainTable.value) ==> Held(r', v) == Held(r, v))
  {
    var out, n := Apply(p, op).out, p.locals[v].signo;
    BothMeans(p, r);
    NumberOf(p, r, v);
    StepSaysNothing(p, op, v);
    hide Apply, Both, HandleAll, About, Outlived, D.Numbered;
    AllReferencesStay(r, out, v, n, r.signals[v].domainTable);
    SoundAt(r, v);
    if r.signals[v].domainTable.Some? {
      var h := r.signals[v].domainTable.value;
      if Held(r, v).None? {
        AllDeadStays(r, out, h);
      } else if !op.OpPublish? && Outlived(r, h) {
        NoDataStays(r, out, h);
      }
    }
  }

  lemma NumberOf(p: Publisher, r: Receiver, v: string)
    requires D.Agree(p, r) && v in p.locals && p.locals[v].connected
    ensures v in r.signals && r.signals[v].signo == p.locals[v].signo && D.Numbered(p)
  {
    assert D.Entered(p, r, v);
  }

  // ----- binding anew -----

  /** Handling a signal's metadata binds it to no table, if the domain named is not known. */
  lemma LastBinds(r: Receiver, ms: seq<Message>, signo: nat, md: Metadata, v: string)
    requires ms != [] && ms[|ms| - 1] == Signal(signo, md)
    requires var r' := HandleAll(r, ms); RxSound(r') && Find(r', signo) == Some(v) && md.tableId !in r'.signals
    ensures Held(HandleAll(r, ms), v).None?
  {
    var m := HandleAll(r, ms[..|ms| - 1]);
    var r' := HandleAll(r, ms);
    assert r' == HandleSignal(m, signo, md);
    hide HandleAll;
    assert Find(m, signo) == Some(v);
    var q := TakeMetadata(m, v, md);
    forall x | HasTable(q, x, md.tableId) ensures x == md.tableId {
      assert Owns(r'.store, r'.signals[x].table, x);
    }
  }

  /** A signal that a step binds anew is not left with a table of a domain that is gone. */
  lemma BoundAnew(p: Publisher, r: Receiver, op: Op, q: Publisher, r': Receiver, v: string)
    requires Both(p, r) && Both(q, r') && R.Balanced(R.View(p)) && Moves(p, op, q)
    requires q == Apply(p, op).pub && r' == HandleAll(r, Apply(p, op).out)
    requires v in q.locals && q.locals[v].connected && Resends(p, op, v)
    ensures !Left(q, r', v)
  {
    if Left(q, r', v) {
      LeftOutlived(q, r', v);
      LeftKnown(q, r', v);
      BalancedPlain(p);
      FoundBySigno(q, r', v);
      KnownIsRegistered(q, r');
      BothMeans(q, r');
      var e := q.locals[v];
      hide Both, R.Balanced, R.View, HandleAll, Plain;
      if v in p.locals && p.locals[v].connected {
        ChangeSends(p, v, op.metadata);
      } else {
        SubscriptionSends(p, op, v);
      }
      LastBinds(r, Apply(p, op).out, e.signo, Sent(e), v);
    }
  }

  /** Only a subscription connects anything. */
  lemma NothingJoins(p: Publisher, op: Op, v: string)
    requires !op.OpSubscribe? && v in Apply(p, op).pub.locals && Apply(p, op).pub.locals[v].connected
    ensures v in p.locals && p.locals[v].connected
  {
    hide UnsubscribeLocal, Store.Refreshed, Retime, Wrap;
    match op
    case OpAdd(id, md) =>
    case OpRemove(id) =>
    case OpHello =>
    case OpUnsubscribe(id) => UnsubscribeQuiet(p, id, true);
    case OpSetMetadata(id, md) =>
    case OpPublish(id, time, count, data) => PublishQuiet(p, id, time, count, data);
  }

  /** A signal that names another one gets connected when it is subscribed itself; its metadata is sent last. */
  lemma SubscriptionSends(p: Publisher, op: Op, v: string)
    requires R.Balanced(R.View(p)) && v in Apply(p, op).pub.locals && Apply(p, op).pub.locals[v].connected
    requires !(v in p.locals && p.locals[v].connected)
    requires Foreign(v, Apply(p, op).pub.locals[v].metadata)
    ensures var e, out := Apply(p, op).pub.locals[v], Apply(p, op).out;
            out != [] && out[|out| - 1] == Signal(e.signo, Sent(e))
  {
    if !op.OpSubscribe? {
      NothingJoins(p, op, v);
      assert false;
    }
    ApplySubscribe(p, op.id);
    hide Apply, SubscribeLocal, R.Balanced, R.View;
    OnlyItself(p, op.id, v);
    SubscriptionLast(p, op.id);
  }

  lemma OnlyItself(p: Publisher, s: string, v: string)
    requires R.Balanced(R.View(p)) && !(v in p.locals && p.locals[v].connected)
    requires var q := SubscribeLocal(p, s, true).pub;
             v in q.locals && q.locals[v].connected && Foreign(v, q.locals[v].metadata)
    ensures v == s && s in p.locals && !p.locals[s].Subscribed()
  {
    SubscribeStep(p, s, true);
    hide SubscribeLocal, R.Balanced, R.View, Connect, Counting;
    if s in p.locals {
      var q, t := Counting(p, s, true), p.locals[s].metadata.tableId;
      CountingKeeps(p, s, true);
      if !p.locals[s].Subscribed() && Foreign(s, p.locals[s].metadata) {
        DomainExpected(p, s);
        DomainJoins(q, t);
        ConnectKeeps(SubscribeLocal(q, t, false).pub, s);
      } else if !p.locals[s].Subscribed() {
        ConnectKeeps(q, s);
      }
    }
  }

  lemma SubscriptionLast(p: Publisher, s: string)
    requires s in p.locals && !p.locals[s].Subscribed()
    ensures var o := SubscribeLocal(p, s, true);
            o.out != [] && o.out[|o.out| - 1] == Signal(o.pub.locals[s].signo, Sent(o.pub.locals[s]))
  {
    hide *;
    SubscribeStep(p, s, true);
    CountingKeeps(p, s, true);
    var q, t, o := Counting(p, s, true), p.locals[s].metadata.tableId, SubscribeLocal(p, s, true);
    if Foreign(s, p.locals[s].metadata) {
      var d := SubscribeLocal(q, t, false);
      ConnectLast(d.pub, s);
      assert o.out == d.out + Connect(d.pub, s).out;
    } else {
      ConnectLast(q, s);
    }
  }

  /** Subscribing a domain changes no other signal. */
  lemma DomainJoins(p: Publisher, t: string)
    ensures var q := SubscribeLocal(p, t, false).pub;
            && q.locals.Keys == p.locals.Keys && (forall v | v in p.locals && v != t :: q.locals[v] == p.locals[v])
            && (t in p.locals ==> q.locals[t].metadata == p.locals[t].metadata)
  {
    SubscribeStep(p, t, false);
    hide SubscribeLocal, Connect, Counting;
    if t in p.locals {
      CountingKeeps(p, t, false);
      if !p.locals[t].Subscribed() {
        ConnectKeeps(Counting(p, t, false), t);
      }
    }
  }

  lemma ConnectLast(p: Publisher, id: string)
    requires id in p.locals
    ensures var c := Connect(p, id);
            c.out != [] && c.out[|c.out| - 1] == Signal(c.pub.locals[id].signo, Sent(c.pub.locals[id]))
  {
    hide Store.Refreshed;
  }

  lemma ChangeSends(p: Publisher, v: string, md: Metadata)
    requires v in p.locals && p.locals[v].connected && md.valueIndex == Some(0)
    ensures var s := SetMetadata(p, v, md);
            s.out == [Signal(s.pub.locals[v].signo, Sent(s.pub.locals[v]))]
  {
    hide Store.Refreshed;
  }

  // ----- where the tables left come from -----

  /** Where a signal left with a table got it: it was left with it before the step already, or the step removed
      its domain. */
  lemma LeftBefore(p: Publisher, r: Receiver, op: Op, v: string)
    requires var q, r' := Apply(p, op).pub, HandleAll(r, Apply(p, op).out);
             Both(p, r) && Both(q, r') && R.Balanced(R.View(p)) && Moves(p, op, q) && D.Keeps(Apply(p, op), r) && Left(q, r', v)
    ensures !Resends(p, op, v) && v in p.locals && p.locals[v].connected && v in r.signals
    ensures var q, r', t := Apply(p, op).pub, HandleAll(r, Apply(p, op).out), p.locals[v].metadata.tableId;
            && q.locals[v].metadata == p.locals[v].metadata && r'.signals[v].domainTable == r.signals[v].domainTable
            && t !in q.locals && Held(r, v).Some?
            && (if t in p.locals then Domain(p, v) == Held(r, v) && t in r.signals && r.signals[v].domainTable == r.signals[t].table
                else Left(p, r, v))
  {
    var q, r' := Apply(p, op).pub, HandleAll(r, Apply(p, op).out);
    BalancedPlain(p);
    BothMeans(p, r);
    LeftOutlived(q, r', v);
    if Resends(p, op, v) {
      BoundAnew(p, r, op, q, r', v);
      assert false;
    }
    hide Apply, HandleAll, R.Balanced, R.View, Both, Plain, D.Keeps;
    assert SameReference(p, q, v);
    HeldStays(p, r, op, v);
    DomainKnown(p, r, v);
    LeftOr(p, r, v);
  }

  lemma LeftOr(p: Publisher, r: Receiver, v: string)
    requires AllInStep(p, r) && v in p.locals && p.locals[v].connected && Held(r, v).Some?
    ensures Domain(p, v).None? ==> Left(p, r, v) && p.locals[v].metadata.tableId !in p.locals
    ensures Domain(p, v).Some? ==> p.locals[v].metadata.tableId in p.locals
  {
    assert InStep(p, r, v);
  }

  /** Signals left without the same domain share its table. */
  ghost predicate Siblings(p: Publisher, r: Receiver) {
    forall u, v | Left(p, r, u) && Left(p, r, v) && p.locals[u].metadata.tableId == p.locals[v].metadata.tableId ::
      Reference(r, u) == Reference(r, v)
  }

  lemma SiblingsStay(p: Publisher, r: Receiver, op: Op)
    requires var q, r' := Apply(p, op).pub, HandleAll(r, Apply(p, op).out);
             Both(p, r) && Both(q, r') && R.Balanced(R.View(p)) && Moves(p, op, q) && D.Keeps(Apply(p, op), r)
    requires Siblings(p, r)
    ensures Siblings(Apply(p, op).pub, HandleAll(r, Apply(p, op).out))
  {
    var q, r' := Apply(p, op).pub, HandleAll(r, Apply(p, op).out);
    hide Apply, HandleAll, R.Balanced, R.View, Both, D.Keeps, Moves, Held;
    forall u, v | Left(q, r', u) && Left(q, r', v) && q.locals[u].metadata.tableId == q.locals[v].metadata.tableId
      ensures Reference(r', u) == Reference(r', v)
    {
      LeftBefore(p, r, op, u);
      LeftBefore(p, r, op, v);
      LeftOutlived(q, r', u);
      LeftOutlived(q, r', v);
    }
  }

  // ----- data -----

  /** What the receiver makes of the domain packet in front of a block. */
  lemma RetimeTaken(p: Publisher, r: Receiver, u: string, time: int64)
    requires Both(p, r) && u in p.locals && p.locals[u].connected
    ensures var r1 := HandleAll(r, Retime(p, u, time).out);
            && r1.signals == r.signals
            && forall h | Outlived(r, h) :: Outlived(r1, h) && r1.store.live[h] == r.store.live[h]
  {
    D.Nothing(r);
    DomainKnown(p, r, u);
    if OffTheLine(p, u, time) {
      var e, t := p.locals[u], p.locals[u].metadata.tableId;
      var payload := LinearPayload(NextIndex(e, Domain(p, u).value), time);
      FoundBySigno(p, r, t);
      D.One(r, Block(e.domainSigno, payload));
      hide AllInStep, D.Agree, LinearPayload, UpdatedByPayload, HandleAll, Table.ValueAt;
      assert Handle(r, Block(e.domainSigno, payload)) == TakeDomainPacket(r, t, payload);
    }
  }

  /** A table after a block of a signal, which drives it if the signal is an explicit-rule one bound to it. */
  function Driven(p: Publisher, r: Receiver, u: string, count: nat, h: nat): Table
    requires h in r.store.live
  {
    if u in p.locals && p.locals[u].connected && p.locals[u].metadata.rule.Explicit? && Reference(r, u) == Some(h) then
      r.store.live[h].DriveTo(Wrap(p.locals[u].valueIndex + count))
    else r.store.live[h]
  }

  predicate Countable(p: Publisher, u: string, count: nat, data: seq<byte>) {
    u in p.locals && p.locals[u].connected ==>
      var md := p.locals[u].metadata;
      !md.rule.Linear? && (md.rule.Explicit? ==> count == SampleCount(md.sampleSize, md.binary, |data|))
  }

  /** Publishing a block drives the table left, if it is an explicit-rule block of a signal left with it. */
  lemma PublishDrives(p: Publisher, r: Receiver, u: string, time: int64, count: nat, data: seq<byte>, h: nat)
    requires Both(p, r) && Outlived(r, h) && Countable(p, u, count, data)
    ensures var r' := HandleAll(r, Publish(p, u, time, count, data).out);
            h in r'.store.live && r'.store.live[h] == Driven(p, r, u, count, h)
  {
    D.Nothing(r);
    if u in p.locals && p.locals[u].connected {
      var s, m := Retime(p, u, time), Block(p.locals[u].signo, data);
      RetimeBoth(p, r, u, time);
      RetimeTaken(p, r, u, time);
      KeepsBothMeans(s, r, PacketDelivery(p, u, time));
      var r1 := HandleAll(r, s.out);
      HandleAllAppend(r, s.out, [m]);
      D.One(r1, m);
      hide Both, HandleAll, Retime, Advance, Wrap, Table.ValueAt, SampleCount, OffTheLine;
      BlockDrives(s.pub, r1, u, count, data, h);
      DrivenAlike(p, r, s.pub, r1, u, count, h);
    }
  }

  lemma DrivenAlike(p: Publisher, r: Receiver, q: Publisher, r': Receiver, u: string, count: nat, h: nat)
    requires h in r.store.live && h in r'.store.live && r'.store.live[h] == r.store.live[h]
    requires q.locals == p.locals && r'.signals == r.signals
    ensures Driven(q, r', u, count, h) == Driven(p, r, u, count, h)
  {
  }

  lemma BlockDrives(p: Publisher, r: Receiver, u: string, count: nat, data: seq<byte>, h: nat)
    requires Both(p, r) && h in r.store.live && Countable(p, u, count, data) && u in p.locals && p.locals[u].connected
    ensures var r' := Handle(r, Block(p.locals[u].signo, data));
            h in r'.store.live && r'.store.live[h] == Driven(p, r, u, count, h)
  {
    BlockTaken(p, r, u, data);
    hide Both, Handle, Wrap, SampleCount, TakeExplicit, TakeConstant;
    DriveTaken(r, u, data, h);
  }

  lemma DriveTaken(r: Receiver, u: string, data: seq<byte>, h: nat)
    requires u in r.signals && h in r.store.live
    ensures TakeConstant(r, u, data).store == r.store
    ensures var s, r' := r.signals[u], TakeExplicit(r, u, data);
            && h in r'.store.live
            && r'.store.live[h] ==
                 if s.domainTable == Some(h)
                 then r.store.live[h].DriveTo(Wrap(s.valueIndex + SampleCount(s.sampleSize, s.binary, |data|)))
                 else r.store.live[h]
  {
  }
}
