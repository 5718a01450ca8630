/** When a subscribed signal is bound to its domain's table: what each step does to the bindings. */
module Bindings {
  import opened Bytes
  import opened LinearTables
  import opened Publishers
  import opened Receivers
  import D = Directories
  import R = References
  import opened Steps

  /** The signal names a registered linear signal. */
  predicate NamesLinear(p: Publisher, v: string) {
    && v in p.locals && Foreign(v, p.locals[v].metadata) && p.locals[v].metadata.tableId in p.locals
    && p.locals[p.locals[v].metadata.tableId].metadata.rule.Linear?
  }

  /** The step sends a signal's metadata to the remote peer: it subscribes the signal, or forwards a
      change of the signal's own metadata. */
  predicate Resends(p: Publisher, op: Op, v: string) {
    (op.OpSetMetadata? && op.id == v) || !(v in p.locals && p.locals[v].Subscribed())
  }

  // ----- states -----

  /** The signal is bound to what is now the table of the domain it names. */
  predicate BoundAfresh(q: Publisher, v: string)
    requires v in q.locals
  {
    var t := q.locals[v].metadata.tableId;
    Foreign(v, q.locals[v].metadata) && t in q.locals ==> q.locals[v].domainTable == q.locals[t].table
  }

  /** No dead table comes back to life. */
  predicate NoRevival(p: Publisher, q: Publisher) {
    p.store.next <= q.store.next && forall h | h in q.store.live && h < p.store.next :: h in p.store.live
  }

  /** A signal forwarded before and after a step keeps its table, if it has one before and after. */
  predicate SameTables(p: Publisher, q: Publisher) {
    forall t | t in p.locals && t in q.locals && p.locals[t].connected && q.locals[t].connected ::
      p.locals[t].table.Some? && q.locals[t].table.Some? ==> q.locals[t].table == p.locals[t].table
  }

  predicate SameReference(p: Publisher, q: Publisher, v: string) {
    && v in p.locals && v in q.locals && p.locals[v].connected
    && q.locals[v].domainTable == p.locals[v].domainTable && q.locals[v].metadata == p.locals[v].metadata
  }

  /** What a step does to the references: a signal whose metadata was sent is bound afresh, any other
      keeps its reference. */
  predicate Moves(p: Publisher, op: Op, q: Publisher) {
    && NoRevival(p, q) && SameTables(p, q)
    && forall v | v in q.locals && q.locals[v].connected ::
         if Resends(p, op, v) then BoundAfresh(q, v) else SameReference(p, q, v)
  }

  /** A connected signal's domain, in a balanced state. */
  lemma DomainIn(p: Publisher, r: Receiver, v: string)
    requires Both(p, r) && R.Balanced(R.View(p)) && v in p.locals && p.locals[v].connected
    ensures InStep(p, r, v) && LocalSound(p.store, v, p.locals[v])
    ensures p.locals[v].Subscribed()
    ensures NamesLinear(p, v) ==>
              var t := p.locals[v].metadata.tableId;
              p.locals[t].connected && InStep(p, r, t) && LocalSound(p.store, t, p.locals[t])
  {
    R.ViewAt(p, v);
    R.Expected(R.View(p), v);
    if NamesLinear(p, v) {
      var t := p.locals[v].metadata.tableId;
      R.ViewAt(p, t);
      hide R.View, R.Balanced;
      R.DomainConnected(R.View(p), v);
    }
  }

  /** After a step a connected signal is bound to a live table if and only if it names a registered linear
      signal and was either bound afresh or bound before. */
  lemma BoundAfter(p: Publisher, r: Receiver, op: Op, q: Publisher, r': Receiver, v: string)
    requires Both(p, r) && Both(q, r') && R.Balanced(R.View(p)) && R.Balanced(R.View(q)) && Moves(p, op, q)
    requires v in q.locals && q.locals[v].connected
    ensures !Resends(p, op, v) ==> v in p.locals && p.locals[v].connected
    ensures Domain(q, v).Some? <==> NamesLinear(q, v) && (Resends(p, op, v) || Domain(p, v).Some?)
  {
    DomainIn(q, r', v);
    DomainKnown(q, r', v);
    if !Resends(p, op, v) {
      DomainIn(p, r, v);
      DomainKnown(p, r, v);
      if NamesLinear(q, v) {
        var t := q.locals[v].metadata.tableId;
        if Domain(p, v).Some? {
          DomainIn(p, r, t);
        }
      }
    }
    hide Both, R.Balanced, R.View;
  }

  // ----- steps -----

  /** A signal is connected exactly when it is subscribed. */
  predicate Plain(p: Publisher) {
    forall v | v in p.locals :: p.locals[v].connected <==> p.locals[v].Subscribed()
  }

  lemma CountedPlain(p: Publisher)
    requires R.CountsRight(R.View(p))
    ensures Plain(p)
  {
    forall v | v in p.locals ensures p.locals[v].connected <==> p.locals[v].Subscribed() {
      R.ViewAt(p, v);
      assert R.Counted(R.View(p), v);
    }
  }

  lemma BalancedPlain(p: Publisher)
    requires R.Balanced(R.View(p))
    ensures Plain(p)
  {
    CountedPlain(p);
  }

  /** A step that connects nothing and leaves the references alone. */
  predicate Quiet(p: Publisher, q: Publisher) {
    && NoRevival(p, q) && SameTables(p, q)
    && forall v | v in q.locals && q.locals[v].connected :: SameReference(p, q, v)
  }

  lemma QuietMoves(p: Publisher, op: Op, q: Publisher)
    requires Plain(p) && Quiet(p, q) && !op.OpSetMetadata?
    ensures Moves(p, op, q)
  {
  }

  lemma HelloQuiet(p: Publisher)
    ensures Quiet(p, Hello(p).pub)
  {
  }

  lemma PublishQuiet(p: Publisher, id: string, time: int64, count: nat, data: seq<byte>)
    ensures Quiet(p, Publish(p, id, time, count, data).pub)
  {
    if id in p.locals && p.locals[id].connected {
      var m := Retime(p, id, time).pub;
      assert m.locals == p.locals && m.store.live.Keys == p.store.live.Keys && m.store.next == p.store.next by {
        hide OffTheLine;
      }
      AdvanceQuiet(m, id, count);
    }
  }

  lemma AdvanceQuiet(p: Publisher, id: string, count: nat)
    requires id in p.locals
    ensures var q := Advance(p, id, count);
            && q.locals.Keys == p.locals.Keys && q.store.live.Keys == p.store.live.Keys && q.store.next == p.store.next
            && forall v | v in p.locals :: SameReferences(p.locals[v], q.locals[v])
  {
    hide Wrap, Table.ValueAt;
  }

  predicate SameReferences(e: Local, e': Local) {
    && e'.table == e.table && e'.domainTable == e.domainTable && e'.metadata == e.metadata
    && e'.connected == e.connected
  }

  lemma AddQuiet(p: Publisher, id: string, md: Metadata)
    ensures Quiet(p, AddLocal(p, id, md).pub)
  {
  }

  lemma RemoveQuiet(p: Publisher, id: string)
    ensures Quiet(p, RemoveLocal(p, id).pub)
  {
  }

  /** Unsubscribing touches no table and connects nothing. */
  lemma {:induction false} UnsubscribeQuiet(p: Publisher, id: string, explicitly: bool)
    ensures Untied(p, UnsubscribeLocal(p, id, explicitly).pub)
    decreases explicitly, LastOnes(p)
  {
    UnsubscribeStep(p, id, explicitly);
    hide UnsubscribeLocal;
    if id in p.locals {
      var q := Uncounting(p, id, explicitly);
      if !q.locals[id].Subscribed() {
        var c := Disconnect(q, id).pub;
        assert !explicitly ==> id in LastOnes(p) && id !in LastOnes(c);
        assert Untied(p, c);
        hide Disconnect, Uncounting, LastOnes;
        if Foreign(id, p.locals[id].metadata) {
          UnsubscribeQuiet(c, p.locals[id].metadata.tableId, false);
          UntiedTwice(p, c, UnsubscribeLocal(c, p.locals[id].metadata.tableId, false).pub);
        }
      }
    }
  }

  predicate Untied(p: Publisher, q: Publisher) {
    && q.store == p.store && q.locals.Keys == p.locals.Keys
    && forall v | v in p.locals ::
         && q.locals[v].table == p.locals[v].table && q.locals[v].domainTable == p.locals[v].domainTable
         && q.locals[v].metadata == p.locals[v].metadata && q.locals[v].valueIndex == p.locals[v].valueIndex
         && (q.locals[v].connected ==> p.locals[v].connected)
  }

  lemma UntiedTwice(p: Publisher, m: Publisher, q: Publisher)
    requires Untied(p, m) && Untied(m, q)
    ensures Untied(p, q)
  {
  }

  lemma UntiedQuiet(p: Publisher, q: Publisher)
    requires Untied(p, q)
    ensures Quiet(p, q)
  {
  }

  /** Part of a subscription: what is connected stays as it is, what gets connected is bound afresh to a
      domain that is connected. */
  predicate Joins(p: Publisher, q: Publisher) {
    && NoRevival(p, q) && q.locals.Keys == p.locals.Keys
    && (forall v | v in p.locals :: q.locals[v].valueIndex == p.locals[v].valueIndex)
    && (forall v | v in p.locals && p.locals[v].connected ::
          q.locals[v].connected && q.locals[v].table == p.locals[v].table && SameReference(p, q, v))
    && (forall v | v in q.locals && q.locals[v].connected && !p.locals[v].connected :: BoundToConnected(q, v))
  }

  predicate BoundToConnected(q: Publisher, v: string)
    requires v in q.locals
  {
    var t := q.locals[v].metadata.tableId;
    Foreign(v, q.locals[v].metadata) && t in q.locals ==> q.locals[t].connected && q.locals[v].domainTable == q.locals[t].table
  }

  lemma JoinsTwice(p: Publisher, m: Publisher, q: Publisher)
    requires Joins(p, m) && Joins(m, q)
    ensures Joins(p, q)
  {
    forall v | v in q.locals && q.locals[v].connected && !p.locals[v].connected ensures BoundToConnected(q, v) {
      if m.locals[v].connected {
        assert BoundToConnected(m, v) && SameReference(m, q, v);
      }
    }
  }

  lemma CountingJoins(p: Publisher, id: string, explicitly: bool)
    requires id in p.locals
    ensures Joins(p, Counting(p, id, explicitly))
  {
  }

  lemma ConnectJoins(p: Publisher, id: string)
    requires id in p.locals && !p.locals[id].connected
    requires var t := p.locals[id].metadata.tableId;
             Foreign(id, p.locals[id].metadata) && t in p.locals ==> p.locals[t].connected
    ensures Joins(p, Connect(p, id).pub)
  {
  }

  lemma SubscribeDomainJoins(p: Publisher, t: string)
    requires t in p.locals ==> !Foreign(t, p.locals[t].metadata) && (p.locals[t].connected <==> p.locals[t].Subscribed())
    ensures var q := SubscribeLocal(p, t, false).pub;
            && Joins(p, q) && (t in p.locals ==> q.locals[t].connected)
            && forall v | v in p.locals && v != t :: q.locals[v] == p.locals[v]
  {
    hide *;
    SubscribeStep(p, t, false);
    JoinsSelf(p);
    if t in p.locals {
      var m := Counting(p, t, false);
      CountingJoins(p, t, false);
      CountingKeeps(p, t, false);
      if !p.locals[t].Subscribed() {
        ConnectJoins(m, t);
        ConnectKeeps(m, t);
        JoinsTwice(p, m, Connect(m, t).pub);
      }
    }
  }

  lemma JoinsSelf(p: Publisher)
    ensures Joins(p, p)
  {
  }

  lemma SubscribeJoins(p: Publisher, id: string)
    requires R.Balanced(R.View(p)) && Plain(p)
    ensures Joins(p, SubscribeLocal(p, id, true).pub)
  {
    hide R.Balanced, R.View, Joins, Connect, SubscribeLocal, Counting;
    SubscribeStep(p, id, true);
    JoinsSelf(p);
    if id in p.locals {
      var q, t := Counting(p, id, true), p.locals[id].metadata.tableId;
      CountingJoins(p, id, true);
      CountingKeeps(p, id, true);
      if !p.locals[id].Subscribed() {
        if Foreign(id, p.locals[id].metadata) {
          DomainExpected(p, id);
          SubscribeDomainJoins(q, t);
          var d := SubscribeLocal(q, t, false).pub;
          ConnectJoins(d, id);
          JoinsTwice(p, q, d);
          JoinsTwice(p, d, Connect(d, id).pub);
        } else {
          ConnectJoins(q, id);
          JoinsTwice(p, q, Connect(q, id).pub);
        }
      }
    }
  }

  lemma JoinsMoves(p: Publisher, id: string, q: Publisher)
    requires Plain(p) && Joins(p, q)
    ensures Moves(p, OpSubscribe(id), q)
  {
    forall v | v in q.locals && q.locals[v].connected
      ensures if Resends(p, OpSubscribe(id), v) then BoundAfresh(q, v) else SameReference(p, q, v)
    {
      assert !p.locals[v].connected ==> BoundToConnected(q, v);
    }
  }

  lemma SetMetadataMoves(p: Publisher, id: string, md: Metadata)
    requires PubSound(p) && WellMade(id, md) && Plain(p)
    ensures Moves(p, OpSetMetadata(id, md), SetMetadata(p, id, md).pub)
  {
    if id in p.locals && p.locals[id].connected {
      assert LocalSound(p.store, id, p.locals[id]);
      RefreshedLock(p.store, p.locals[id].table, md, id, None);
    }
  }

  lemma ApplyMoves(p: Publisher, op: Op)
    requires PubSound(p) && R.Balanced(R.View(p)) && (op.OpSetMetadata? ==> WellMade(op.id, op.metadata))
    ensures Moves(p, op, Apply(p, op).pub)
  {
    BalancedPlain(p);
    hide R.Balanced, R.View, PubSound, Plain, Quiet, Moves, Joins, Untied, WellMade;
    match op
    case OpAdd(id, md) =>
      AddQuiet(p, id, md);
      QuietMoves(p, op, AddLocal(p, id, md).pub);
    case OpRemove(id) =>
      RemoveQuiet(p, id);
      QuietMoves(p, op, RemoveLocal(p, id).pub);
    case OpHello =>
      HelloQuiet(p);
      QuietMoves(p, op, Hello(p).pub);
    case OpSubscribe(id) =>
      SubscribeJoins(p, id);
      JoinsMoves(p, id, SubscribeLocal(p, id, true).pub);
    case OpUnsubscribe(id) =>
      UnsubscribeQuiet(p, id, true);
      UntiedQuiet(p, UnsubscribeLocal(p, id, true).pub);
      QuietMoves(p, op, UnsubscribeLocal(p, id, true).pub);
    case OpSetMetadata(id, md) => SetMetadataMoves(p, id, md);
    case OpPublish(id, time, count, data) =>
      PublishQuiet(p, id, time, count, data);
      QuietMoves(p, op, Publish(p, id, time, count, data).pub);
  }
}
