/** A remote signal is never bound to its own table, whatever metadata arrives: a signal whose table has an
    abstract name would otherwise be found under it, and keep itself alive. */
module OwnTables {
  import opened LinearTables
  import opened Publishers
  import opened Receivers

  /** Tables are not shared, and no signal is bound to its own. */
  predicate Apart(r: Receiver) {
    && (forall x | x in r.signals :: r.signals[x].table.Some? ==>
          r.signals[x].table.value < r.store.next && r.signals[x].domainTable != r.signals[x].table)
    && (forall x | x in r.signals :: r.signals[x].domainTable.Some? ==> r.signals[x].domainTable.value < r.store.next)
    && (forall x, y | x in r.signals && y in r.signals && x != y ::
          r.signals[x].table.Some? ==> r.signals[x].table != r.signals[y].table)
  }

  /** A message without metadata: signals may go, or come without tables. */
  predicate Unbound(r: Receiver, q: Receiver) {
    && q.store.next == r.store.next
    && forall x | x in q.signals ::
         if x in r.signals then q.signals[x].table == r.signals[x].table && q.signals[x].domainTable == r.signals[x].domainTable
         else q.signals[x].table == None == q.signals[x].domainTable
  }

  lemma UnboundApart(r: Receiver, q: Receiver)
    requires Apart(r) && Unbound(r, q)
    ensures Apart(q)
  {
  }

  lemma {:induction false} AvailableUnbound(r: Receiver, ids: seq<string>)
    ensures Unbound(r, HandleAvailable(r, ids))
    ensures forall x | x in r.signals :: x in HandleAvailable(r, ids).signals
  {
    if ids != [] {
      AvailableUnbound(r, ids[..|ids| - 1]);
    }
  }

  lemma {:induction false} UnavailableUnbound(r: Receiver, ids: seq<string>)
    ensures Unbound(r, HandleUnavailable(r, ids))
    ensures forall x | x in HandleUnavailable(r, ids).signals :: x in r.signals
  {
    if ids != [] {
      UnavailableUnbound(r, ids[..|ids| - 1]);
    }
  }

  /** Whatever the metadata says. */
  lemma SignalApart(r: Receiver, signo: nat, md: Metadata)
    requires Apart(r)
    ensures Apart(HandleSignal(r, signo, md))
  {
    var id := Find(r, signo);
    if id.Some? {
      var q := TakeMetadata(r, id.value, md);
      assert q.signals[id.value].table in {None, r.signals[id.value].table, Some(r.store.next)};
      hide FindTable, HasTable;
    }
  }

  lemma HandleApart(r: Receiver, m: Message)
    requires Apart(r)
    ensures Apart(Handle(r, m))
  {
    match m
    case Available(ids) =>
      AvailableUnbound(r, ids);
      UnboundApart(r, HandleAvailable(r, ids));
    case Unavailable(ids) =>
      UnavailableUnbound(r, ids);
      UnboundApart(r, HandleUnavailable(r, ids));
    case Subscribe(signo, id) => UnboundApart(r, HandleSubscribe(r, signo, id));
    case Unsubscribe(signo, _) => UnboundApart(r, HandleUnsubscribe(r, signo));
    case Signal(signo, md) => SignalApart(r, signo, md);
    case Block(signo, data) => UnboundApart(r, HandleBlock(r, signo, data));
  }

  /** For any messages at all. */
  lemma {:induction false} NeverItsOwn(ms: seq<Message>)
    ensures Apart(HandleAll(NOBODY, ms))
  {
    if ms != [] {
      hide Apart, Handle;
      NeverItsOwn(ms[..|ms| - 1]);
      HandleApart(HandleAll(NOBODY, ms[..|ms| - 1]), ms[|ms| - 1]);
    }
  }
}
