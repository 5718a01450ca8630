/** The receiving half of a connection as it runs: its methods change the known signals and their tables
    in place and tell the application, exactly as the functions of Receivers say. */
module RemoteSides {
  import opened Bytes
  import opened LinearTables
  import opened Publishers
  import opened Receivers
  import A = Announcements

  lemma FirstTableUnique(r: Receiver, id: string, tableId: string)
    requires IsFirstTable(r, id, tableId)
    ensures FindTable(r, tableId) == Some(id)
  {
    var found := FindTable(r, tableId);
    assert IsFirstTable(r, found.value, tableId);
    if found.value != id {
      LessTotal(found.value, id);
    }
  }

  class RemoteSide {
    var signalsById: map<string, Remote>
    var signalsBySigno: map<nat, string>
    const tables: Tables
    /** Everything the application was told, and given. */
    ghost var events: seq<Announcement>
    ghost var delivered: seq<Delivery>

    ghost predicate Valid()
      reads tables
    {
      tables.Valid()
    }

    ghost function State(): Receiver
      reads this`signalsById, this`signalsBySigno, this`events, this`delivered, tables, tables.live.Values
    {
      Receiver(signalsById, signalsBySigno, tables.State(), events, delivered)
    }

    constructor ()
      ensures Valid() && State() == NOBODY && fresh(tables) && tables.live.Values == {}
    {
      signalsById, signalsBySigno, events, delivered := map[], map[], [], [];
      tables := new Tables();
    }

    lemma Fields()
      ensures State() == Receiver(signalsById, signalsBySigno, tables.State(), events, delivered)
    {
    }

    method AddRemoteSignal(id: string, hidden: bool) returns (added: bool)
      modifies this`signalsById
      ensures added <==> id !in old(signalsById)
      ensures State() == AddRemote(old(State()), id, hidden)
    {
      if id in signalsById {
        return false;
      }
      signalsById := signalsById[id := Fresh(hidden)];
      return true;
    }

    /** The first signal, in the order of the ids, whose table has a name. */
    method FindTableEntry(tableId: string) returns (found: Option<string>)
      requires Valid()
      ensures found == FindTable(State(), tableId)
    {
      found := None;
      var rest := signalsById.Keys;
      while rest != {}
        invariant rest <= signalsById.Keys
        invariant found.Some? ==> HasTable(State(), found.value, tableId)
        invariant forall id | id in signalsById.Keys - rest && HasTable(State(), id, tableId) ::
                    found.Some? && !Less(id, found.value)
        decreases |rest|
      {
        var id :| id in rest;
        rest := rest - {id};
        var t := tables.Lock(signalsById[id].table);
        if t != null && t.id != "" && t.id == tableId {
          if found.None? || Less(id, found.value) {
            Better(tableId, rest, id, found);
            found := Some(id);
          }
        }
      }
      if found.Some? {
        assert IsFirstTable(State(), found.value, tableId);
        FirstTableUnique(State(), found.value, tableId);
      }
    }

    /** An earlier match is before everything the match found so far was before. */
    lemma Better(tableId: string, rest: set<string>, id: string, found: Option<string>)
      requires found.None? || Less(id, found.value)
      requires forall x | x in signalsById.Keys - rest - {id} && HasTable(State(), x, tableId) ::
                 found.Some? && !Less(x, found.value)
      ensures forall x | x in signalsById.Keys - rest && HasTable(State(), x, tableId) :: !Less(x, id)
    {
      forall x | x in signalsById.Keys - rest && HasTable(State(), x, tableId) ensures !Less(x, id) {
        if x == id {
          LessIrreflexive(id);
        } else if Less(x, id) {
          LessTransitive(x, id, found.value);
        }
      }
    }

    // ----- signal events -----

    method OnAvailable(ids: seq<string>)
      modifies this`signalsById, this`events
      ensures State() == HandleAvailable(old(State()), ids)
    {
      ghost var r := State();
      for i := 0 to |ids|
        invariant State() == HandleAvailable(r, ids[..i])
      {
        AvailableOne(ids[i]);
        assert ids[..i + 1][..|ids[..i + 1]| - 1] == ids[..i];
      }
      assert ids[..|ids|] == ids;
    }

    method AvailableOne(id: string)
      modifies this`signalsById, this`events
      ensures State() == Announce(old(State()), id)
    {
      hide Tables.State;
      var added := AddRemoteSignal(id, false);
      if !added && !signalsById[id].hidden {
        return;
      }
      signalsById := signalsById[id := signalsById[id].(hidden := false)];
      events := events + [Announced(id)];
    }

    method OnUnavailable(ids: seq<string>)
      modifies this`signalsById, this`signalsBySigno, this`events
      ensures State() == HandleUnavailable(old(State()), ids)
    {
      ghost var r := State();
      for i := 0 to |ids|
        invariant State() == HandleUnavailable(r, ids[..i])
      {
        UnavailableOne(ids[i]);
        assert ids[..i + 1][..|ids[..i + 1]| - 1] == ids[..i];
      }
      assert ids[..|ids|] == ids;
    }

    method UnavailableOne(id: string)
      modifies this`signalsById, this`signalsBySigno, this`events
      ensures State() == Withdraw(old(State()), id)
    {
      hide Tables.State;
      if id !in signalsById {
        return;
      }
      var s := signalsById[id];
      ghost var before := events;
      signalsById := signalsById - {id};
      signalsBySigno := signalsBySigno - {s.signo};
      if s.subscribed {
        events := events + [Announcement.Unsubscribed(id)];
      }
      if !s.hidden {
        events := events + [Withdrawn(id)];
      }
      assert events == before + Farewell(id, s);
    }

    method OnSubscribe(signo: nat, id: string)
      modifies this`signalsById, this`signalsBySigno, this`events
      ensures State() == HandleSubscribe(old(State()), signo, id)
    {
      hide Tables.State;
      if id == "" {
        return;
      }
      var _ := AddRemoteSignal(id, true);
      signalsBySigno := signalsBySigno[signo := id];
      var s := signalsById[id].(signo := signo);
      signalsById := signalsById[id := s];
      if !s.subscribed {
        signalsById := signalsById[id := s.(subscribed := true)];
        events := events + [Announcement.Subscribed(id)];
      }
      assert s.subscribed ==> s.(subscribed := true) == s;
    }

    method FindRemoteSignal(signo: nat) returns (id: Option<string>)
      ensures id == Find(State(), signo)
    {
      if signo in signalsBySigno && signalsBySigno[signo] in signalsById {
        return Some(signalsBySigno[signo]);
      }
      return None;
    }

    method OnUnsubscribe(signo: nat)
      modifies this`signalsById, this`signalsBySigno, this`events
      ensures State() == HandleUnsubscribe(old(State()), signo)
    {
      hide Tables.State;
      var id := FindRemoteSignal(signo);
      if id.Some? && signalsById[id.value].subscribed {
        signalsById := signalsById[id.value := signalsById[id.value].(subscribed := false)];
        events := events + [Announcement.Unsubscribed(id.value)];
      }
      signalsBySigno := signalsBySigno - {signo};
    }

    /** Takes over a signal's metadata, and seeks the table it names. */
    method OnSignal(signo: nat, metadata: Metadata)
      requires Valid()
      modifies this`signalsById, tables, tables.live.Values
      ensures Valid() && State() == HandleSignal(old(State()), signo, metadata)
      ensures fresh(tables.live.Values - old(tables.live.Values))
    {
      var id := FindRemoteSignal(signo);
      if id.None? {
        return;
      }
      assert id.value in signalsById;
      Adopt(id.value, metadata);
      Seek(id.value, metadata);
    }

    method Adopt(id: string, metadata: Metadata)
      requires Valid() && id in signalsById
      modifies this`signalsById, tables, tables.live.Values
      ensures Valid() && State() == TakeMetadata(old(State()), id, metadata)
      ensures id in signalsById && fresh(tables.live.Values - old(tables.live.Values))
    {
      hide Store.Refreshed, Tables.State, Tables.Valid;
      var s := signalsById[id];
      s := s.(sampleSize := metadata.sampleSize, binary := metadata.binary);
      var table := tables.Refresh(s.table, metadata);
      s := s.(table := table);
      s := s.(isExplicit := metadata.rule.Explicit?, valueIndex := metadata.valueIndex.GetOr(s.valueIndex));
      signalsById := signalsById[id := s];
    }

    method Seek(id: string, metadata: Metadata)
      requires Valid() && id in signalsById
      modifies this`signalsById
      ensures State() == Bind(old(State()), id, metadata)
    {
      hide FindTable;
      var domain: Option<nat> := None;
      if metadata.tableId != "" && metadata.tableId != id {
        var sought := FindTableEntry(metadata.tableId);
        // A table found on the signal itself is not a domain.
        if sought.Some? && sought.value != id {
          domain := signalsById[sought.value].table;
        }
      }
      hide Tables.State;
      signalsById := signalsById[id := signalsById[id].(domainTable := domain)];
    }

    // ----- data -----

    method OnData(signo: nat, data: seq<byte>)
      requires Valid()
      modifies this`signalsById, this`delivered, tables.live.Values
      ensures Valid() && State() == HandleBlock(old(State()), signo, data)
    {
      var id := FindRemoteSignal(signo);
      if id.None? || !signalsById[id.value].subscribed {
        return;
      }
      var s := signalsById[id.value];
      var own := tables.Lock(s.table);
      hide TakeDomainPacket, TakeExplicit, TakeConstant;
      if own != null {
        OnDomainPacket(id.value, data);
      } else if s.isExplicit {
        OnExplicitData(id.value, data);
      } else {
        OnConstantData(id.value, data);
      }
    }

    method OnDomainPacket(id: string, data: seq<byte>)
      requires Valid() && id in signalsById && tables.Lock(signalsById[id].table) != null
      modifies this`delivered, tables.live.Values
      ensures Valid() && State() == TakeDomainPacket(old(State()), id, data)
    {
      if |data| >= LINEAR_PAYLOAD_SIZE {
        tables.UpdateByPayload(signalsById[id].table.value, data);
      }
      delivered := delivered + [Delivery(id, 0, 0, data)];
    }

    method OnExplicitData(id: string, data: seq<byte>)
      requires Valid() && id in signalsById
      modifies this`signalsById, this`delivered, tables.live.Values
      ensures Valid() && State() == TakeExplicit(old(State()), id, data)
    {
      Fields();
      hide State, Table.ValueAt, Wrap, Tables.State, Tables.Valid;
      var s := signalsById[id];
      var sampleCount := CountSamples(s, |data|);
      hide SampleCount;
      var domainValue := DomainValue(s);
      var index := Wrap(s.valueIndex + sampleCount);
      signalsById := signalsById[id := s.(valueIndex := index)];
      DriveDomain(s, index);
      delivered := delivered + [Delivery(id, domainValue, sampleCount, data)];
      Fields();
    }

    /** The time of a signal's next sample, if it is bound to a live table. */
    method DomainValue(s: Remote) returns (domainValue: int64)
      ensures var domain := tables.State().Lock(s.domainTable);
              domainValue == if domain.Some? then domain.value.ValueAt(s.valueIndex) else 0
    {
      var domainTable := tables.Lock(s.domainTable);
      if domainTable != null {
        return domainTable.ValueAt(s.valueIndex);
      }
      return 0;
    }

    method DriveDomain(s: Remote, index: int64)
      requires Valid()
      modifies tables.live.Values
      ensures Valid()
      ensures var domain := old(tables.State()).Lock(s.domainTable);
              tables.State() == if domain.Some? then old(tables.State()).Put(s.domainTable.value, domain.value.DriveTo(index))
                                else old(tables.State())
    {
      var domainTable := tables.Lock(s.domainTable);
      if domainTable != null {
        tables.DriveTo(s.domainTable.value, index);
      }
    }

    method CountSamples(s: Remote, size: nat) returns (sampleCount: nat)
      ensures sampleCount == SampleCount(s.sampleSize, s.binary, size)
    {
      sampleCount := 0;
      if s.sampleSize != 0 {
        sampleCount := size / s.sampleSize;
      } else if s.binary {
        sampleCount := 1;
      }
    }

    method OnConstantData(id: string, data: seq<byte>)
      requires Valid() && id in signalsById
      modifies this`delivered
      ensures State() == TakeConstant(old(State()), id, data)
    {
      hide Table.ValueAt;
      var s := signalsById[id];
      var sampleCount: nat, size: nat := 0, |data|;
      if size >= s.sampleSize {
        sampleCount, size := 1, s.sampleSize;
      }
      var domainValue: int64 := 0;
      var domainTable := tables.Lock(s.domainTable);
      if domainTable != null {
        domainValue := domainTable.ValueAt(domainTable.drivenIndex);
      }
      assert data[..|data|] == data;
      delivered := delivered + [Delivery(id, domainValue, sampleCount, data[..size])];
    }

    // ----- closing -----

    /** The connection closed: every signal is detached, and then the announced ones are withdrawn. */
    method ClearRemoteSignals() returns (ghost ids: seq<string>)
      modifies this`signalsById, this`signalsBySigno, this`events
      ensures A.Enumerates(ids, old(State())) && State() == Close(old(State()), ids)
    {
      ghost var r := State();
      hide Tables.State, Detached, AllWithdrawn;
      var oldSignals := signalsById;
      var order := Order(oldSignals.Keys);
      ids := order;
      signalsById, signalsBySigno := map[], map[];
      DetachAll(order, oldSignals, r);
      WithdrawAll(order, oldSignals, r);
    }

    method DetachAll(order: seq<string>, oldSignals: map<string, Remote>, ghost r: Receiver)
      requires r.signals == oldSignals && forall id | id in order :: id in oldSignals
      modifies this`events
      ensures events == old(events) + Detached(r, order)
    {
      for i := 0 to |order|
        invariant events == old(events) + Detached(r, order[..i])
      {
        if oldSignals[order[i]].subscribed {
          events := events + [Announcement.Unsubscribed(order[i])];
        }
        assert order[..i + 1][..|order[..i + 1]| - 1] == order[..i];
      }
      assert order[..|order|] == order;
    }

    method WithdrawAll(order: seq<string>, oldSignals: map<string, Remote>, ghost r: Receiver)
      requires r.signals == oldSignals && forall id | id in order :: id in oldSignals
      modifies this`events
      ensures events == old(events) + AllWithdrawn(r, order)
    {
      for i := 0 to |order|
        invariant events == old(events) + AllWithdrawn(r, order[..i])
      {
        if !oldSignals[order[i]].hidden {
          events := events + [Withdrawn(order[i])];
        }
        assert order[..i + 1][..|order[..i + 1]| - 1] == order[..i];
      }
      assert order[..|order|] == order;
    }

    /** The elements of a set in ascending order. */
    static method Order(ids: set<string>) returns (order: seq<string>)
      ensures forall id :: id in order <==> id in ids
      ensures forall i, j | 0 <= i < j < |order| :: Less(order[i], order[j])
    {
      order := [];
      var rest := ids;
      while rest != {}
        invariant rest <= ids && forall id :: id in order <==> id in ids && id !in rest
        invariant forall i, j | 0 <= i < j < |order| :: Less(order[i], order[j])
        invariant forall i, id | 0 <= i < |order| && id in rest :: Less(order[i], id)
        decreases |rest|
      {
        var id := Least(rest);
        order := order + [id];
        rest := rest - {id};
      }
    }

    static method Least(ids: set<string>) returns (least: string)
      requires ids != {}
      ensures least in ids && forall id | id in ids && id != least :: Less(least, id)
    {
      least :| least in ids;
      var rest := ids - {least};
      while rest != {}
        invariant rest <= ids && least in ids
        invariant forall id | id in ids - rest && id != least :: Less(least, id)
        decreases |rest|
      {
        var id :| id in rest;
        rest := rest - {id};
        if Less(id, least) {
          forall other | other in ids - rest && other != id ensures Less(id, other) {
            if other != least {
              LessTransitive(id, least, other);
            }
          }
          least := id;
        } else if id != least {
          LessTotal(id, least);
        }
      }
    }
  }
}
