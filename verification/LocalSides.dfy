/** The publishing half of a connection as it runs: its methods change its signals, tables and counts in
    place and send messages, exactly as the functions of Publishers say. */
module LocalSides {
  import opened Bytes
  import opened LinearTables
  import opened Publishers
  import D = Directories

  class LocalSide {
    var locals: map<string, Local>
    const tables: Tables
    var nextSigno: nat
    var helloSent: bool
    /** Everything handed to the peer for sending. */
    ghost var sent: seq<Message>

    ghost predicate Valid()
      reads tables
    {
      tables.Valid()
    }

    ghost function State(): Publisher
      reads this`locals, this`nextSigno, this`helloSent, tables, tables.live.Values
    {
      Publisher(locals, tables.State(), nextSigno, helloSent)
    }

    constructor ()
      ensures Valid() && State() == START && sent == [] && fresh(tables) && tables.live.Values == {}
    {
      locals, nextSigno, helloSent, sent := map[], 1, false, [];
      tables := new Tables();
    }

    method Send(m: Message)
      modifies this`sent
      ensures sent == old(sent) + [m]
    {
      sent := sent + [m];
    }

    method SetEntry(id: string, e: Local)
      modifies this`locals
      ensures locals == old(locals)[id := e] && State() == old(State()).(locals := locals)
    {
      locals := locals[id := e];
    }

    lemma Fields()
      ensures State().locals == locals && State().nextSigno == nextSigno && State().helloSent == helloSent
    {
    }

    method RefreshLocalSignalBindings(id: string)
      requires Valid() && id in locals
      modifies this`locals, tables, tables.live.Values
      ensures Valid() && State() == Refresh(old(State()), id)
      ensures fresh(tables.live.Values - old(tables.live.Values))
    {
      hide Store.Refreshed, Tables.State, Tables.Valid;
      var e := locals[id];
      e := e.(isExplicit := e.metadata.rule.Explicit?);
      var table := tables.Refresh(e.table, e.metadata);
      e := e.(table := table);
      var tableId := e.metadata.tableId;
      e := e.(domainSigno := 0, domainTable := None);
      if tableId != "" && tableId != id {
        if tableId in locals {
          e := e.(domainSigno := locals[tableId].signo, domainTable := locals[tableId].table);
        }
      }
      locals := locals[id := e];
    }

    method AddLocalSignal(id: string, metadata: Metadata)
      requires Valid()
      modifies this, tables, tables.live.Values
      ensures Valid() && fresh(tables.live.Values - old(tables.live.Values))
      ensures var s := AddLocal(old(State()), id, metadata); State() == s.pub && sent == old(sent) + s.out
    {
      hide Refresh, Tables.State;
      if id in locals {
        return;
      }
      locals := locals[id := Local(nextSigno, metadata, false, 0, false, None, 0, 0, None, false)];
      nextSigno := nextSigno + 1;
      RefreshLocalSignalBindings(id);
      if helloSent {
        Send(Available([id]));
      }
    }

    method RemoveLocalSignal(id: string)
      requires Valid()
      modifies this, tables
      ensures Valid() && tables.live.Values <= old(tables.live.Values)
      ensures var s := RemoveLocal(old(State()), id); State() == s.pub && sent == old(sent) + s.out
    {
      if id !in locals {
        return;
      }
      tables.Drop(locals[id].table);
      locals := locals - {id};
      Send(Unavailable([id]));
    }

    /** Advertises the registered signals in the order of their numbers, which are distinct in every run. */
    method DoHello()
      requires Valid() && D.Numbered(State())
      modifies this`helloSent, this`sent
      ensures var s := Hello(old(State())); State() == s.pub && sent == old(sent) + s.out
    {
      ghost var p := State();
      var ids: seq<string> := [];
      for n := 0 to nextSigno
        invariant ids == IdsBelow(p, n) && State() == p && sent == old(sent)
      {
        var found := FindLocalSignal(n);
        if found.Some? {
          ids := ids + [found.value];
        }
      }
      if ids != [] {
        Send(Available(ids));
      }
      helloSent := true;
    }

    method FindLocalSignal(signo: nat) returns (found: Option<string>)
      ensures found.Some? ==> found.value in locals && locals[found.value].signo == signo
      ensures found.None? ==> forall id | id in locals :: locals[id].signo != signo
    {
      var rest := locals.Keys;
      while rest != {}
        invariant rest <= locals.Keys
        invariant forall id | id in locals.Keys - rest :: locals[id].signo != signo
        decreases |rest|
      {
        var id :| id in rest;
        if locals[id].signo == signo {
          return Some(id);
        }
        rest := rest - {id};
      }
      return None;
    }

    /** Subscribes a signal for the remote peer, or for a signal that uses it as its domain. */
    method Subscribe(id: string, isExplicit: bool) returns (ok: bool)
      requires Valid()
      modifies this`locals, this`sent, tables, tables.live.Values
      ensures Valid() && fresh(tables.live.Values - old(tables.live.Values))
      ensures var o := SubscribeLocal(old(State()), id, isExplicit);
              State() == o.pub && sent == old(sent) + o.out && ok == o.ok
      decreases isExplicit
    {
      Fields();
      ghost var p := State();
      SubscribeStep(p, id, isExplicit);
      hide State, Valid, Connect, SubscribeLocal;
      if id !in locals {
        return false;
      }
      CountingKeeps(p, id, isExplicit);
      var wasSubscribed := locals[id].Subscribed();
      SetEntry(id, Count(locals[id], isExplicit));
      if wasSubscribed {
        return false;
      }
      hide Count;
      if isExplicit {
        var tableId := locals[id].metadata.tableId;
        if tableId != "" && tableId != id {
          var _ := Subscribe(tableId, false);
        }
      }
      Fields();
      Forward(id);
      return true;
    }

    /** Announces a signal's number and metadata, and starts forwarding it. */
    method Forward(id: string)
      requires Valid() && id in locals
      modifies this`locals, this`sent, tables, tables.live.Values
      ensures Valid() && fresh(tables.live.Values - old(tables.live.Values))
      ensures var c := Connect(old(State()), id); State() == c.pub && sent == old(sent) + c.out
    {
      Fields();
      ghost var p, before := State(), sent;
      hide State, Valid;
      Send(Message.Subscribe(locals[id].signo, id));
      RefreshLocalSignalBindings(id);
      Fields();
      RefreshKeeps(p, id);
      hide Refresh;
      Send(Signal(locals[id].signo, locals[id].metadata.(valueIndex := Some(locals[id].valueIndex))));
      SetEntry(id, locals[id].(connected := true));
      assert sent == before + Connect(p, id).out;
    }

    static lemma RefreshKeeps(p: Publisher, id: string)
      requires id in p.locals
      ensures var e, e' := p.locals[id], Refresh(p, id).locals[id];
              e'.signo == e.signo && e'.metadata == e.metadata && e'.valueIndex == e.valueIndex
    {
    }

    method Unsubscribe(id: string, isExplicit: bool) returns (ok: bool)
      requires Valid()
      modifies this`locals, this`sent
      ensures Valid()
      ensures var o := UnsubscribeLocal(old(State()), id, isExplicit);
              State() == o.pub && sent == old(sent) + o.out && ok == o.ok
      decreases isExplicit, LastOnes(State())
    {
      Fields();
      ghost var p := State();
      UnsubscribeStep(p, id, isExplicit);
      hide State, Valid, LastOnes, UnsubscribeLocal;
      if id !in locals {
        return false;
      }
      SetEntry(id, Uncount(locals[id], isExplicit));
      if locals[id].Subscribed() {
        return false;
      }
      var tableId := locals[id].metadata.tableId;
      Stop(id);
      Fields();
      FewerLastOnes(p, State(), id, isExplicit);
      hide Disconnect, Uncounting, Uncount;
      if tableId != "" && tableId != id {
        var _ := Unsubscribe(tableId, false);
      }
      return true;
    }

    /** Stops forwarding a signal, and says so. */
    method Stop(id: string)
      requires Valid() && id in locals
      modifies this`locals, this`sent
      ensures Valid()
      ensures var c := Disconnect(old(State()), id); State() == c.pub && sent == old(sent) + c.out
    {
      Fields();
      hide State, Valid;
      SetEntry(id, locals[id].(connected := false));
      Send(Message.Unsubscribe(locals[id].signo, id));
    }

    static lemma FewerLastOnes(p: Publisher, q: Publisher, id: string, isExplicit: bool)
      requires id in p.locals && !Uncount(p.locals[id], isExplicit).Subscribed()
      requires q.locals == p.locals[id := Uncount(p.locals[id], isExplicit).(connected := false)]
      ensures !isExplicit ==> LastOnes(q) < LastOnes(p)
    {
      assert !isExplicit ==> id in LastOnes(p) && id !in LastOnes(q);
    }

    /** The application changes a signal's metadata. */
    method OnMetadataChanged(id: string, metadata: Metadata)
      requires Valid()
      modifies this`locals, this`sent, tables, tables.live.Values
      ensures Valid() && fresh(tables.live.Values - old(tables.live.Values))
      ensures var s := SetMetadata(old(State()), id, metadata); State() == s.pub && sent == old(sent) + s.out
    {
      Fields();
      hide State, Valid, Refresh;
      if id !in locals {
        return;
      }
      SetEntry(id, locals[id].(metadata := metadata));
      if locals[id].connected {
        RefreshLocalSignalBindings(id);
        Fields();
        SetEntry(id, locals[id].(valueIndex := 0));
        Send(Signal(locals[id].signo, locals[id].metadata));
      }
    }

    /** The application publishes a block on a signal. */
    method OnDataPublished(id: string, time: int64, count: nat, data: seq<byte>)
      requires Valid()
      modifies this`locals, this`sent, tables.live.Values
      ensures Valid()
      ensures var s := Publish(old(State()), id, time, count, data); State() == s.pub && sent == old(sent) + s.out
    {
      Fields();
      if id !in locals || !locals[id].connected {
        return;
      }
      ghost var p, before := State(), sent;
      hide State, Valid, Advance;
      PredictTime(id, time);
      ghost var s := Retime(p, id, time);
      hide Retime;
      Fields();
      Send(Block(locals[id].signo, data));
      CountSamples(id, count);
      assert sent == before + (s.out + [Block(p.locals[id].signo, data)]);
    }

    /** Sends a domain packet if the time is not the predicted one. */
    method PredictTime(id: string, time: int64)
      requires Valid() && id in locals
      modifies this`sent, tables.live.Values
      ensures Valid()
      ensures var s := Retime(old(State()), id, time); State() == s.pub && sent == old(sent) + s.out
    {
      var e := locals[id];
      var domainTable := tables.Lock(e.domainTable);
      if domainTable != null {
        var index := if e.isExplicit then e.valueIndex else domainTable.drivenIndex;
        if time != domainTable.ValueAt(index) {
          tables.Set(e.domainTable.value, index, time);
          Send(Block(e.domainSigno, LinearPayload(index, time)));
        }
      }
    }

    method CountSamples(id: string, count: nat)
      requires Valid() && id in locals
      modifies this`locals, tables.live.Values
      ensures Valid() && State() == Advance(old(State()), id, count)
    {
      var e := locals[id];
      var domainTable := tables.Lock(e.domainTable);
      locals := locals[id := e.(valueIndex := Wrap(e.valueIndex + count))];
      if e.isExplicit && domainTable != null {
        tables.DriveTo(e.domainTable.value, locals[id].valueIndex);
      }
    }
  }
}
