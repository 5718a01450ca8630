/** What the publishing half of a connection does to its registered signals, and what it sends. */
module Publishers {
  import opened Bytes
  import opened LinearTables

  /** What the peers exchange about signals, in the order it is sent. */
  datatype Message =
    | Available(ids: seq<string>)
    | Unavailable(ids: seq<string>)
    | Subscribe(signo: nat, id: string)
    | Unsubscribe(signo: nat, id: string)
    | Signal(signo: nat, metadata: Metadata)
    | Block(signo: nat, bytes: seq<byte>)

  /** A registered local signal. It is connected while its published data and its metadata changes are
      forwarded and a subscribe holder is held. */
  datatype Local = Local(
    signo: nat,
    metadata: Metadata,
    explicitly: bool,
    implicitly: uint32,
    connected: bool,
    table: Option<nat>,
    valueIndex: int64,
    domainSigno: nat,
    domainTable: Option<nat>,
    isExplicit: bool)
  {
    predicate Subscribed() {
      explicitly || implicitly > 0
    }
  }

  datatype Publisher = Publisher(locals: map<string, Local>, store: Store, nextSigno: nat, helloSent: bool)

  const START := Publisher(map[], Store(map[], 0), 1, false)

  datatype Step = Step(pub: Publisher, out: seq<Message>)

  /** Whether a signal's metadata names another signal as its domain. */
  predicate Foreign(id: string, metadata: Metadata) {
    metadata.tableId != "" && metadata.tableId != id
  }

  /** Brings the state derived from a signal's metadata up to date. */
  function Refresh(p: Publisher, id: string): (q: Publisher)
    requires id in p.locals
    ensures q.locals.Keys == p.locals.Keys
  {
    var e := p.locals[id];
    var (store, table) := p.store.Refreshed(e.table, e.metadata);
    var t := e.metadata.tableId;
    var bound := Foreign(id, e.metadata) && t in p.locals;
    var e' := e.(
      isExplicit := e.metadata.rule.Explicit?,
      table := table,
      domainSigno := if bound then p.locals[t].signo else 0,
      domainTable := if bound then p.locals[t].table else None);
    p.(locals := p.locals[id := e'], store := store)
  }

  /** A signal gets the next number when it is registered. */
  function Registered(p: Publisher, id: string, metadata: Metadata): Publisher {
    p.(locals := p.locals[id := Local(p.nextSigno, metadata, false, 0, false, None, 0, 0, None, false)],
       nextSigno := p.nextSigno + 1)
  }

  /** Registers a signal; a signal registered already is left alone. */
  function AddLocal(p: Publisher, id: string, metadata: Metadata): Step {
    if id in p.locals then Step(p, [])
    else Step(Refresh(Registered(p, id, metadata), id), if p.helloSent then [Available([id])] else [])
  }

  function RemoveLocal(p: Publisher, id: string): Step {
    if id !in p.locals then Step(p, [])
    else Step(p.(locals := p.locals - {id}, store := p.store.Dropped(p.locals[id].table)), [Unavailable([id])])
  }

  /** The registered ids in the order of their numbers, those below n. */
  ghost function IdsBelow(p: Publisher, n: nat): seq<string> {
    if n == 0 then []
    else if exists id | id in p.locals :: p.locals[id].signo == n - 1 then
      var id :| id in p.locals && p.locals[id].signo == n - 1;
      IdsBelow(p, n - 1) + [id]
    else IdsBelow(p, n - 1)
  }

  /** Advertises everything registered so far. */
  ghost function Hello(p: Publisher): Step {
    var ids := IdsBelow(p, p.nextSigno);
    Step(p.(helloSent := true), if ids == [] then [] else [Available(ids)])
  }

  /** Starts forwarding a signal: announces its number and its metadata with the index reached. */
  function Connect(p: Publisher, id: string): (s: Step)
    requires id in p.locals
    ensures s.pub.locals.Keys == p.locals.Keys
  {
    var e := p.locals[id];
    var q := Refresh(p, id);
    Step(q.(locals := q.locals[id := q.locals[id].(connected := true)]),
         [Subscribe(e.signo, id), Signal(e.signo, e.metadata.(valueIndex := Some(e.valueIndex)))])
  }

  function Disconnect(p: Publisher, id: string): (s: Step)
    requires id in p.locals
    ensures s.pub.locals.Keys == p.locals.Keys
  {
    var e := p.locals[id];
    Step(p.(locals := p.locals[id := e.(connected := false)]), [Unsubscribe(e.signo, id)])
  }

  datatype Outcome = Outcome(pub: Publisher, out: seq<Message>, ok: bool)

  /** Counts one more subscription, by the remote peer itself or on behalf of a signal it subscribed. */
  function Count(e: Local, explicitly: bool): Local {
    if explicitly then e.(explicitly := true) else e.(implicitly := (e.implicitly + 1) % 0x1_0000_0000)
  }

  /** Counts one less; an implicit count of zero wraps around. */
  function Uncount(e: Local, explicitly: bool): Local {
    if explicitly then e.(explicitly := false) else e.(implicitly := (e.implicitly - 1) % 0x1_0000_0000)
  }

  function Counting(p: Publisher, id: string, explicitly: bool): Publisher
    requires id in p.locals
  {
    p.(locals := p.locals[id := Count(p.locals[id], explicitly)])
  }

  function Uncounting(p: Publisher, id: string, explicitly: bool): Publisher
    requires id in p.locals
  {
    p.(locals := p.locals[id := Uncount(p.locals[id], explicitly)])
  }

  function SubscribeLocal(p: Publisher, id: string, explicitly: bool): (o: Outcome)
    ensures o.pub.locals.Keys == p.locals.Keys
    decreases explicitly
  {
    if id !in p.locals then Outcome(p, [], false)
    else
      var e := p.locals[id];
      var q := Counting(p, id, explicitly);
      if e.Subscribed() then Outcome(q, [], false)
      else
        var d := if explicitly && Foreign(id, e.metadata) then SubscribeLocal(q, e.metadata.tableId, false)
                 else Outcome(q, [], false);
        var c := Connect(d.pub, id);
        Outcome(c.pub, d.out + c.out, true)
  }

  /** The signals that one implicit unsubscription more would disconnect. */
  function LastOnes(p: Publisher): set<string> {
    set id | id in p.locals && !p.locals[id].explicitly && p.locals[id].implicitly == 1
  }

  function UnsubscribeLocal(p: Publisher, id: string, explicitly: bool): (o: Outcome)
    ensures o.pub.locals.Keys == p.locals.Keys
    decreases explicitly, LastOnes(p)
  {
    if id !in p.locals then Outcome(p, [], false)
    else
      var q := Uncounting(p, id, explicitly);
      var e := q.locals[id];
      if e.Subscribed() then Outcome(q, [], false)
      else
        var c := Disconnect(q, id);
        assert !explicitly ==> id in LastOnes(p) && id !in LastOnes(c.pub);
        if Foreign(id, e.metadata) then
          var d := UnsubscribeLocal(c.pub, e.metadata.tableId, false);
          Outcome(d.pub, c.out + d.out, true)
        else Outcome(c.pub, c.out, true)
  }

  /** The application changes a signal's metadata; the change is forwarded if the signal is connected. */
  function SetMetadata(p: Publisher, id: string, metadata: Metadata): Step {
    if id !in p.locals then Step(p, [])
    else
      var e := p.locals[id].(metadata := metadata);
      var q := p.(locals := p.locals[id := e]);
      if !e.connected then Step(q, []) else Notify(q, id)
  }

  function Notify(p: Publisher, id: string): Step
    requires id in p.locals
  {
    var q := Refresh(p, id);
    var e := q.locals[id];
    Step(q.(locals := q.locals[id := e.(valueIndex := 0)]), [Signal(e.signo, e.metadata)])
  }

  /** The live table of the domain a signal is bound to. */
  function Domain(p: Publisher, id: string): Option<Table>
    requires id in p.locals
  {
    p.store.Lock(p.locals[id].domainTable)
  }

  /** The sample index that a signal's next block starts at, as its domain counts. */
  function NextIndex(e: Local, t: Table): int64 {
    if e.isExplicit then e.valueIndex else t.driven
  }

  /** Whether a block's time is not the one its domain predicts, so that a domain packet must precede it. */
  predicate OffTheLine(p: Publisher, id: string, time: int64)
    requires id in p.locals
  {
    Domain(p, id).Some? && time != Domain(p, id).value.ValueAt(NextIndex(p.locals[id], Domain(p, id).value))
  }

  /** Puts a domain back on the line of the time given. */
  function Retime(p: Publisher, id: string, time: int64): Step
    requires id in p.locals
  {
    var e := p.locals[id];
    if OffTheLine(p, id, time) then
      var t := Domain(p, id).value;
      var index := NextIndex(e, t);
      Step(p.(store := p.store.Put(e.domainTable.value, t.Set(index, time))),
           [Block(e.domainSigno, LinearPayload(index, time))])
    else Step(p, [])
  }

  /** Counts a block's samples and drives the domain along. */
  function Advance(p: Publisher, id: string, count: nat): Publisher
    requires id in p.locals
  {
    var e := p.locals[id];
    var index := Wrap(e.valueIndex + count);
    var q := p.(locals := p.locals[id := e.(valueIndex := index)]);
    if e.isExplicit && Domain(p, id).Some? then
      q.(store := q.store.Put(e.domainTable.value, Domain(p, id).value.DriveTo(index)))
    else q
  }

  /** The application publishes a block; it is forwarded if the signal is connected. */
  function Publish(p: Publisher, id: string, time: int64, count: nat, data: seq<byte>): Step {
    if id !in p.locals || !p.locals[id].connected then Step(p, [])
    else
      var r := Retime(p, id, time);
      Step(Advance(r.pub, id, count), r.out + [Block(p.locals[id].signo, data)])
  }

  // ----- subscribing and unsubscribing, unfolded once -----

  /** Subscribing, one level down. */
  lemma SubscribeStep(p: Publisher, id: string, explicitly: bool)
    ensures var o := SubscribeLocal(p, id, explicitly);
            if id !in p.locals then o.pub == p && o.out == [] && !o.ok
            else
              var q := Counting(p, id, explicitly);
              if p.locals[id].Subscribed() then o.pub == q && o.out == [] && !o.ok
              else if explicitly && Foreign(id, p.locals[id].metadata) then
                var d := SubscribeLocal(q, p.locals[id].metadata.tableId, false);
                id in d.pub.locals && o.ok && o.pub == Connect(d.pub, id).pub && o.out == d.out + Connect(d.pub, id).out
              else o.ok && o.pub == Connect(q, id).pub && o.out == Connect(q, id).out
  {
    hide Connect;
  }

  lemma CountingKeeps(p: Publisher, id: string, explicitly: bool)
    requires id in p.locals
    ensures Counting(p, id, explicitly).locals.Keys == p.locals.Keys
    ensures forall v | v in p.locals :: Counting(p, id, explicitly).locals[v].metadata == p.locals[v].metadata
    ensures forall v | v in p.locals && v != id :: Counting(p, id, explicitly).locals[v] == p.locals[v]
    ensures Counting(p, id, explicitly).locals[id].connected == p.locals[id].connected
  {
  }

  /** Unsubscribing, one level down. */
  lemma UnsubscribeStep(p: Publisher, id: string, explicitly: bool)
    ensures var o := UnsubscribeLocal(p, id, explicitly);
            if id !in p.locals then o.pub == p && o.out == [] && !o.ok
            else
              var q := Uncounting(p, id, explicitly);
              var c := Disconnect(q, id);
              if q.locals[id].Subscribed() then o.pub == q && o.out == [] && !o.ok
              else if Foreign(id, p.locals[id].metadata) then
                var d := UnsubscribeLocal(c.pub, p.locals[id].metadata.tableId, false);
                o.ok && o.pub == d.pub && o.out == c.out + d.out
              else o.ok && o.pub == c.pub && o.out == c.out
    ensures id in p.locals ==> Uncounting(p, id, explicitly).locals[id] == Uncount(p.locals[id], explicitly)
  {
  }

  /** The result of a subscription or unsubscription says whether anything was sent. */
  lemma {:induction false} ResultTells(p: Publisher, id: string, explicitly: bool)
    ensures SubscribeLocal(p, id, explicitly).ok <==> SubscribeLocal(p, id, explicitly).out != []
    ensures UnsubscribeLocal(p, id, explicitly).ok <==> UnsubscribeLocal(p, id, explicitly).out != []
  {
    SubscribeStep(p, id, explicitly);
    UnsubscribeStep(p, id, explicitly);
    hide SubscribeLocal, UnsubscribeLocal;
  }

  /** Nobody is told of a metadata change of a signal that is not forwarded, and nothing derived from the metadata
      is brought up to date. */
  lemma UnforwardedChange(p: Publisher, id: string, metadata: Metadata)
    requires id in p.locals && !p.locals[id].connected
    ensures var s := SetMetadata(p, id, metadata);
            && s.out == [] && s.pub.store == p.store && s.pub.locals.Keys == p.locals.Keys
            && s.pub.locals[id].metadata == metadata && s.pub.locals[id].table == p.locals[id].table
            && s.pub.locals[id].isExplicit == p.locals[id].isExplicit
            && s.pub.locals[id].domainTable == p.locals[id].domainTable && s.pub.locals[id].valueIndex == p.locals[id].valueIndex
  {
  }

  /** Only linear signals get a table when they are registered. */
  lemma RegisteredTable(p: Publisher, id: string, metadata: Metadata)
    requires id !in p.locals
    ensures var q := AddLocal(p, id, metadata).pub;
            && id in q.locals && (q.locals[id].table.Some? <==> metadata.rule.Linear?)
            && (metadata.rule.Linear? && metadata.start.Some? && metadata.delta.Some? && metadata.valueIndex == Some(0) ==>
                  var t := q.store.Lock(q.locals[id].table);
                  && t.Some? && t.value.delta == metadata.delta.value && t.value.driven == 0
                  && t.value.ValueAt(0) == metadata.start.value && t.value.id == metadata.tableId)
  {
    assert metadata.delta.Some? ==> metadata.delta.value * (0 - 0) == 0;
  }

  // ----- runs -----

  /** Whatever the application and the remote peer may make the publishing side do. */
  datatype Op =
    | OpAdd(id: string, metadata: Metadata)
    | OpRemove(id: string)
    | OpHello
    | OpSubscribe(id: string)
    | OpUnsubscribe(id: string)
    | OpSetMetadata(id: string, metadata: Metadata)
    | OpPublish(id: string, time: int64, count: nat, data: seq<byte>)

  ghost function Apply(p: Publisher, op: Op): Step {
    match op
    case OpAdd(id, metadata) => AddLocal(p, id, metadata)
    case OpRemove(id) => RemoveLocal(p, id)
    case OpHello => Hello(p)
    case OpSubscribe(id) => var o := SubscribeLocal(p, id, true); Step(o.pub, o.out)
    case OpUnsubscribe(id) => var o := UnsubscribeLocal(p, id, true); Step(o.pub, o.out)
    case OpSetMetadata(id, metadata) => SetMetadata(p, id, metadata)
    case OpPublish(id, time, count, data) => Publish(p, id, time, count, data)
  }

  /** The state after a run, and everything sent in it. */
  ghost function Run(ops: seq<Op>): Step {
    if ops == [] then Step(START, [])
    else
      var before := Run(ops[..|ops| - 1]);
      var s := Apply(before.pub, ops[|ops| - 1]);
      Step(s.pub, before.out + s.out)
  }

  lemma RunNext(ops: seq<Op>, op: Op)
    ensures Run(ops + [op]) == Step(Apply(Run(ops).pub, op).pub, Run(ops).out + Apply(Run(ops).pub, op).out)
  {
    assert (ops + [op])[..|ops|] == ops;
  }

  lemma ApplySubscribe(p: Publisher, id: string)
    ensures Apply(p, OpSubscribe(id)) == Step(SubscribeLocal(p, id, true).pub, SubscribeLocal(p, id, true).out)
  {
    hide SubscribeLocal;
  }

  lemma ApplyPublish(p: Publisher, id: string, time: int64, count: nat, data: seq<byte>)
    ensures Apply(p, OpPublish(id, time, count, data)) == Publish(p, id, time, count, data)
  {
    hide Publish;
  }

  lemma ApplySetMetadata(p: Publisher, id: string, metadata: Metadata)
    ensures Apply(p, OpSetMetadata(id, metadata)) == SetMetadata(p, id, metadata)
  {
    hide SetMetadata;
  }
}
