/** What the two ends of a connection agree on in every run, whatever the application and the remote
    peer do: which signals exist, how they are numbered, and which are subscribed. */
module Directories {
  import opened Bytes
  import opened LinearTables
  import opened Publishers
  import opened Receivers
  import R = References

  /** Each number leads to a known signal that carries it. */
  predicate Consistent(r: Receiver) {
    forall n | n in r.bySigno :: r.bySigno[n] in r.signals && r.signals[r.bySigno[n]].signo == n
  }

  /** Numbers are nonzero and not shared. */
  predicate Numbered(p: Publisher) {
    && p.nextSigno > 0
    && (forall id | id in p.locals :: id != "" && 0 < p.locals[id].signo < p.nextSigno)
    && (forall a, b | a in p.locals && b in p.locals && p.locals[a].signo == p.locals[b].signo :: a == b)
  }

  /** What the receiver, once it has handled everything sent, knows about one signal. */
  predicate Entered(p: Publisher, r: Receiver, id: string) {
    && (id in r.signals ==>
          && id in p.locals
          && (r.signals[id].signo == 0 || r.signals[id].signo == p.locals[id].signo)
          && (r.signals[id].subscribed <==> p.locals[id].connected)
          && (p.helloSent <==> !r.signals[id].hidden))
    && (id in p.locals && (p.locals[id].connected || p.helloSent) ==> id in r.signals)
    && (id in p.locals && p.locals[id].connected ==>
          && r.signals[id].signo == p.locals[id].signo
          && p.locals[id].signo in r.bySigno && r.bySigno[p.locals[id].signo] == id)
  }

  ghost predicate Agree(p: Publisher, r: Receiver) {
    && Numbered(p) && Consistent(r) && 0 !in r.bySigno
    && forall id :: Entered(p, r, id)
  }

  /** Consistency after every message on the way. */
  ghost predicate StaysConsistent(r: Receiver, ms: seq<Message>) {
    forall k | 0 <= k <= |ms| :: Consistent(HandleAll(r, ms[..k]))
  }

  lemma StaysConsistentAppend(r: Receiver, a: seq<Message>, b: seq<Message>)
    requires StaysConsistent(r, a) && StaysConsistent(HandleAll(r, a), b)
    ensures StaysConsistent(r, a + b)
  {
    hide Consistent, HandleAll;
    forall k | 0 <= k <= |a + b| ensures Consistent(HandleAll(r, (a + b)[..k])) {
      if k <= |a| {
        assert (a + b)[..k] == a[..k];
      } else {
        assert (a + b)[..k] == a + b[..k - |a|];
        HandleAllAppend(r, a, b[..k - |a|]);
      }
    }
  }

  /** What each step must do: the two ends agree again, and were consistent throughout. */
  ghost predicate Keeps(s: Step, r: Receiver) {
    Agree(s.pub, HandleAll(r, s.out)) && StaysConsistent(r, s.out)
  }

  lemma Nothing(r: Receiver)
    ensures HandleAll(r, []) == r
    ensures Consistent(r) ==> StaysConsistent(r, [])
  {
  }

  lemma One(r: Receiver, m: Message)
    ensures HandleAll(r, [m]) == Handle(r, m)
    ensures Consistent(r) && Consistent(Handle(r, m)) ==> StaysConsistent(r, [m])
  {
    hide Consistent, Handle;
    assert [m][..0] == [] && [m][..1] == [m];
    assert HandleAll(r, []) == r;
  }

  lemma Two(r: Receiver, m: Message, n: Message)
    ensures HandleAll(r, [m, n]) == Handle(Handle(r, m), n)
    ensures Consistent(r) && Consistent(Handle(r, m)) && Consistent(Handle(Handle(r, m), n)) ==> StaysConsistent(r, [m, n])
  {
    hide Consistent, Handle;
    One(r, m);
    One(Handle(r, m), n);
    assert [m, n] == [m] + [n];
    HandleAllAppend(r, [m], [n]);
    if Consistent(r) && Consistent(Handle(r, m)) && Consistent(Handle(Handle(r, m), n)) {
      StaysConsistentAppend(r, [m], [n]);
    }
  }

  // ----- what the directory is not about -----

  predicate SameDirectory(p: Publisher, q: Publisher) {
    && q.locals.Keys == p.locals.Keys && q.nextSigno == p.nextSigno && q.helloSent == p.helloSent
    && forall id | id in p.locals ::
         q.locals[id].signo == p.locals[id].signo && q.locals[id].connected == p.locals[id].connected
  }

  predicate SameEntries(r: Receiver, q: Receiver) {
    && q.signals.Keys == r.signals.Keys && q.bySigno == r.bySigno
    && forall id | id in r.signals ::
         && q.signals[id].signo == r.signals[id].signo && q.signals[id].hidden == r.signals[id].hidden
         && q.signals[id].subscribed == r.signals[id].subscribed
  }

  lemma SameAgrees(p: Publisher, r: Receiver, p': Publisher, q: Receiver)
    requires Agree(p, r) && SameDirectory(p, p') && SameEntries(r, q)
    ensures Agree(p', q)
  {
    forall id ensures Entered(p', q, id) {
      assert Entered(p, r, id);
    }
  }

  lemma SignalKeepsDirectory(r: Receiver, signo: nat, metadata: Metadata)
    ensures SameEntries(r, HandleSignal(r, signo, metadata))
  {
    hide FindTable;
  }

  lemma BlockKeepsDirectory(r: Receiver, signo: nat, data: seq<byte>)
    ensures SameEntries(r, HandleBlock(r, signo, data))
  {
  }

  lemma RefreshKeepsDirectory(p: Publisher, id: string)
    requires id in p.locals
    ensures SameDirectory(p, Refresh(p, id))
  {
  }

  /** A message that leaves the directory alone. */
  lemma SilentAgrees(p: Publisher, r: Receiver, p': Publisher, m: Message)
    requires Agree(p, r) && SameDirectory(p, p') && SameEntries(r, Handle(r, m))
    ensures Keeps(Step(p', []), r) && Keeps(Step(p', [m]), r)
  {
    Nothing(r);
    One(r, m);
    SameAgrees(p, r, p', r);
    SameAgrees(p, r, p', Handle(r, m));
  }

  // ----- announcements -----

  /** What a list of available signals does to the container. */
  lemma {:induction false} AvailableEffect(r: Receiver, ids: seq<string>, id: string)
    ensures var q := HandleAvailable(r, ids);
            && (id in q.signals <==> id in r.signals || id in ids)
            && (id in r.signals ==> q.signals[id] == r.signals[id].(hidden := r.signals[id].hidden && id !in ids))
            && (id !in r.signals && id in ids ==> q.signals[id] == Fresh(false))
            && q.bySigno == r.bySigno && q.store == r.store && q.delivered == r.delivered
  {
    if ids != [] {
      AvailableEffect(r, ids[..|ids| - 1], id);
      AvailableEffect(r, ids[..|ids| - 1], ids[|ids| - 1]);
      assert ids == ids[..|ids| - 1] + [ids[|ids| - 1]];
    }
  }

  lemma {:induction false} IdsBelowCovers(p: Publisher, n: nat, id: string)
    requires Numbered(p)
    ensures id in IdsBelow(p, n) <==> id in p.locals && p.locals[id].signo < n
  {
    if n > 0 {
      IdsBelowCovers(p, n - 1, id);
    }
  }

  /** They are in the order of their numbers, that is, of their registration. */
  lemma {:induction false} IdsAscend(p: Publisher, n: nat, i: nat, j: nat)
    requires i < j < |IdsBelow(p, n)|
    ensures var ids := IdsBelow(p, n);
            ids[i] in p.locals && ids[j] in p.locals && p.locals[ids[i]].signo < p.locals[ids[j]].signo < n
  {
    var front := IdsBelow(p, n - 1);
    if j < |front| {
      IdsAscend(p, n - 1, i, j);
    } else {
      IdsRegistered(p, n - 1, i);
    }
  }

  lemma {:induction false} IdsRegistered(p: Publisher, n: nat, i: nat)
    requires i < |IdsBelow(p, n)|
    ensures IdsBelow(p, n)[i] in p.locals && p.locals[IdsBelow(p, n)[i]].signo < n
  {
    if i < |IdsBelow(p, n - 1)| {
      IdsRegistered(p, n - 1, i);
    }
  }

  /** The greeting advertises nothing exactly when nothing is registered. */
  lemma HelloTells(p: Publisher)
    requires Numbered(p)
    ensures Hello(p).out == [] <==> p.locals == map[]
  {
    var ids := IdsBelow(p, p.nextSigno);
    hide IdsBelow;
    forall id ensures id in ids <==> id in p.locals {
      IdsBelowCovers(p, p.nextSigno, id);
    }
    if p.locals != map[] {
      var id :| id in p.locals;
      assert id in ids;
    }
    assert ids != [] ==> ids[0] in p.locals;
  }

  lemma HelloAgrees(p: Publisher, r: Receiver)
    requires Agree(p, r)
    ensures Keeps(Hello(p), r)
  {
    var ids := IdsBelow(p, p.nextSigno);
    var q := HandleAvailable(r, ids);
    var p' := p.(helloSent := true);
    Nothing(r);
    One(r, Available(ids));
    assert ids == [] ==> q == r;
    AvailableEffect(r, ids, "");
    hide HandleAvailable, IdsBelow;
    forall id ensures Entered(p', q, id) {
      assert Entered(p, r, id);
      AvailableEffect(r, ids, id);
      IdsBelowCovers(p, p.nextSigno, id);
    }
    StillConsistent(r, ids);
  }

  lemma StillConsistent(r: Receiver, ids: seq<string>)
    requires Consistent(r)
    ensures Consistent(HandleAvailable(r, ids))
  {
    hide HandleAvailable;
    AvailableEffect(r, ids, "");
    forall n | n in r.bySigno
      ensures r.bySigno[n] in HandleAvailable(r, ids).signals && HandleAvailable(r, ids).signals[r.bySigno[n]].signo == n
    {
      AvailableEffect(r, ids, r.bySigno[n]);
    }
  }

  lemma AddAgrees(p: Publisher, r: Receiver, id: string, metadata: Metadata)
    requires Agree(p, r) && id != ""
    ensures Keeps(AddLocal(p, id, metadata), r)
  {
    var s := AddLocal(p, id, metadata);
    NothingAgrees(p, r);
    if id !in p.locals {
      var q := if p.helloSent then Handle(r, Available([id])) else r;
      RegisteredAgrees(p, r, id, metadata);
      RefreshKeepsDirectory(Registered(p, id, metadata), id);
      hide Refresh, Agree, SameDirectory, Handle;
      SameEntriesRefl(q);
      SameAgrees(Registered(p, id, metadata), q, s.pub, q);
      if p.helloSent {
        OneKeeps(s.pub, r, Available([id]));
      } else {
        NothingAgrees(s.pub, r);
      }
    }
  }

  lemma SameEntriesRefl(r: Receiver)
    ensures SameEntries(r, r)
  {
  }

  lemma RegisteredAgrees(p: Publisher, r: Receiver, id: string, metadata: Metadata)
    requires Agree(p, r) && id != "" && id !in p.locals
    ensures Consistent(r)
    ensures Agree(Registered(p, id, metadata), if p.helloSent then Handle(r, Available([id])) else r)
  {
    var q := if p.helloSent then HandleAvailable(r, [id]) else r;
    StillConsistent(r, [id]);
    hide HandleAvailable, Consistent;
    assert Entered(p, r, id);
    forall other ensures Entered(Registered(p, id, metadata), q, other) {
      AvailableEffect(r, [id], other);
      assert Entered(p, r, other);
    }
  }

  lemma RemoveAgrees(p: Publisher, r: Receiver, id: string)
    requires Agree(p, r)
    ensures Keeps(RemoveLocal(p, id), r)
  {
    var s := RemoveLocal(p, id);
    Nothing(r);
    if id in p.locals {
      One(r, Unavailable([id]));
      OneWithdrawn(r, id);
      var q := Withdraw(r, id);
      assert Entered(p, r, id);
      forall other ensures Entered(s.pub, q, other) {
        assert Entered(p, r, other);
      }
      forall n | n in q.bySigno ensures q.bySigno[n] in q.signals && q.signals[q.bySigno[n]].signo == n {
        assert r.bySigno[n] != id;
      }
    }
  }

  lemma OneWithdrawn(r: Receiver, id: string)
    ensures HandleUnavailable(r, [id]) == Withdraw(r, id)
  {
    assert [id][..0] == [];
    assert HandleUnavailable(r, []) == r;
  }

  // ----- subscriptions -----

  lemma ConnectAgrees(p: Publisher, r: Receiver, id: string)
    requires Agree(p, r) && id in p.locals
    ensures Keeps(Connect(p, id), r)
  {
    hide *;
    var e, c := p.locals[id], Connect(p, id);
    var m, md := Subscribe(e.signo, id), e.metadata.(valueIndex := Some(e.valueIndex));
    var p' := p.(locals := p.locals[id := e.(connected := true)]);
    ConnectSends(p, id);
    SubscribeMessageAgrees(p, r, id);
    OneKeeps(p', r, m);
    One(r, m);
    SignalKeepsDirectory(Handle(r, m), e.signo, md);
    SignalHandled(Handle(r, m), e.signo, md);
    SilentAgrees(p', Handle(r, m), c.pub, Signal(e.signo, md));
    KeepsAppend(Step(p', [m]), Step(c.pub, [Signal(e.signo, md)]), r);
    assert [m] + [Signal(e.signo, md)] == c.out;
  }

  lemma ConnectSends(p: Publisher, id: string)
    requires id in p.locals
    ensures var e := p.locals[id];
            && Connect(p, id).out == [Subscribe(e.signo, id), Signal(e.signo, e.metadata.(valueIndex := Some(e.valueIndex)))]
            && SameDirectory(p.(locals := p.locals[id := e.(connected := true)]), Connect(p, id).pub)
  {
  }

  lemma SignalHandled(r: Receiver, signo: nat, metadata: Metadata)
    ensures Handle(r, Signal(signo, metadata)) == HandleSignal(r, signo, metadata)
  {
  }

  lemma OneKeeps(p: Publisher, r: Receiver, m: Message)
    requires Consistent(r) && Agree(p, Handle(r, m))
    ensures Keeps(Step(p, [m]), r)
  {
    hide Handle;
    One(r, m);
  }

  lemma SubscribeMessageAgrees(p: Publisher, r: Receiver, id: string)
    requires Agree(p, r) && id in p.locals
    ensures var e := p.locals[id];
            && Consistent(r)
            && Agree(p.(locals := p.locals[id := e.(connected := true)]), Handle(r, Subscribe(e.signo, id)))
  {
    var p' := p.(locals := p.locals[id := p.locals[id].(connected := true)]);
    var n := p.locals[id].signo;
    var q := HandleSubscribe(r, n, id);
    assert Entered(p, r, id);
    SubscribeConsistent(r, n, id);
    hide Consistent, Numbered;
    assert Numbered(p') by {
      assert Numbered(p);
      ConnectedNumbered(p, id, true);
    }
    forall other ensures Entered(p', q, other) {
      assert Entered(p, r, other);
      if other != id && other in p.locals {
        assert p.locals[other].signo != n by {
          ConnectedNumbered(p, id, true);
        }
      }
    }
  }

  lemma ConnectedNumbered(p: Publisher, id: string, connected: bool)
    requires Numbered(p) && id in p.locals
    ensures Numbered(p.(locals := p.locals[id := p.locals[id].(connected := connected)]))
    ensures forall other | other in p.locals && other != id :: p.locals[other].signo != p.locals[id].signo
  {
  }

  /** Whether a signal is already reached by a number. */
  predicate Indexed(r: Receiver, id: string, n: nat) {
    id in r.signals && r.signals[id].signo == n && n in r.bySigno && r.bySigno[n] == id
  }

  /** A subscribe message keeps the two indices consistent exactly when it is ignored, or the signal is not
      reached by another number. */
  lemma SubscribeConsistent(r: Receiver, n: nat, id: string)
    requires Consistent(r)
    ensures Consistent(HandleSubscribe(r, n, id)) <==>
            id == "" || forall m | Indexed(r, id, m) :: m == n
  {
    var q := HandleSubscribe(r, n, id);
    if id != "" {
      assert n in q.bySigno && q.bySigno[n] == id;
      if m: nat :| Indexed(r, id, m) && m != n {
        assert m in q.bySigno && q.bySigno[m] == id;
      } else {
        forall m | m in q.bySigno ensures m != n ==> q.bySigno[m] != id {
          assert m in r.bySigno && r.bySigno[m] == id ==> Indexed(r, id, m);
        }
      }
    }
  }

  lemma DisconnectAgrees(p: Publisher, r: Receiver, id: string)
    requires Agree(p, r) && id in p.locals
    ensures Keeps(Disconnect(p, id), r)
  {
    UnsubscribeMessageAgrees(p, r, id);
    hide Agree, Handle;
    OneKeeps(Disconnect(p, id).pub, r, Unsubscribe(p.locals[id].signo, id));
  }

  lemma UnsubscribeMessageAgrees(p: Publisher, r: Receiver, id: string)
    requires Agree(p, r) && id in p.locals
    ensures Consistent(r) && Agree(Disconnect(p, id).pub, Handle(r, Unsubscribe(p.locals[id].signo, id)))
  {
    var n, p' := p.locals[id].signo, Disconnect(p, id).pub;
    var q := HandleUnsubscribe(r, n);
    UnsubscribeConsistent(r, n);
    ConnectedNumbered(p, id, false);
    assert Entered(p, r, id);
    if Find(r, n).Some? {
      assert Entered(p, r, Find(r, n).value);
    }
    hide Consistent, Numbered;
    forall other ensures Entered(p', q, other) {
      assert Entered(p, r, other);
    }
  }

  lemma UnsubscribeConsistent(r: Receiver, n: nat)
    requires Consistent(r)
    ensures Consistent(HandleUnsubscribe(r, n))
  {
  }

  /** Counting subscriptions is no business of the directory. */
  lemma CountAgrees(p: Publisher, r: Receiver, id: string, e: Local)
    requires Agree(p, r) && id in p.locals
    requires e.signo == p.locals[id].signo && e.connected == p.locals[id].connected
    ensures Agree(p.(locals := p.locals[id := e]), r)
  {
    var q := p.(locals := p.locals[id := e]);
    forall other ensures Entered(q, r, other) {
      assert Entered(p, r, other);
    }
  }

  lemma KeepsAppend(a: Step, b: Step, r: Receiver)
    requires Keeps(a, r) && Keeps(b, HandleAll(r, a.out))
    ensures Keeps(Step(b.pub, a.out + b.out), r)
  {
    hide HandleAll, Agree, StaysConsistent;
    HandleAllAppend(r, a.out, b.out);
    StaysConsistentAppend(r, a.out, b.out);
  }

  lemma NothingAgrees(p: Publisher, r: Receiver)
    requires Agree(p, r)
    ensures Keeps(Step(p, []), r)
  {
    Nothing(r);
  }

  lemma {:induction false} SubscribeAgrees(p: Publisher, r: Receiver, id: string, explicitly: bool)
    requires Agree(p, r)
    ensures var o := SubscribeLocal(p, id, explicitly); Keeps(Step(o.pub, o.out), r)
    decreases explicitly
  {
    hide Agree, Keeps, Connect;
    NothingAgrees(p, r);
    if id in p.locals {
      var e := p.locals[id];
      var q := p.(locals := p.locals[id := Count(e, explicitly)]);
      CountAgrees(p, r, id, Count(e, explicitly));
      NothingAgrees(q, r);
      if !e.Subscribed() {
        var d := if explicitly && Foreign(id, e.metadata) then SubscribeLocal(q, e.metadata.tableId, false)
                 else Outcome(q, [], false);
        if explicitly && Foreign(id, e.metadata) {
          SubscribeAgrees(q, r, e.metadata.tableId, false);
        }
        KeepsMeans(Step(d.pub, d.out), r);
        ConnectAgrees(d.pub, HandleAll(r, d.out), id);
        KeepsAppend(Step(d.pub, d.out), Connect(d.pub, id), r);
      }
    }
  }

  lemma KeepsMeans(s: Step, r: Receiver)
    requires Keeps(s, r)
    ensures Agree(s.pub, HandleAll(r, s.out))
  {
  }

  lemma {:induction false} UnsubscribeAgrees(p: Publisher, r: Receiver, id: string, explicitly: bool)
    requires Agree(p, r)
    ensures var o := UnsubscribeLocal(p, id, explicitly); Keeps(Step(o.pub, o.out), r)
    decreases explicitly, LastOnes(p)
  {
    hide Agree, Keeps;
    NothingAgrees(p, r);
    if id in p.locals {
      var e := Uncount(p.locals[id], explicitly);
      var q := p.(locals := p.locals[id := e]);
      CountAgrees(p, r, id, e);
      NothingAgrees(q, r);
      if !e.Subscribed() {
        var c := Disconnect(q, id);
        assert !explicitly ==> id in LastOnes(p) && id !in LastOnes(c.pub);
        DisconnectAgrees(q, r, id);
        KeepsMeans(c, r);
        if Foreign(id, e.metadata) {
          var d := UnsubscribeLocal(c.pub, e.metadata.tableId, false);
          UnsubscribeAgrees(c.pub, HandleAll(r, c.out), e.metadata.tableId, false);
          KeepsAppend(c, Step(d.pub, d.out), r);
        }
      }
    }
  }

  // ----- metadata and data -----

  lemma NotifyAgrees(p: Publisher, r: Receiver, id: string)
    requires Agree(p, r) && id in p.locals
    ensures Keeps(Notify(p, id), r)
  {
    RefreshKeepsDirectory(p, id);
    var e := Refresh(p, id).locals[id];
    hide Refresh, Handle, Agree;
    SignalKeepsDirectory(r, e.signo, e.metadata);
    SignalHandled(r, e.signo, e.metadata);
    SilentAgrees(p, r, Notify(p, id).pub, Signal(e.signo, e.metadata));
  }

  lemma SetMetadataAgrees(p: Publisher, r: Receiver, id: string, metadata: Metadata)
    requires Agree(p, r)
    ensures Keeps(SetMetadata(p, id, metadata), r)
  {
    hide Agree, Keeps, Notify;
    NothingAgrees(p, r);
    if id in p.locals {
      var e := p.locals[id].(metadata := metadata);
      CountAgrees(p, r, id, e);
      var q := p.(locals := p.locals[id := e]);
      NothingAgrees(q, r);
      NotifyAgrees(q, r, id);
    }
  }

  lemma BlockAgrees(p: Publisher, r: Receiver, p': Publisher, signo: nat, data: seq<byte>)
    requires Agree(p, r) && SameDirectory(p, p')
    ensures Keeps(Step(p', []), r) && Keeps(Step(p', [Block(signo, data)]), r)
  {
    hide Agree;
    BlockKeepsDirectory(r, signo, data);
    SilentAgrees(p, r, p', Block(signo, data));
  }

  lemma PublishAgrees(p: Publisher, r: Receiver, id: string, time: int64, count: nat, data: seq<byte>)
    requires Agree(p, r)
    ensures Keeps(Publish(p, id, time, count, data), r)
  {
    hide Agree, Keeps;
    NothingAgrees(p, r);
    if id in p.locals && p.locals[id].connected {
      var e := p.locals[id];
      var s := Retime(p, id, time);
      BlockAgrees(p, r, s.pub, e.domainSigno, if s.out == [] then [] else s.out[0].bytes);
      KeepsMeans(s, r);
      var q := Advance(s.pub, id, count);
      BlockAgrees(s.pub, HandleAll(r, s.out), q, e.signo, data);
      KeepsAppend(s, Step(q, [Block(e.signo, data)]), r);
    }
  }

  // ----- every run -----

  /** Signals have ids: a subscribe message without one is ignored. */
  predicate HasId(op: Op) {
    op.OpAdd? ==> op.id != ""
  }

  predicate HaveIds(ops: seq<Op>) {
    forall op | op in ops :: HasId(op)
  }

  lemma ApplyAgrees(p: Publisher, r: Receiver, op: Op)
    requires Agree(p, r) && HasId(op)
    ensures Keeps(Apply(p, op), r)
  {
    hide Agree, Keeps;
    match op
    case OpAdd(id, metadata) => AddAgrees(p, r, id, metadata);
    case OpRemove(id) => RemoveAgrees(p, r, id);
    case OpHello => HelloAgrees(p, r);
    case OpSubscribe(id) => SubscribeAgrees(p, r, id, true);
    case OpUnsubscribe(id) => UnsubscribeAgrees(p, r, id, true);
    case OpSetMetadata(id, metadata) => SetMetadataAgrees(p, r, id, metadata);
    case OpPublish(id, time, count, data) => PublishAgrees(p, r, id, time, count, data);
  }

  /** In every run the two ends agree once everything sent was handled, and whatever part of it was
      handled, each number leads to a known signal that carries it. */
  lemma {:induction false} EveryRunAgrees(ops: seq<Op>)
    requires HaveIds(ops)
    ensures Keeps(Run(ops), NOBODY)
  {
    if ops == [] {
      Nothing(NOBODY);
    } else {
      hide Apply, Agree, Keeps;
      var before := Run(ops[..|ops| - 1]);
      EveryRunAgrees(ops[..|ops| - 1]);
      KeepsMeans(before, NOBODY);
      var r := HandleAll(NOBODY, before.out);
      ApplyAgrees(before.pub, r, ops[|ops| - 1]);
      KeepsAppend(before, Apply(before.pub, ops[|ops| - 1]), NOBODY);
    }
  }

  /** The signals known to the application. */
  function Visible(r: Receiver): set<string> {
    set id | id in r.signals && !r.signals[id].hidden
  }

  /** Advertisement agreement: after the greeting, the signals announced to the remote application are
      the registered ones; before it, none. */
  lemma AdvertisementAgreement(ops: seq<Op>)
    requires HaveIds(ops)
    ensures var w := Run(ops);
            Visible(HandleAll(NOBODY, w.out)) == if w.pub.helloSent then w.pub.locals.Keys else {}
  {
    hide HandleAll;
    EveryRunAgrees(ops);
    var p, r := Run(ops).pub, HandleAll(NOBODY, Run(ops).out);
    forall id ensures id in Visible(r) <==> p.helloSent && id in p.locals {
      assert Entered(p, r, id);
    }
  }

  /** Two-index consistency at every moment of every run. */
  lemma TwoIndexConsistency(ops: seq<Op>, k: nat)
    requires HaveIds(ops) && k <= |Run(ops).out|
    ensures Consistent(HandleAll(NOBODY, Run(ops).out[..k]))
  {
    EveryRunAgrees(ops);
  }

  /** Subscription agreement: the remote signal is subscribed exactly when the publishing side forwards
      it, and it is then known by its number. */
  lemma SubscriptionAgreement(ops: seq<Op>, id: string)
    requires HaveIds(ops)
    ensures var p, r := Run(ops).pub, HandleAll(NOBODY, Run(ops).out);
            && (id in r.signals && r.signals[id].subscribed <==> id in p.locals && p.locals[id].connected)
            && (id in p.locals && p.locals[id].connected ==> Find(r, p.locals[id].signo) == Some(id))
  {
    hide HandleAll;
    EveryRunAgrees(ops);
    assert Entered(Run(ops).pub, HandleAll(NOBODY, Run(ops).out), id);
  }

  /** Where the subscription counts are right, and so in every permitted run, that is exactly when the remote
      peer subscribed the signal itself or subscribed a signal that names it. */
  lemma SubscribersAgree(ops: seq<Op>, id: string)
    requires HaveIds(ops) && R.AllPermitted(ops)
    ensures var p, r, s := Run(ops).pub, HandleAll(NOBODY, Run(ops).out), R.View(Run(ops).pub);
            && (id in r.signals && r.signals[id].subscribed <==> id in p.locals && p.locals[id].Subscribed())
            && (id in p.locals ==> (p.locals[id].Subscribed() <==> p.locals[id].explicitly || R.Users(s, id) != {}))
  {
    hide HandleAll, Run, R.Users;
    SubscriptionAgreement(ops, id);
    R.CountsConserved(ops);
    R.ViewAt(Run(ops).pub, id);
    assert id in Run(ops).pub.locals ==> R.Counted(R.View(Run(ops).pub), id);
  }
}
