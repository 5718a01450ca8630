/** One local signal registered with several connections: whatever happens at any of them, its subscribe
    count is the number of connections that forward it, and its two events alternate. */
module Audiences {
  import opened Bytes
  import opened LinearTables
  import opened Publishers
  import opened Holders

  // ----- what a connection does with its holders -----

  /** A connection's entry for a signal gets a new holder, or lets go of the one it has. */
  datatype Action = Acquire(id: string) | Release(id: string)

  function SubscribeActions(p: Publisher, id: string, explicitly: bool): seq<Action>
    decreases explicitly
  {
    if id !in p.locals || p.locals[id].Subscribed() then []
    else
      var q := Counting(p, id, explicitly);
      [Acquire(id)]
      + if explicitly && Foreign(id, p.locals[id].metadata) then SubscribeActions(q, p.locals[id].metadata.tableId, false)
        else []
  }

  function UnsubscribeActions(p: Publisher, id: string, explicitly: bool): seq<Action>
    decreases explicitly, LastOnes(p)
  {
    if id !in p.locals || Uncounting(p, id, explicitly).locals[id].Subscribed() then []
    else
      var c := Disconnect(Uncounting(p, id, explicitly), id).pub;
      assert !explicitly ==> id in LastOnes(p) && id !in LastOnes(c);
      [Release(id)]
      + if Foreign(id, p.locals[id].metadata) then UnsubscribeActions(c, p.locals[id].metadata.tableId, false) else []
  }

  /** Removing a signal destroys its holder. */
  function Actions(p: Publisher, op: Op): seq<Action> {
    match op
    case OpSubscribe(id) => SubscribeActions(p, id, true)
    case OpUnsubscribe(id) => UnsubscribeActions(p, id, true)
    case OpRemove(id) => if id in p.locals then [Release(id)] else []
    case _ => []
  }

  /** Whether the holder of one signal is held after some actions. */
  function HeldAfter(held: bool, id: string, actions: seq<Action>): bool
    decreases |actions|
  {
    if actions == [] then held
    else
      var a := actions[0];
      HeldAfter(if a.id == id then a.Acquire? else held, id, actions[1..])
  }

  /** Whether a connection forwards a signal. */
  predicate Forwards(p: Publisher, id: string) {
    id in p.locals && p.locals[id].connected
  }

  /** Acquiring never lets go. */
  lemma {:induction false} SubscribeKeepsHeld(p: Publisher, id: string, explicitly: bool, x: string)
    ensures HeldAfter(true, x, SubscribeActions(p, id, explicitly))
    decreases explicitly
  {
    if id in p.locals && !p.locals[id].Subscribed() {
      var md := p.locals[id].metadata;
      if explicitly && Foreign(id, md) {
        SubscribeKeepsHeld(Counting(p, id, explicitly), md.tableId, false, x);
        assert SubscribeActions(p, id, explicitly)[1..] == SubscribeActions(Counting(p, id, explicitly), md.tableId, false);
      } else {
        assert SubscribeActions(p, id, explicitly)[1..] == [];
      }
    }
  }

  lemma {:induction false} SubscribeHolds(p: Publisher, id: string, explicitly: bool, x: string)
    ensures Forwards(SubscribeLocal(p, id, explicitly).pub, x) <==> HeldAfter(Forwards(p, x), x, SubscribeActions(p, id, explicitly))
    decreases explicitly
  {
    SubscribeStep(p, id, explicitly);
    if id in p.locals {
      var q, md := Counting(p, id, explicitly), p.locals[id].metadata;
      assert Forwards(q, x) == Forwards(p, x);
      if !p.locals[id].Subscribed() {
        if explicitly && Foreign(id, md) {
          SubscribeHolds(q, md.tableId, false, x);
          SubscribeKeepsHeld(q, md.tableId, false, x);
          var d := SubscribeLocal(q, md.tableId, false).pub;
          assert SubscribeActions(p, id, explicitly)[1..] == SubscribeActions(q, md.tableId, false);
          ConnectForwards(d, id, x);
        } else {
          assert SubscribeActions(p, id, explicitly)[1..] == [];
          ConnectForwards(q, id, x);
        }
      }
    }
  }

  lemma ConnectForwards(p: Publisher, id: string, x: string)
    requires id in p.locals
    ensures Forwards(Connect(p, id).pub, x) <==> x == id || Forwards(p, x)
  {
  }

  lemma {:induction false} UnsubscribeHolds(p: Publisher, id: string, explicitly: bool, x: string)
    ensures Forwards(UnsubscribeLocal(p, id, explicitly).pub, x) <==> HeldAfter(Forwards(p, x), x, UnsubscribeActions(p, id, explicitly))
    decreases explicitly, LastOnes(p)
  {
    UnsubscribeStep(p, id, explicitly);
    if id in p.locals {
      var q, md := Uncounting(p, id, explicitly), p.locals[id].metadata;
      var c := Disconnect(q, id).pub;
      assert Forwards(q, x) == Forwards(p, x);
      if !q.locals[id].Subscribed() {
        assert !explicitly ==> id in LastOnes(p) && id !in LastOnes(c);
        assert Forwards(c, x) == (x != id && Forwards(p, x));
        hide UnsubscribeLocal, LastOnes;
        if Foreign(id, md) {
          UnsubscribeHolds(c, md.tableId, false, x);
          assert UnsubscribeActions(p, id, explicitly)[1..] == UnsubscribeActions(c, md.tableId, false);
        } else {
          assert UnsubscribeActions(p, id, explicitly)[1..] == [];
        }
      }
    }
  }

  /** A connection holds exactly the signals that it forwards. */
  lemma HoldsForwarded(p: Publisher, op: Op, x: string)
    ensures Forwards(Apply(p, op).pub, x) <==> HeldAfter(Forwards(p, x), x, Actions(p, op))
  {
    match op
    case OpSubscribe(id) => SubscribeHolds(p, id, true, x);
    case OpUnsubscribe(id) => UnsubscribeHolds(p, id, true, x);
    case OpRemove(id) => assert [Release(id)][1..] == [];
    case OpAdd(id, md) => AddForwards(p, id, md, x);
    case OpHello =>
    case OpSetMetadata(id, md) => SetMetadataForwards(p, id, md, x);
    case OpPublish(id, time, count, data) => PublishForwards(p, id, time, count, data, x);
  }

  lemma AddForwards(p: Publisher, id: string, md: Metadata, x: string)
    ensures Forwards(AddLocal(p, id, md).pub, x) <==> Forwards(p, x)
  {
  }

  lemma SetMetadataForwards(p: Publisher, id: string, md: Metadata, x: string)
    ensures Forwards(SetMetadata(p, id, md).pub, x) <==> Forwards(p, x)
  {
  }

  lemma PublishForwards(p: Publisher, id: string, time: int64, count: nat, data: seq<byte>, x: string)
    ensures Forwards(Publish(p, id, time, count, data).pub, x) <==> Forwards(p, x)
  {
    if id in p.locals && p.locals[id].connected {
      assert Retime(p, id, time).pub.locals == p.locals;
      hide Retime, Wrap;
    }
  }

  // ----- one signal, several connections -----

  /** The connections a signal is registered with, whether the holder of each tracks it, and its count. */
  datatype Audience = Audience(pubs: seq<Publisher>, holds: seq<bool>, tally: Tally)

  /** A new holder counts before the entry lets go of the one it had. */
  function Counted(tally: Tally, held: bool, a: Action): Tally {
    match a
    case Acquire(_) => if held then tally.Up().Down() else tally.Up()
    case Release(_) => if held then tally.Down() else tally
  }

  function Act(u: Audience, i: nat, id: string, a: Action): Audience
    requires i < |u.holds|
  {
    if a.id != id then u
    else u.(holds := u.holds[i := a.Acquire?], tally := Counted(u.tally, u.holds[i], a))
  }

  function ActAll(u: Audience, i: nat, id: string, actions: seq<Action>): (r: Audience)
    requires i < |u.holds|
    ensures |r.holds| == |u.holds| && r.pubs == u.pubs
    decreases |actions|
  {
    if actions == [] then u else ActAll(Act(u, i, id, actions[0]), i, id, actions[1..])
  }

  /** Something happens at one connection: a step of its publishing side, or its end. */
  datatype Happening = At(connection: nat, op: Op) | Closed(connection: nat)

  /** A connection that closes lets go of every holder and forgets its signals. */
  ghost function Happen(u: Audience, id: string, x: Happening): (r: Audience)
    requires |u.pubs| == |u.holds|
    ensures |r.pubs| == |r.holds| == |u.pubs|
  {
    var i := x.connection;
    if i >= |u.pubs| then u
    else
      var p := u.pubs[i];
      match x
      case At(_, op) => ActAll(u, i, id, Actions(p, op)).(pubs := u.pubs[i := Apply(p, op).pub])
      case Closed(_) =>
        var released := ActAll(u, i, id, if id in p.locals then [Release(id)] else []);
        released.(pubs := u.pubs[i := p.(locals := map[], store := Store(map[], p.store.next))])
  }

  ghost function After(n: nat, id: string, xs: seq<Happening>): (u: Audience)
    ensures |u.pubs| == |u.holds| == n
  {
    if xs == [] then Audience(seq(n, _ => START), seq(n, _ => false), Tally(0, []))
    else Happen(After(n, id, xs[..|xs| - 1]), id, xs[|xs| - 1])
  }

  function Holding(holds: seq<bool>): set<nat> {
    set i: nat | i < |holds| && holds[i]
  }

  /** The connections that forward a signal. */
  function Forwarding(pubs: seq<Publisher>, id: string): set<nat> {
    set i: nat | i < |pubs| && Forwards(pubs[i], id)
  }

  predicate Tallied(u: Audience) {
    u.tally.count == |Holding(u.holds)| && u.tally.Sound()
  }

  lemma {:induction false} HoldingBound(holds: seq<bool>)
    ensures |Holding(holds)| <= |holds|
  {
    if holds != [] {
      var n := |holds| - 1;
      HoldingBound(holds[..n]);
      assert Holding(holds) == if holds[n] then Holding(holds[..n]) + {n} else Holding(holds[..n]);
    }
  }

  lemma HoldingChange(holds: seq<bool>, i: nat, held: bool)
    requires i < |holds|
    ensures |Holding(holds[i := held])| == |Holding(holds)| + (if held && !holds[i] then 1 else if !held && holds[i] then -1 else 0)
  {
    if held == holds[i] {
      assert holds[i := held] == holds;
    } else if held {
      assert Holding(holds[i := held]) == Holding(holds) + {i};
    } else {
      assert Holding(holds) == Holding(holds[i := held]) + {i};
    }
  }

  lemma CountedSound(tally: Tally, held: bool, a: Action)
    requires tally.Sound() && tally.count < 0xFFFF_FFFF && (held ==> tally.count > 0)
    ensures Counted(tally, held, a).Sound()
    ensures Counted(tally, held, a).count ==
            tally.count + (if a.Acquire? && !held then 1 else if a.Release? && held then -1 else 0)
  {
  }

  lemma ActTallied(u: Audience, i: nat, id: string, a: Action)
    requires i < |u.holds| < 0xFFFF_FFFF && Tallied(u)
    ensures Tallied(Act(u, i, id, a))
  {
    if a.id == id {
      HoldingBound(u.holds);
      HoldingChange(u.holds, i, a.Acquire?);
      assert u.holds[i] ==> i in Holding(u.holds);
      hide Holding, Counted, Tally.Sound;
      CountedSound(u.tally, u.holds[i], a);
    }
  }

  lemma {:induction false} ActAllTallied(u: Audience, i: nat, id: string, actions: seq<Action>)
    requires i < |u.holds| < 0xFFFF_FFFF && Tallied(u)
    ensures var r := ActAll(u, i, id, actions);
            && Tallied(r) && r.holds == u.holds[i := HeldAfter(u.holds[i], id, actions)]
    decreases |actions|
  {
    if actions == [] {
      assert u.holds[i := u.holds[i]] == u.holds;
    } else {
      var v := Act(u, i, id, actions[0]);
      ActTallied(u, i, id, actions[0]);
      hide Tallied;
      ActAllTallied(v, i, id, actions[1..]);
      assert v.holds[i := HeldAfter(v.holds[i], id, actions[1..])] == u.holds[i := HeldAfter(v.holds[i], id, actions[1..])];
    }
  }

  /** The count and the holders are right, and every connection holds what it forwards. */
  predicate Right(u: Audience, id: string) {
    && |u.pubs| == |u.holds| && Tallied(u)
    && forall i | 0 <= i < |u.pubs| :: u.holds[i] <==> Forwards(u.pubs[i], id)
  }

  lemma HappenRight(u: Audience, id: string, x: Happening)
    requires Right(u, id) && |u.pubs| < 0xFFFF_FFFF
    ensures Right(Happen(u, id, x), id)
  {
    var i := x.connection;
    if i < |u.pubs| {
      var p := u.pubs[i];
      var actions := match x case At(_, op) => Actions(p, op) case Closed(_) => if id in p.locals then [Release(id)] else [];
      ActAllTallied(u, i, id, actions);
      if x.At? {
        HoldsForwarded(p, x.op, id);
      } else {
        assert [Release(id)][1..] == [];
      }
      hide Forwards, Actions, Apply;
    }
  }

  /** Holder conservation across connections: after anything that happened at any of them, in any order,
      the signal's subscribe count is the number of connections that forward it, and its subscribed and
      unsubscribed events alternate, the last one saying whether there is any. */
  lemma {:induction false} HolderConservation(n: nat, id: string, xs: seq<Happening>)
    requires n < 0xFFFF_FFFF
    ensures var u := After(n, id, xs);
            && u.tally.count == |Forwarding(u.pubs, id)|
            && Alternate(u.tally.events) && (|u.tally.events| % 2 == 1 <==> Forwarding(u.pubs, id) != {})
  {
    AlwaysRight(n, id, xs);
    var u := After(n, id, xs);
    hide After, Forwards;
    assert Holding(u.holds) == Forwarding(u.pubs, id);
  }

  lemma {:induction false} AlwaysRight(n: nat, id: string, xs: seq<Happening>)
    requires n < 0xFFFF_FFFF
    ensures Right(After(n, id, xs), id)
  {
    if xs == [] {
      assert Holding(seq(n, _ => false)) == {};
    } else {
      hide Right, Happen;
      AlwaysRight(n, id, xs[..|xs| - 1]);
      RightSize(n, id, xs[..|xs| - 1]);
      HappenRight(After(n, id, xs[..|xs| - 1]), id, xs[|xs| - 1]);
    }
  }

  lemma RightSize(n: nat, id: string, xs: seq<Happening>)
    ensures |After(n, id, xs).pubs| == n
  {
  }
}
