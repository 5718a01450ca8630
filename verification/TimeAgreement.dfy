/** Which times the receiving application is given, over every run of registrations, removals,
    subscriptions, metadata changes and publications. */
module TimeAgreement {
  import opened Bytes
  import opened LinearTables
  import opened Publishers
  import opened Receivers
  import D = Directories
  import R = References
  import opened Steps
  import opened Bindings
  import opened LostDomains

  // ----- what a run is expected to keep to -----

  /** Well-made metadata; only what keeps the subscription counts right, and domains from naming domains; no
      block published on a domain itself, and the number of samples that the block's size says; and a
      signal that was published on since its metadata was last sent is not made a domain while nobody would
      be told. */
  predicate Mannerly(p: Publisher, op: Op) {
    && R.Permitted(p, op) && R.Shapely(p, op)
    && match op
       case OpAdd(id, md) => id != "" && WellMade(id, md)
       case OpSetMetadata(id, md) =>
         && WellMade(id, md)
         && (id in p.locals && !p.locals[id].connected && md.rule.Linear? ==> p.locals[id].valueIndex == 0)
       case OpPublish(id, time, count, data) =>
         id in p.locals && p.locals[id].connected ==>
           var md := p.locals[id].metadata;
           !md.rule.Linear? && (md.rule.Explicit? ==> Holds(md.sampleSize, md.binary, |data|, count))
       case _ => true
  }

  ghost predicate AllMannerly(ops: seq<Op>) {
    ops != [] ==> AllMannerly(ops[..|ops| - 1]) && Mannerly(Run(ops[..|ops| - 1]).pub, ops[|ops| - 1])
  }

  // ----- what the remote application must be given -----

  /** The signal is subscribed, and the signal it names has been registered and linear without
      interruption since the metadata of the first was last sent: since it was subscribed, or a change of
      its own metadata was forwarded. */
  ghost predicate LinearSince(ops: seq<Op>, v: string) {
    if ops == [] then false
    else
      var front, op := ops[..|ops| - 1], ops[|ops| - 1];
      var q := Run(ops).pub;
      && v in q.locals && q.locals[v].Subscribed() && NamesLinear(q, v)
      && (Resends(Run(front).pub, op, v) || LinearSince(front, v))
  }

  /** A block of an explicit-rule signal that was left without the same domain. */
  ghost predicate Drives(ops: seq<Op>, op: Op, t: string)
    decreases |ops|, 2
  {
    var p := Run(ops).pub;
    op.OpPublish? && op.id in p.locals && p.locals[op.id].Subscribed() && p.locals[op.id].metadata.rule.Explicit?
    && p.locals[op.id].metadata.tableId == t && Lost(ops, op.id).Some?
  }

  /** The table that a subscribed signal was left with when its domain was removed: the domain's table at that
      moment, driven since by the blocks of the signals left with it. It is gone when the signal's metadata
      is sent again. */
  ghost function Lost(ops: seq<Op>, v: string): Option<Table>
    decreases |ops|, 1
  {
    if ops == [] then None
    else
      var front, op := ops[..|ops| - 1], ops[|ops| - 1];
      var p, q := Run(front).pub, Run(ops).pub;
      if !(v in q.locals && q.locals[v].Subscribed()) || Resends(p, op, v) || q.locals[v].metadata.tableId in q.locals
      then None
      else if LinearSince(front, v) then Domain(p, v)
      else
        var left := Lost(front, v);
        if left.Some? && Drives(front, op, q.locals[v].metadata.tableId) then
          Some(left.value.DriveTo(Wrap(p.locals[op.id].valueIndex + op.count)))
        else left
  }

  /** The time that the next block of a signal is delivered with when its domain has not been linear since:
      what the table left says of the block's first sample, or 0 if there is none. */
  ghost function LostTime(ops: seq<Op>, v: string): int64
    requires v in Run(ops).pub.locals
  {
    var left := Lost(ops, v);
    if left.Some? then left.value.ValueAt(NextIndex(Run(ops).pub.locals[v], left.value)) else 0
  }

  /** The deliveries that a step after a run must cause: a block published on a subscribed signal, with the
      time that was passed if the signal's domain has been linear since, and otherwise with the time of the
      table left; and the domain packet in front of it. */
  ghost function Promise(ops: seq<Op>, op: Op): seq<Delivery> {
    var p := Run(ops).pub;
    if op.OpPublish? && op.id in p.locals && p.locals[op.id].Subscribed() then
      var time := if LinearSince(ops, op.id) then op.time else LostTime(ops, op.id);
      PacketDelivery(p, op.id, op.time) + [ValueDelivery(op.id, p.locals[op.id], time, op.count, op.data)]
    else []
  }

  ghost function Promised(ops: seq<Op>): seq<Delivery> {
    if ops == [] then []
    else Promised(ops[..|ops| - 1]) + Promise(ops[..|ops| - 1], ops[|ops| - 1])
  }

  // ----- what each step delivers -----

  /** The time that a block is delivered with when the publisher has no table for it. */
  function HeldTime(p: Publisher, r: Receiver, id: string): int64
    requires id in p.locals
  {
    if id in r.signals then LeftTime(r, id, p.locals[id]) else 0
  }

  /** The deliveries of a step, by the state it is taken in. */
  function Due(p: Publisher, r: Receiver, op: Op): seq<Delivery> {
    if op.OpPublish? && op.id in p.locals && p.locals[op.id].connected then
      var time := if Domain(p, op.id).Some? then op.time else HeldTime(p, r, op.id);
      PacketDelivery(p, op.id, op.time) + [ValueDelivery(op.id, p.locals[op.id], time, op.count, op.data)]
    else []
  }

  ghost function AllDue(ops: seq<Op>): seq<Delivery> {
    if ops == [] then []
    else
      var before := Run(ops[..|ops| - 1]);
      AllDue(ops[..|ops| - 1]) + Due(before.pub, HandleAll(NOBODY, before.out), ops[|ops| - 1])
  }

  lemma PublishBoth(p: Publisher, r: Receiver, op: Op)
    requires Both(p, r) && op.OpPublish? && Mannerly(p, op)
    ensures KeepsBoth(Apply(p, op), r, Due(p, r, op))
  {
    hide Both, KeepsBoth, Table.ValueAt, R.Permitted;
    NothingBoth(p, r);
    D.Nothing(r);
    var id, time, count, data := op.id, op.time, op.count, op.data;
    if id in p.locals && p.locals[id].connected {
      SampleCountExactly(p.locals[id].metadata.sampleSize, p.locals[id].metadata.binary, |data|, count);
      RetimeBoth(p, r, id, time);
      var s := Retime(p, id, time);
      KeepsBothMeans(s, r, PacketDelivery(p, id, time));
      BlockBoth(s.pub, HandleAll(r, s.out), id, time, count, data);
      hide HandleAll, Retime, Advance, ValueDelivery, PacketDelivery;
      var e := p.locals[id];
      BothAppend(s, Step(Advance(s.pub, id, count), [Block(e.signo, data)]), r,
        PacketDelivery(p, id, time),
        [ValueDelivery(id, e, if Domain(p, id).Some? then time else HeldTime(p, r, id), count, data)]);
    }
  }

  // ----- every run -----

  lemma ApplyBoth(p: Publisher, r: Receiver, op: Op)
    requires Both(p, r) && R.Balanced(R.View(p)) && Mannerly(p, op)
    ensures KeepsBoth(Apply(p, op), r, Due(p, r, op))
  {
    hide Both, KeepsBoth, R.Balanced, R.View, R.Unfounded, R.MayUnsubscribe, WellMade;
    match op
    case OpAdd(id, md) => AddBoth(p, r, id, md);
    case OpRemove(id) => RemoveBoth(p, r, id);
    case OpHello => HelloBoth(p, r);
    case OpSubscribe(id) => SubscribeBoth(p, r, id);
    case OpUnsubscribe(id) =>
      R.FoundedExactly(R.View(p), id);
      UnsubscribeBoth(p, r, id);
    case OpSetMetadata(id, md) => SetMetadataBoth(p, r, id, md);
    case OpPublish(id, time, count, data) => PublishBoth(p, r, op);
  }

  lemma StartBoth()
    ensures Both(START, NOBODY)
  {
  }

  lemma {:induction false} EverythingDue(ops: seq<Op>)
    requires AllMannerly(ops)
    ensures KeepsBoth(Run(ops), NOBODY, AllDue(ops)) && R.Balanced(R.View(Run(ops).pub))
  {
    hide Both, KeepsBoth, R.Balanced, R.View, Apply, Mannerly, Due;
    if ops == [] {
      StartBoth();
      NothingBoth(START, NOBODY);
      R.StartBalanced();
    } else {
      var front, op := ops[..|ops| - 1], ops[|ops| - 1];
      EverythingDue(front);
      var before := Run(front);
      KeepsBothMeans(before, NOBODY, AllDue(front));
      MannerlyPermitted(before.pub, op);
      ApplyBoth(before.pub, HandleAll(NOBODY, before.out), op);
      R.ApplyBalanced(before.pub, op);
      BothAppend(before, Apply(before.pub, op), NOBODY, AllDue(front), Due(before.pub, HandleAll(NOBODY, before.out), op));
    }
  }

  lemma MannerlyPermitted(p: Publisher, op: Op)
    requires Mannerly(p, op)
    ensures R.Permitted(p, op) && R.Shapely(p, op)
  {
  }

  // ----- when a signal is bound to its domain -----

  /** A signal that gets connected, or stays so, is bound to a live table if and only if its domain has been
      linear since. */
  lemma {:induction false} BoundExactly(ops: seq<Op>, v: string)
    requires AllMannerly(ops) && v in Run(ops).pub.locals && Run(ops).pub.locals[v].connected
    ensures Domain(Run(ops).pub, v).Some? <==> LinearSince(ops, v)
  {
    if ops != [] {
      hide *;
      var front, op := ops[..|ops| - 1], ops[|ops| - 1];
      var p, q := Run(front).pub, Run(ops).pub;
      RunApart(ops);
      EverythingDue(front);
      EverythingDue(ops);
      KeepsBothMeans(Run(front), NOBODY, AllDue(front));
      KeepsBothMeans(Run(ops), NOBODY, AllDue(ops));
      BothMeans(p, HandleAll(NOBODY, Run(front).out));
      ApplyMoves(p, op);
      BoundAfter(p, HandleAll(NOBODY, Run(front).out), op, q, HandleAll(NOBODY, Run(ops).out), v);
      DomainIn(q, HandleAll(NOBODY, Run(ops).out), v);
      LinearSinceStep(ops, v);
      if !Resends(p, op, v) {
        BoundExactly(front, v);
      }
    }
  }

  lemma RunApart(ops: seq<Op>)
    requires ops != [] && AllMannerly(ops)
    ensures var front, op := ops[..|ops| - 1], ops[|ops| - 1];
            && AllMannerly(front) && Mannerly(Run(front).pub, op)
            && (op.OpSetMetadata? ==> WellMade(op.id, op.metadata))
            && Run(ops) == Step(Apply(Run(front).pub, op).pub, Run(front).out + Apply(Run(front).pub, op).out)
  {
    hide Apply, R.Permitted;
  }

  lemma LinearSinceStep(ops: seq<Op>, v: string)
    requires ops != [] && v in Run(ops).pub.locals && Run(ops).pub.locals[v].Subscribed()
    ensures var front, op := ops[..|ops| - 1], ops[|ops| - 1];
            LinearSince(ops, v) <==> NamesLinear(Run(ops).pub, v) && (Resends(Run(front).pub, op, v) || LinearSince(front, v))
  {
    hide Run, Resends, NamesLinear;
  }

  // ----- what a signal is left with when its domain is removed -----

  /** The last step of a run. */
  ghost predicate LastStep(p: Publisher, r: Receiver, op: Op, q: Publisher, r': Receiver) {
    && Both(p, r) && Both(q, r') && R.Balanced(R.View(p)) && Moves(p, op, q) && D.Keeps(Apply(p, op), r)
    && q == Apply(p, op).pub && r' == HandleAll(r, Apply(p, op).out) && Mannerly(p, op)
  }

  /** The receiving side once everything sent in a run was handled. */
  ghost function Drained(ops: seq<Op>): Receiver {
    HandleAll(NOBODY, Run(ops).out)
  }

  lemma LastStepIs(ops: seq<Op>)
    requires ops != [] && AllMannerly(ops)
    ensures var front, op := ops[..|ops| - 1], ops[|ops| - 1];
            AllMannerly(front) && LastStep(Run(front).pub, Drained(front), op, Run(ops).pub, Drained(ops))
  {
    hide *;
    var front, op := ops[..|ops| - 1], ops[|ops| - 1];
    var p, r := Run(front).pub, Drained(front);
    DrainedIs(front);
    DrainedIs(ops);
    RunApart(ops);
    EverythingDue(front);
    EverythingDue(ops);
    KeepsBothMeans(Run(front), NOBODY, AllDue(front));
    KeepsBothMeans(Run(ops), NOBODY, AllDue(ops));
    BothMeans(p, r);
    ApplyMoves(p, op);
    MannerlyIds(p, op);
    D.ApplyAgrees(p, r, op);
    HandleAllAppend(NOBODY, Run(front).out, Apply(p, op).out);
    LastStepMeans(p, r, op, Run(ops).pub, Drained(ops));
  }

  lemma DrainedIs(ops: seq<Op>)
    ensures Drained(ops) == HandleAll(NOBODY, Run(ops).out)
  {
  }

  lemma MannerlyIds(p: Publisher, op: Op)
    requires Mannerly(p, op)
    ensures D.HasId(op)
  {
  }

  lemma LastStepMeans(p: Publisher, r: Receiver, op: Op, q: Publisher, r': Receiver)
    ensures LastStep(p, r, op, q, r') <==>
            && Both(p, r) && Both(q, r') && R.Balanced(R.View(p)) && Moves(p, op, q) && D.Keeps(Apply(p, op), r)
            && q == Apply(p, op).pub && r' == HandleAll(r, Apply(p, op).out) && Mannerly(p, op)
  {
  }

  lemma {:induction false} SiblingsAlways(ops: seq<Op>)
    requires AllMannerly(ops)
    ensures Siblings(Run(ops).pub, Drained(ops))
  {
    if ops != [] {
      var front, op := ops[..|ops| - 1], ops[|ops| - 1];
      hide *;
      LastStepIs(ops);
      LastStepMeans(Run(front).pub, Drained(front), op, Run(ops).pub, Drained(ops));
      SiblingsAlways(front);
      SiblingsStay(Run(front).pub, Drained(front), op);
    }
  }

  /** A forwarded signal that is not bound to a live table is left with the table that its history says. */
  lemma {:induction false} LostExactly(ops: seq<Op>, v: string)
    requires AllMannerly(ops) && v in Run(ops).pub.locals && Run(ops).pub.locals[v].connected
    requires Domain(Run(ops).pub, v).None?
    ensures Held(Drained(ops), v) == Lost(ops, v)
  {
    hide *;
    if ops == [] {
      RunNothing();
      assert false;
    }
    var front, op := ops[..|ops| - 1], ops[|ops| - 1];
    var p, r, q, r' := Run(front).pub, Drained(front), Run(ops).pub, Drained(ops);
    LastStepIs(ops);
    AllPlain(ops);
    PlainAt(q, v);
    LostStep(ops, v);
    if Resends(p, op, v) || q.locals[v].metadata.tableId in q.locals {
      NotLeft(p, r, op, q, r', v);
    } else {
      StaysBound(p, r, op, q, r', v);
      BoundExactly(front, v);
      if Domain(p, v).None? {
        LostExactly(front, v);
        DrivesPublished(front, op, q.locals[v].metadata.tableId);
        if Held(r, v).Some? && op.OpPublish? {
          if op.id in p.locals && p.locals[op.id].connected && Domain(p, op.id).None? {
            LostExactly(front, op.id);
          }
          DrivesExactly(front, op, v);
          HeldDriven(p, r, op, q, r', v);
          DrivenMeans(p, r, op.id, op.count, Reference(r, v).value);
        }
      }
    }
  }

  lemma RunNothing()
    ensures Run([]) == Step(START, []) && START.locals == map[]
  {
  }

  lemma LostStep(ops: seq<Op>, v: string)
    requires ops != [] && v in Run(ops).pub.locals && Run(ops).pub.locals[v].Subscribed()
    ensures var front, op, q := ops[..|ops| - 1], ops[|ops| - 1], Run(ops).pub;
            Lost(ops, v) ==
            if Resends(Run(front).pub, op, v) || q.locals[v].metadata.tableId in q.locals then None
            else if LinearSince(front, v) then Domain(Run(front).pub, v)
            else if Lost(front, v).Some? && Drives(front, op, q.locals[v].metadata.tableId) then
              Some(Lost(front, v).value.DriveTo(Wrap(Run(front).pub.locals[op.id].valueIndex + op.count)))
            else Lost(front, v)
  {
    hide Run, Resends, LinearSince, Drives, Domain, Wrap;
    DrivesPublished(ops[..|ops| - 1], ops[|ops| - 1], Run(ops).pub.locals[v].metadata.tableId);
  }

  lemma DrivesPublished(ops: seq<Op>, op: Op, t: string)
    ensures Drives(ops, op, t) <==>
            && op.OpPublish? && op.id in Run(ops).pub.locals && Run(ops).pub.locals[op.id].Subscribed()
            && Run(ops).pub.locals[op.id].metadata.rule.Explicit? && Run(ops).pub.locals[op.id].metadata.tableId == t
            && Lost(ops, op.id).Some?
  {
    hide Run, Lost;
  }

  lemma AllPlain(ops: seq<Op>)
    requires AllMannerly(ops)
    ensures Plain(Run(ops).pub)
  {
    hide *;
    EverythingDue(ops);
    BalancedPlain(Run(ops).pub);
  }

  lemma PlainAt(p: Publisher, v: string)
    requires Plain(p) && v in p.locals
    ensures p.locals[v].connected <==> p.locals[v].Subscribed()
  {
  }

  /** The signals that drive a table left are the ones left with it. */
  lemma DrivesExactly(ops: seq<Op>, op: Op, v: string)
    requires AllMannerly(ops) && op.OpPublish? && Left(Run(ops).pub, Drained(ops), v)
    requires var p, u := Run(ops).pub, op.id;
             u in p.locals && p.locals[u].connected && Domain(p, u).None? ==> Held(Drained(ops), u) == Lost(ops, u)
    ensures v in Run(ops).pub.locals
    ensures var p, r, u := Run(ops).pub, Drained(ops), op.id;
            Drives(ops, op, p.locals[v].metadata.tableId) <==>
            u in p.locals && p.locals[u].connected && p.locals[u].metadata.rule.Explicit? && Reference(r, u) == Reference(r, v)
  {
    var p, r, u := Run(ops).pub, Drained(ops), op.id;
    EverythingDue(ops);
    KeepsBothMeans(Run(ops), NOBODY, AllDue(ops));
    DrainedIs(ops);
    BothMeans(p, r);
    SiblingsAlways(ops);
    DrivesPublished(ops, op, p.locals[v].metadata.tableId);
    AllPlain(ops);
    hide KeepsBoth, Both, R.Balanced, R.View, Run, Drained, HandleAll, Lost, Drives, AllMannerly;
    LeftOutlived(p, r, v);
    if u in p.locals && p.locals[u].connected {
      if Reference(r, u) == Reference(r, v) {
        LeftOr(p, r, u);
        if Domain(p, u).Some? {
          DomainKnown(p, r, u);
          assert false;
        }
        LeftOutlived(p, r, u);
      } else if Domain(p, u).Some? {
        DomainKnown(p, r, u);
      }
    }
  }


  lemma NotLeft(p: Publisher, r: Receiver, op: Op, q: Publisher, r': Receiver, v: string)
    requires LastStep(p, r, op, q, r') && v in q.locals && q.locals[v].connected && Domain(q, v).None?
    requires Resends(p, op, v) || q.locals[v].metadata.tableId in q.locals
    ensures Held(r', v).None?
  {
    hide Both, R.Balanced, R.View, Moves, D.Keeps, Apply, HandleAll, Mannerly, Held;
    if Left(q, r', v) {
      LeftOutlived(q, r', v);
      BoundAnew(p, r, op, q, r', v);
    }
  }

  /** A signal not bound anew, whose domain is not registered any more. */
  lemma StaysBound(p: Publisher, r: Receiver, op: Op, q: Publisher, r': Receiver, v: string)
    requires LastStep(p, r, op, q, r') && v in q.locals && q.locals[v].connected && Domain(q, v).None?
    requires !Resends(p, op, v) && q.locals[v].metadata.tableId !in q.locals
    ensures v in p.locals && p.locals[v].connected && p.locals[v].metadata == q.locals[v].metadata
    ensures Reference(r', v) == Reference(r, v)
    ensures Domain(p, v).Some? ==> Held(r', v) == Domain(p, v)
    ensures Held(r, v).None? ==> Held(r', v).None?
    ensures Domain(p, v).None? && Held(r, v).Some? ==>
              Left(p, r, v) && Reference(r, v).Some? && Outlived(r, Reference(r, v).value)
    ensures Domain(p, v).None? && Held(r, v).Some? && !op.OpPublish? ==> Held(r', v) == Held(r, v)
  {
    assert SameReference(p, q, v);
    BalancedPlain(p);
    BothMeans(p, r);
    HeldStays(p, r, op, v);
    DomainKnown(p, r, v);
    hide Both, R.Balanced, R.View, Moves, D.Keeps, HandleAll, Mannerly;
    if Domain(p, v).Some? {
      OnlyRemoved(p, op, p.locals[v].metadata.tableId);
      D.One(r, Unavailable([op.id]));
      WithdrawnRest(r, [op.id]);
    } else if Held(r, v).Some? {
      LeftOutlived(p, r, v);
    }
  }

  /** Data drives the table left to the index after the block. */
  lemma HeldDriven(p: Publisher, r: Receiver, op: Op, q: Publisher, r': Receiver, v: string)
    requires LastStep(p, r, op, q, r') && op.OpPublish? && Left(p, r, v)
    requires Reference(r', v) == Reference(r, v) && Reference(r, v).Some? && Outlived(r, Reference(r, v).value)
    ensures Reference(r, v).value in r.store.live && v in r.signals
    ensures Held(r', v) == Some(Driven(p, r, op.id, op.count, Reference(r, v).value))
    ensures Held(r, v) == Some(r.store.live[Reference(r, v).value])
  {
    ApplyPublish(p, op.id, op.time, op.count, op.data);
    MannerlyCounts(p, op);
    hide Both, R.Balanced, R.View, Moves, D.Keeps, HandleAll, Apply, Publish, Mannerly, Driven, Countable;
    PublishDrives(p, r, op.id, op.time, op.count, op.data, Reference(r, v).value);
  }

  lemma MannerlyCounts(p: Publisher, op: Op)
    requires Mannerly(p, op) && op.OpPublish?
    ensures Countable(p, op.id, op.count, op.data)
  {
    hide R.Permitted, R.Shapely, SampleCount, Holds;
    if op.id in p.locals {
      var md := p.locals[op.id].metadata;
      SampleCountExactly(md.sampleSize, md.binary, |op.data|, op.count);
    }
  }

  lemma DrivenMeans(p: Publisher, r: Receiver, u: string, count: nat, h: nat)
    requires h in r.store.live
    ensures Driven(p, r, u, count, h) ==
            if u in p.locals && p.locals[u].connected && p.locals[u].metadata.rule.Explicit? && Reference(r, u) == Some(h)
            then r.store.live[h].DriveTo(Wrap(p.locals[u].valueIndex + count))
            else r.store.live[h]
  {
  }

  lemma OnlyRemoved(p: Publisher, op: Op, t: string)
    requires t in p.locals && t !in Apply(p, op).pub.locals
    ensures op == OpRemove(t) && Apply(p, op).out == [Unavailable([t])]
  {
  }

  lemma {:induction false} PromisedIsDue(ops: seq<Op>)
    requires AllMannerly(ops)
    ensures Promised(ops) == AllDue(ops)
  {
    if ops != [] {
      var front, op := ops[..|ops| - 1], ops[|ops| - 1];
      PromisedIsDue(front);
      EverythingDue(front);
      BalancedPlain(Run(front).pub);
      DrainedIs(front);
      hide R.Balanced, R.View, KeepsBoth, Run, Drained, HandleAll, Apply, Mannerly, PacketDelivery, ValueDelivery, LinearSince, Lost,
           Domain, NextIndex, Table.ValueAt;
      if op.OpPublish? && op.id in Run(front).pub.locals && Run(front).pub.locals[op.id].connected {
        BoundExactly(front, op.id);
        if Domain(Run(front).pub, op.id).None? {
          LostExactly(front, op.id);
        }
      }
    }
  }

  // ----- the theorem -----

  /** Time agreement: once everything sent was handled, the remote application was given exactly what was
      promised: every block published while subscribed, none dropped, in order. */
  lemma EverythingDelivered(ops: seq<Op>)
    requires AllMannerly(ops)
    ensures KeepsBoth(Run(ops), NOBODY, Promised(ops)) && R.Balanced(R.View(Run(ops).pub))
  {
    hide *;
    EverythingDue(ops);
    PromisedIsDue(ops);
  }

  lemma {:induction false} MannerlyHaveIds(ops: seq<Op>)
    requires AllMannerly(ops)
    ensures D.HaveIds(ops)
  {
    if ops != [] {
      hide Run, Mannerly;
      var front, op := ops[..|ops| - 1], ops[|ops| - 1];
      MannerlyHaveIds(front);
      MannerlyIds(Run(front).pub, op);
      assert ops == front + [op];
    }
  }

  lemma {:induction false} AllMannerlyPermitted(ops: seq<Op>)
    requires AllMannerly(ops)
    ensures R.AllPermitted(ops)
  {
    if ops != [] {
      hide R.Permitted, Run;
      AllMannerlyPermitted(ops[..|ops| - 1]);
    }
  }

  /** Handling more never takes a delivery back. */
  lemma {:induction false} DeliveriesGrow(r: Receiver, ms: seq<Message>)
    ensures r.delivered <= HandleAll(r, ms).delivered
  {
    if ms != [] {
      hide Handle;
      DeliveriesGrow(r, ms[..|ms| - 1]);
      HandleDelivers(HandleAll(r, ms[..|ms| - 1]), ms[|ms| - 1]);
    }
  }

  lemma HandleDelivers(r: Receiver, m: Message)
    ensures r.delivered <= Handle(r, m).delivered
  {
    match m
    case Available(ids) => AvailableKeeps(r, ids);
    case Unavailable(ids) => UnavailableKeeps(r, ids);
    case Subscribe(signo, id) =>
    case Unsubscribe(signo, id) =>
    case Signal(signo, metadata) =>
    case Block(signo, bytes) =>
  }

  lemma {:induction false} UnavailableKeeps(r: Receiver, ids: seq<string>)
    ensures HandleUnavailable(r, ids).delivered == r.delivered
  {
    if ids != [] {
      UnavailableKeeps(r, ids[..|ids| - 1]);
    }
  }

  /** At every moment of every run, however much of what was sent has been handled, the deliveries are a
      prefix of what was promised; all of it once the channel is drained. */
  lemma TimeAgreement(ops: seq<Op>, k: nat)
    requires AllMannerly(ops) && k <= |Run(ops).out|
    ensures var out := Run(ops).out;
            && HandleAll(NOBODY, out[..k]).delivered <= Promised(ops)
            && (k == |out| ==> HandleAll(NOBODY, out[..k]).delivered == Promised(ops))
  {
    hide *;
    var out := Run(ops).out;
    EverythingDelivered(ops);
    KeepsBothMeans(Run(ops), NOBODY, Promised(ops));
    NothingDelivered();
    HandleAllAppend(NOBODY, out[..k], out[k..]);
    assert out[..k] + out[k..] == out;
    DeliveriesGrow(HandleAll(NOBODY, out[..k]), out[k..]);
    assert [] + Promised(ops) == Promised(ops);
    assert k == |out| ==> out[..k] == out;
  }

  lemma NothingDelivered()
    ensures NOBODY.delivered == []
  {
  }

  /** Any block published on a subscribed signal arrives last, with the time that was passed if the signal's
      domain has been linear since the signal's metadata was last sent, and otherwise with the time of the
      table left. */
  lemma PublishedBlockArrives(ops: seq<Op>, id: string, time: int64, count: nat, data: seq<byte>)
    requires AllMannerly(ops) && Mannerly(Run(ops).pub, OpPublish(id, time, count, data))
    requires id in Run(ops).pub.locals && Run(ops).pub.locals[id].Subscribed()
    ensures var d, e := HandleAll(NOBODY, Run(ops + [OpPublish(id, time, count, data)]).out).delivered, Run(ops).pub.locals[id];
            && d != [] && d[|d| - 1].id == id
            && d[|d| - 1].time == (if LinearSince(ops, id) then time else LostTime(ops, id))
            && (e.metadata.rule.Explicit? ==> d[|d| - 1].count == count && d[|d| - 1].data == data)
            && (e.metadata.rule.Constant? && |data| >= e.metadata.sampleSize ==>
                  d[|d| - 1].count == 1 && d[|d| - 1].data == data[..e.metadata.sampleSize])
            && (e.metadata.rule.Constant? && |data| < e.metadata.sampleSize ==> d[|d| - 1].count == 0 && d[|d| - 1].data == data)
  {
    hide Both, KeepsBoth, R.Balanced, R.View, Mannerly, Apply, HandleAll, PacketDelivery, LinearSince, LostTime;
    var op := OpPublish(id, time, count, data);
    assert (ops + [op])[..|ops|] == ops;
    EverythingDelivered(ops + [op]);
    KeepsBothMeans(Run(ops + [op]), NOBODY, Promised(ops + [op]));
    NothingDelivered();
  }

  /** So samples of the size that the metadata says are delivered as many as were published. */
  lemma SamplesArrive(ops: seq<Op>, id: string, time: int64, samples: seq<seq<byte>>)
    requires AllMannerly(ops) && id in Run(ops).pub.locals && Run(ops).pub.locals[id].Subscribed()
    requires var md := Run(ops).pub.locals[id].metadata;
             md.rule.Explicit? && md.sampleSize > 0 && forall s | s in samples :: |s| == md.sampleSize
    ensures var run := ops + [OpPublish(id, time, |samples|, Concat(samples))];
            var d := HandleAll(NOBODY, Run(run).out).delivered;
            && AllMannerly(run) && d != [] && d[|d| - 1].id == id
            && d[|d| - 1].count == |samples| && d[|d| - 1].data == Concat(samples)
  {
    hide *;
    var md := Run(ops).pub.locals[id].metadata;
    SamplesHeld(samples, md.sampleSize, md.binary);
    SamplesMannerly(Run(ops).pub, id, time, samples);
    MannerlyOneMore(ops, OpPublish(id, time, |samples|, Concat(samples)));
    PublishedBlockArrives(ops, id, time, |samples|, Concat(samples));
  }

  lemma MannerlyOneMore(ops: seq<Op>, op: Op)
    ensures AllMannerly(ops + [op]) <==> AllMannerly(ops) && Mannerly(Run(ops).pub, op)
  {
    hide Mannerly, Run;
    assert (ops + [op])[..|ops|] == ops;
  }

  lemma SamplesMannerly(p: Publisher, id: string, time: int64, samples: seq<seq<byte>>)
    requires id in p.locals && p.locals[id].metadata.rule.Explicit?
    requires var md := p.locals[id].metadata; Holds(md.sampleSize, md.binary, |Concat(samples)|, |samples|)
    ensures Mannerly(p, OpPublish(id, time, |samples|, Concat(samples)))
  {
    hide Holds, Concat;
  }

  /** The guarantee is the best there is: whatever time is passed is the time delivered if and only if the
      domain has been linear since; otherwise one time only is, that of the table left, or 0. */
  lemma TimeCarriedExactly(ops: seq<Op>, id: string, count: nat, data: seq<byte>)
    requires AllMannerly(ops) && id in Run(ops).pub.locals && Run(ops).pub.locals[id].Subscribed()
    requires Mannerly(Run(ops).pub, OpPublish(id, 0, count, data))
    ensures LinearSince(ops, id) <==>
            forall time: int64 :: LastTime(ops + [OpPublish(id, time, count, data)]) == time
    ensures forall time: int64 ::
              LastTime(ops + [OpPublish(id, time, count, data)]) == time <==> LinearSince(ops, id) || time == LostTime(ops, id)
  {
    hide *;
    var lost := LostTime(ops, id);
    forall time: int64 ensures LastTime(ops + [OpPublish(id, time, count, data)]) == if LinearSince(ops, id) then time else lost {
      LastTimeIs(ops, id, time, count, data);
    }
    if !LinearSince(ops, id) {
      var other := if lost == 0 then 1 else 0;
      assert LastTime(ops + [OpPublish(id, other, count, data)]) != other;
    }
  }

  lemma LastTimeIs(ops: seq<Op>, id: string, time: int64, count: nat, data: seq<byte>)
    requires AllMannerly(ops) && id in Run(ops).pub.locals && Run(ops).pub.locals[id].Subscribed()
    requires Mannerly(Run(ops).pub, OpPublish(id, 0, count, data))
    ensures LastTime(ops + [OpPublish(id, time, count, data)]) == if LinearSince(ops, id) then time else LostTime(ops, id)
  {
    hide Run, HandleAll, LinearSince, LostTime, AllMannerly;
    assert Mannerly(Run(ops).pub, OpPublish(id, time, count, data));
    PublishedBlockArrives(ops, id, time, count, data);
  }

  /** The time of the last delivery caused by a run. */
  ghost function LastTime(ops: seq<Op>): int64 {
    var d := HandleAll(NOBODY, Run(ops).out).delivered;
    if d == [] then 0 else d[|d| - 1].time
  }
}
