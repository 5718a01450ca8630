/** Domains that are removed while subscribed signals use them: which times those signals are delivered with. */
module RemovedDomains {
  import opened Bytes
  import opened LinearTables
  import opened Publishers
  import opened Receivers
  import D = Directories
  import R = References
  import opened Steps
  import opened Bindings
  import T = TimeAgreement

  /** The line of a table is what it is whatever it was driven to. */
  predicate SameLine(a: Table, b: Table) {
    a.(driven := b.driven) == b
  }

  /** The table left is on the line that the domain was on when it was removed, however long ago: at index i the
      times of the signals left with it are what that line says. */
  lemma {:induction false} LostFrom(ops: seq<Op>, v: string) returns (k: nat)
    requires T.AllMannerly(ops) && T.Lost(ops, v).Some?
    ensures k < |ops| && T.LinearSince(ops[..k], v) && v in Run(ops[..k]).pub.locals
    ensures ops[k] == OpRemove(Run(ops[..k]).pub.locals[v].metadata.tableId)
    ensures Domain(Run(ops[..k]).pub, v).Some? && SameLine(T.Lost(ops, v).value, Domain(Run(ops[..k]).pub, v).value)
  {
    hide *;
    LostSubscribed(ops, v);
    var front, op := ops[..|ops| - 1], ops[|ops| - 1];
    T.LastStepIs(ops);
    T.AllPlain(ops);
    T.PlainAt(Run(ops).pub, v);
    T.LostStep(ops, v);
    if T.LinearSince(front, v) {
      k := |front|;
      RemovedLast(Run(front).pub, T.Drained(front), op, Run(ops).pub, T.Drained(ops), v);
      LinearSinceNames(front, v);
      SameLineAs(T.Lost(ops, v).value, 0);
    } else {
      k := LostFrom(front, v);
      assert front[..k] == ops[..k];
      SameLineAs(T.Lost(front, v).value, Wrap(if op.OpPublish? && op.id in Run(front).pub.locals
                                            then Run(front).pub.locals[op.id].valueIndex + op.count else 0));
      T.DrivesPublished(front, op, Run(ops).pub.locals[v].metadata.tableId);
      SameLineOf(T.Lost(ops, v).value, T.Lost(front, v).value, Domain(Run(ops[..k]).pub, v).value);
    }
  }

  lemma SameLineAs(t: Table, i: int64)
    ensures SameLine(t, t) && SameLine(t.DriveTo(i), t)
  {
  }

  lemma SameLineOf(a: Table, b: Table, c: Table)
    requires SameLine(a, b) && SameLine(b, c)
    ensures SameLine(a, c)
  {
  }

  lemma LostSubscribed(ops: seq<Op>, v: string)
    requires T.Lost(ops, v).Some?
    ensures ops != [] && v in Run(ops).pub.locals && Run(ops).pub.locals[v].Subscribed()
    ensures !Resends(Run(ops[..|ops| - 1]).pub, ops[|ops| - 1], v)
    ensures Run(ops).pub.locals[v].metadata.tableId !in Run(ops).pub.locals
  {
    hide Run, Resends, T.LinearSince, T.Drives, Domain, Wrap;
  }

  lemma LinearSinceNames(ops: seq<Op>, v: string)
    requires T.LinearSince(ops, v)
    ensures NamesLinear(Run(ops).pub, v) && Run(ops).pub.locals[v].Subscribed()
    ensures Foreign(v, Run(ops).pub.locals[v].metadata)
    ensures Run(ops).pub.locals[v].metadata.tableId in Run(ops).pub.locals
    ensures Run(ops).pub.locals[Run(ops).pub.locals[v].metadata.tableId].metadata.rule.Linear?
  {
    hide Run;
  }

  lemma RemovedLast(p: Publisher, r: Receiver, op: Op, q: Publisher, r': Receiver, v: string)
    requires T.LastStep(p, r, op, q, r') && v in q.locals && q.locals[v].connected && !Resends(p, op, v)
    requires q.locals[v].metadata.tableId !in q.locals
    ensures v in p.locals && (p.locals[v].metadata.tableId in p.locals ==> op == OpRemove(p.locals[v].metadata.tableId))
  {
    assert SameReference(p, q, v);
    hide Both, R.Balanced, R.View, Moves, D.Keeps, HandleAll, T.Mannerly;
    if p.locals[v].metadata.tableId in p.locals {
      T.OnlyRemoved(p, op, p.locals[v].metadata.tableId);
    }
  }

  /** Removing a domain in use is mannerly, and the signals that use it go on being delivered: the next time of
      each is the one passed if and only if it is the one that the domain predicted. */
  lemma RemovedDomainExactly(ops: seq<Op>, v: string, time: int64, count: nat, data: seq<byte>)
    requires T.AllMannerly(ops) && T.LinearSince(ops, v) && T.Mannerly(Run(ops).pub, OpPublish(v, time, count, data))
    ensures v in Run(ops).pub.locals
    ensures var run := ops + [OpRemove(Run(ops).pub.locals[v].metadata.tableId)];
            && T.AllMannerly(run + [OpPublish(v, time, count, data)])
            && (T.LastTime(run + [OpPublish(v, time, count, data)]) == time <==> !OffTheLine(Run(ops).pub, v, time))
  {
    LinearSinceNames(ops, v);
    hide *;
    var p, t := Run(ops).pub, Run(ops).pub.locals[v].metadata.tableId;
    var op, b := OpRemove(t), OpPublish(v, time, count, data);
    var run := ops + [op];
    ForeignIsOther(v, p.locals[v].metadata);
    T.EverythingDue(ops);
    KeepsBothMeans(Run(ops), NOBODY, T.AllDue(ops));
    BothMeans(p, HandleAll(NOBODY, Run(ops).out));
    T.AllPlain(ops);
    T.PlainAt(p, v);
    T.BoundExactly(ops, v);
    RemovalMannerly(p, t);
    RunNext(ops, op);
    RemovedRest(p, t, v, b);
    T.MannerlyOneMore(ops, op);
    T.MannerlyOneMore(run, b);
    PublishMannerly(Run(run).pub, v, time, count, data);
    T.LostStep(run, v);
    LinearSinceAfter(run, v);
    RemovalResends(p, t, v);
    assert run[..|run| - 1] == ops && run[|run| - 1] == op;
    T.LastTimeIs(run, v, time, count, data);
    LostTimeIs(run, v);
    OffTheLineMeans(p, v, time);
  }

  lemma RemovalMannerly(p: Publisher, t: string)
    requires PubSound(p) && t in p.locals && p.locals[t].metadata.rule.Linear?
    ensures T.Mannerly(p, OpRemove(t))
  {
    assert LocalSound(p.store, t, p.locals[t]);
    R.ViewAt(p, t);
    hide R.View;
  }

  lemma RemovedRest(p: Publisher, t: string, v: string, b: Op)
    requires v in p.locals && v != t && b.OpPublish? && b.id == v && T.Mannerly(p, b)
    ensures var q := Apply(p, OpRemove(t)).pub;
            && v in q.locals && q.locals[v] == p.locals[v] && t !in q.locals && T.Mannerly(q, b)
  {
  }

  lemma PublishMannerly(p: Publisher, v: string, time: int64, count: nat, data: seq<byte>)
    requires T.Mannerly(p, OpPublish(v, time, count, data))
    ensures T.Mannerly(p, OpPublish(v, 0, count, data))
  {
  }

  lemma LinearSinceAfter(ops: seq<Op>, v: string)
    requires v in Run(ops).pub.locals && Run(ops).pub.locals[v].metadata.tableId !in Run(ops).pub.locals
    ensures !T.LinearSince(ops, v)
  {
    hide Run;
  }

  lemma RemovalResends(p: Publisher, t: string, v: string)
    requires v in p.locals && p.locals[v].Subscribed()
    ensures !Resends(p, OpRemove(t), v)
  {
  }

  lemma LostTimeIs(ops: seq<Op>, v: string)
    requires v in Run(ops).pub.locals
    ensures T.LostTime(ops, v) ==
            var left := T.Lost(ops, v);
            if left.Some? then left.value.ValueAt(NextIndex(Run(ops).pub.locals[v], left.value)) else 0
  {
    hide Run, T.Lost, NextIndex, Table.ValueAt;
  }

  lemma OffTheLineMeans(p: Publisher, v: string, time: int64)
    requires v in p.locals && Domain(p, v).Some?
    ensures OffTheLine(p, v, time) <==> time != Domain(p, v).value.ValueAt(NextIndex(p.locals[v], Domain(p, v).value))
  {
    hide NextIndex, Table.ValueAt;
  }
}
