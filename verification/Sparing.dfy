/** Domain packets are sparing: as long as the times passed stay on the predicted line none is sent. */
module Sparing {
  import opened Bytes
  import opened LinearTables
  import opened Publishers

  /** One call of publish_data(). */
  datatype Published = Published(time: int64, count: nat, data: seq<byte>)

  /** Publishing some blocks on one signal, one after the other. */
  function PublishAll(p: Publisher, id: string, blocks: seq<Published>): Step {
    if blocks == [] then Step(p, [])
    else
      var before, b := PublishAll(p, id, blocks[..|blocks| - 1]), blocks[|blocks| - 1];
      var s := Publish(before.pub, id, b.time, b.count, b.data);
      Step(s.pub, before.out + s.out)
  }

  /** Each time is the one before, moved on by the samples in between. */
  predicate OnOneLine(delta: int64, blocks: seq<Published>) {
    forall i | 0 < i < |blocks| :: blocks[i].time == Wrap(blocks[i - 1].time + delta * blocks[i - 1].count)
  }

  /** The packets of the blocks themselves. */
  function OwnPackets(signo: nat, blocks: seq<Published>): seq<Message> {
    seq(|blocks|, i requires 0 <= i < |blocks| => Block(signo, blocks[i].data))
  }

  /** A line goes on as a line, even where 64-bit arithmetic wraps around. */
  lemma LineGoesOn(t: Table, i: int64, n: nat)
    ensures t.ValueAt(Wrap(i + n)) == Wrap(t.ValueAt(i) + t.delta * n)
  {
    var x := t.value + t.delta * (i - t.index);
    var a := WrapOffset(x);
    var b := WrapOffset(i + n);
    hide Wrap;
    var period := 0x1_0000_0000_0000_0000;
    Distribute(t.delta, i, n, t.index, b, period);
    assert t.value + t.delta * (Wrap(i + n) - t.index) == (t.ValueAt(i) + t.delta * n) + (t.delta * b - a) * period;
    WrapPeriod(t.ValueAt(i) + t.delta * n, t.delta * b - a);
  }

  lemma Distribute(delta: int, i: int, n: int, index: int, b: int, period: int)
    ensures delta * (i + n + b * period - index) == delta * (i - index) + delta * n + (delta * b) * period
  {
  }

  /** A signal that is forwarded, bound to a domain, and whose next sample is predicted at a time. */
  predicate Predicts(p: Publisher, id: string, delta: int64, next: int64) {
    && id in p.locals && p.locals[id].connected && p.locals[id].isExplicit
    && Domain(p, id).Some? && Domain(p, id).value.delta == delta
    && Domain(p, id).value.ValueAt(p.locals[id].valueIndex) == next
  }

  /** A block with the predicted time needs no domain packet; any block leaves its end predicted. */
  lemma PublishPredicts(p: Publisher, id: string, b: Published)
    requires id in p.locals && p.locals[id].connected && p.locals[id].isExplicit && Domain(p, id).Some?
    ensures var s, delta := Publish(p, id, b.time, b.count, b.data), Domain(p, id).value.delta;
            && Predicts(s.pub, id, delta, Wrap(b.time + delta * b.count))
            && s.pub.locals[id].signo == p.locals[id].signo
            && (Predicts(p, id, delta, b.time) ==> s.out == [Block(p.locals[id].signo, b.data)])
            && (!Predicts(p, id, delta, b.time) ==>
                  s.out == [Block(p.locals[id].domainSigno, LinearPayload(p.locals[id].valueIndex, b.time)),
                            Block(p.locals[id].signo, b.data)])
  {
    var e, t := p.locals[id], Domain(p, id).value;
    PayloadSets(t, e.valueIndex, b.time, []);
    var t' := if OffTheLine(p, id, b.time) then t.Set(e.valueIndex, b.time) else t;
    LineGoesOn(t', e.valueIndex, b.count);
    hide Table.ValueAt, Wrap, LinearPayload;
    var index := Wrap(e.valueIndex + b.count);
    SameLine(t', index);
  }

  lemma SameLine(t: Table, index: int64)
    ensures t.DriveTo(index).ValueAt(index) == t.ValueAt(index)
  {
  }

  /** Signals that share a domain keep to its line together: after a block of an explicit-rule signal, a block of a
      constant-rule signal that starts where the first one ended needs no domain packet. */
  lemma ConstantFollows(p: Publisher, u: string, v: string, b: Published, count: nat, data: seq<byte>)
    requires u != v && u in p.locals && v in p.locals && p.locals[u].connected && p.locals[v].connected
    requires p.locals[u].isExplicit && !p.locals[v].isExplicit
    requires Domain(p, u).Some? && p.locals[v].domainTable == p.locals[u].domainTable
    ensures var q := Publish(p, u, b.time, b.count, b.data).pub;
            var time := Wrap(b.time + Domain(p, u).value.delta * b.count);
            Publish(q, v, time, count, data).out == [Block(p.locals[v].signo, data)]
  {
    PublishPredicts(p, u, b);
    PublishedDriven(p, u, b);
    hide Publish, Table.ValueAt, Wrap;
    var q := Publish(p, u, b.time, b.count, b.data).pub;
    NoPacket(q, v, Wrap(b.time + Domain(p, u).value.delta * b.count), count, data);
  }

  lemma PublishedDriven(p: Publisher, u: string, b: Published)
    requires u in p.locals && p.locals[u].connected && p.locals[u].isExplicit && Domain(p, u).Some?
    ensures var q := Publish(p, u, b.time, b.count, b.data).pub;
            && q.locals.Keys == p.locals.Keys && (forall v | v in p.locals && v != u :: q.locals[v] == p.locals[v])
            && q.locals[u].domainTable == p.locals[u].domainTable && Domain(q, u).Some?
            && Domain(q, u).value.driven == q.locals[u].valueIndex == Wrap(p.locals[u].valueIndex + b.count)
  {
    hide Table.ValueAt, Wrap, LinearPayload;
  }

  lemma NoPacket(p: Publisher, v: string, time: int64, count: nat, data: seq<byte>)
    requires v in p.locals && p.locals[v].connected && !p.locals[v].isExplicit
    requires Domain(p, v).Some? && Domain(p, v).value.ValueAt(Domain(p, v).value.driven) == time
    ensures Publish(p, v, time, count, data).out == [Block(p.locals[v].signo, data)]
  {
    hide Table.ValueAt, Wrap;
  }

  /** Sparing: a run of blocks on one line costs one domain packet, before the first block, if that one
      is off the line, and otherwise none. */
  lemma {:induction false} OnePacketAtMost(p: Publisher, id: string, blocks: seq<Published>)
    requires id in p.locals && p.locals[id].connected && p.locals[id].isExplicit && Domain(p, id).Some?
    requires blocks != [] && OnOneLine(Domain(p, id).value.delta, blocks)
    ensures var s, e := PublishAll(p, id, blocks), p.locals[id];
            s.out == (if OffTheLine(p, id, blocks[0].time)
                      then [Block(e.domainSigno, LinearPayload(e.valueIndex, blocks[0].time))] else [])
                     + OwnPackets(e.signo, blocks)
  {
    var q := LinePredicted(p, id, blocks);
  }

  lemma {:induction false} LinePredicted(p: Publisher, id: string, blocks: seq<Published>) returns (q: Publisher)
    requires id in p.locals && p.locals[id].connected && p.locals[id].isExplicit && Domain(p, id).Some?
    requires blocks != [] && OnOneLine(Domain(p, id).value.delta, blocks)
    ensures var s, e, delta, last := PublishAll(p, id, blocks), p.locals[id], Domain(p, id).value.delta, blocks[|blocks| - 1];
            && s.pub == q && Predicts(q, id, delta, Wrap(last.time + delta * last.count))
            && q.locals[id].signo == e.signo
            && s.out == (if OffTheLine(p, id, blocks[0].time)
                         then [Block(e.domainSigno, LinearPayload(e.valueIndex, blocks[0].time))] else [])
                        + OwnPackets(e.signo, blocks)
  {
    hide Publish, LinearPayload, Table.ValueAt, Wrap;
    var front, b, e := blocks[..|blocks| - 1], blocks[|blocks| - 1], p.locals[id];
    var delta := Domain(p, id).value.delta;
    q := PublishAll(p, id, blocks).pub;
    if front == [] {
      PublishPredicts(p, id, b);
      assert OwnPackets(e.signo, blocks) == [Block(e.signo, b.data)];
    } else {
      var before := LinePredicted(p, id, front);
      PublishPredicts(before, id, b);
      assert front[|front| - 1] == blocks[|blocks| - 2];
      assert OwnPackets(e.signo, blocks) == OwnPackets(e.signo, front) + [Block(e.signo, b.data)];
    }
  }
}
