/** The linear tables that both ends of a connection keep for a domain signal, and the packets that
    keep them in step. */
module LinearTables {
  import opened Bytes

  datatype Option<+T> = None | Some(value: T) {
    function GetOr(default: T): T {
      if Some? then value else default
    }
  }

  type int64 = x: int | -0x8000_0000_0000_0000 <= x < 0x8000_0000_0000_0000

  /** What 64-bit two's complement arithmetic leaves of a result. */
  function Wrap(x: int): int64 {
    (x + 0x8000_0000_0000_0000) % 0x1_0000_0000_0000_0000 - 0x8000_0000_0000_0000
  }

  lemma WrapPeriod(x: int, k: int)
    ensures Wrap(x + k * 0x1_0000_0000_0000_0000) == Wrap(x)
  {
  }

  lemma WrapOffset(x: int) returns (k: int)
    ensures Wrap(x) == x + k * 0x1_0000_0000_0000_0000
  {
    k := -((x + 0x8000_0000_0000_0000) / 0x1_0000_0000_0000_0000);
  }

  /** The parts of a signal's metadata that the protocol itself looks at. */
  datatype Rule = Linear | Explicit | Constant
  datatype Metadata = Metadata(
    rule: Rule,
    start: Option<int64>,
    delta: Option<int64>,
    valueIndex: Option<int64>,
    tableId: string,
    sampleSize: nat,
    binary: bool)

  /** A linear table: the value at `index`, the step from one index to the next, and the index that
      the value signals using the table have reached. */
  datatype Table = Table(id: string, index: int64, value: int64, delta: int64, driven: int64) {
    function ValueAt(i: int64): int64 {
      Wrap(value + delta * (i - index))
    }

    function DrivenValue(): int64 {
      ValueAt(driven)
    }

    function Set(i: int64, v: int64): Table {
      Table(id, i, v, delta, i)
    }

    function DriveTo(i: int64): Table {
      this.(driven := i)
    }

    function Updated(metadata: Metadata): Table {
      var i := metadata.valueIndex;
      Table(if metadata.tableId != "" then metadata.tableId else id,
            i.GetOr(index), metadata.start.GetOr(value), metadata.delta.GetOr(delta), i.GetOr(driven))
    }
  }

  /** The fields of two metadata, those of the later one first. */
  function Overlaid(a: Metadata, b: Metadata): Metadata {
    b.(start := if b.start.Some? then b.start else a.start, delta := if b.delta.Some? then b.delta else a.delta,
       valueIndex := if b.valueIndex.Some? then b.valueIndex else a.valueIndex,
       tableId := if b.tableId != "" then b.tableId else a.tableId)
  }

  /** Metadata that says nothing changes nothing; two updates do what one with the fields of both does; and a
      table is what complete metadata says, whatever it was. */
  lemma UpdateLaws(t: Table, a: Metadata, b: Metadata)
    ensures a.start.None? && a.delta.None? && a.valueIndex.None? && a.tableId == "" ==> t.Updated(a) == t
    ensures t.Updated(a).Updated(b) == t.Updated(Overlaid(a, b))
    ensures a.start.Some? && a.delta.Some? && a.valueIndex.Some? && a.tableId != "" ==>
              var u, i := t.Updated(a), a.valueIndex.value;
              u.id == a.tableId && u.delta == a.delta.value && u.index == i == u.driven && u.value == a.start.value
  {
  }

  const ZERO_TABLE := Table("", 0, 0, 0, 0)

  // ----- the payload of a domain packet -----

  const LINEAR_PAYLOAD_SIZE := 16

  function Unsigned(x: int64): nat {
    if x < 0 then x + 0x1_0000_0000_0000_0000 else x
  }

  function LinearPayload(index: int64, value: int64): (d: seq<byte>)
    ensures |d| == LINEAR_PAYLOAD_SIZE
  {
    ToLittle(Unsigned(index), 8) + ToLittle(Unsigned(value), 8)
  }

  function PayloadIndex(d: seq<byte>): int64
    requires |d| >= LINEAR_PAYLOAD_SIZE
  {
    Wrap(LittleValue(d[..8]))
  }

  function PayloadValue(d: seq<byte>): int64
    requires |d| >= LINEAR_PAYLOAD_SIZE
  {
    Wrap(LittleValue(d[8..16]))
  }

  function UpdatedByPayload(t: Table, d: seq<byte>): Table
    requires |d| >= LINEAR_PAYLOAD_SIZE
  {
    Table(t.id, PayloadIndex(d), PayloadValue(d), t.delta, PayloadIndex(d))
  }

  lemma Int64RoundTrip(x: int64)
    ensures Wrap(LittleValue(ToLittle(Unsigned(x), 8))) == x
  {
    assert Pow256(8) == 0x1_0000_0000_0000_0000 by {
      assert Pow256(2) == 0x1_0000;
      assert Pow256(4) == 0x1_0000_0000;
      assert Pow256(6) == 0x1_0000_0000_0000;
    }
    LittleRoundTrip(Unsigned(x), 8);
  }

  /** The layout of a domain packet: the sample index and the value in two's complement, 64 bits each, least
      significant byte first. */
  lemma PayloadLayout(index: int64, value: int64, i: nat)
    requires i < 8
    ensures LinearPayload(index, value)[i] == Digit(if index < 0 then index + 0x1_0000_0000_0000_0000 else index, i)
    ensures LinearPayload(index, value)[8 + i] == Digit(if value < 0 then value + 0x1_0000_0000_0000_0000 else value, i)
  {
    hide ToLittle, Digit;
    LittleDigit(Unsigned(index), 8, i);
    LittleDigit(Unsigned(value), 8, i);
  }

  /** A domain packet does to the receiver's table what setting the value did to the sender's, whatever
      follows the payload; and the value set is the value then predicted. */
  lemma PayloadSets(t: Table, index: int64, value: int64, tail: seq<byte>)
    ensures UpdatedByPayload(t, LinearPayload(index, value) + tail) == t.Set(index, value)
    ensures t.Set(index, value).ValueAt(index) == value == t.Set(index, value).DrivenValue()
  {
    var d := LinearPayload(index, value) + tail;
    assert d[..8] == ToLittle(Unsigned(index), 8) && d[8..16] == ToLittle(Unsigned(value), 8);
    Int64RoundTrip(index);
    Int64RoundTrip(value);
    assert t.delta * (index - index) == 0;
  }

  // ----- live tables -----

  /** The tables that are alive, each under the number that stands for the object. A reference that does
      not keep its table alive is a number that may have died. */
  datatype Store = Store(live: map<nat, Table>, next: nat) {
    function Lock(reference: Option<nat>): (t: Option<Table>)
      ensures t.Some? <==> reference.Some? && reference.value in live
    {
      if reference.Some? && reference.value in live then Some(live[reference.value]) else None
    }

    /** What both sides do to a signal's own table when its metadata is seen: a linear signal's table is
        updated in place, or made; any other signal's table dies. */
    function Refreshed(own: Option<nat>, metadata: Metadata): (r: (Store, Option<nat>)) {
      if !metadata.rule.Linear? then
        (Store(if own.Some? then live - {own.value} else live, next), None)
      else if Lock(own).Some? then
        (Store(live[own.value := live[own.value].Updated(metadata)], next), own)
      else
        (Store(live[next := ZERO_TABLE.Updated(metadata)], next + 1), Some(next))
    }

    function Put(reference: nat, t: Table): Store {
      Store(live[reference := t], next)
    }

    function Dropped(own: Option<nat>): Store {
      Store(if own.Some? then live - {own.value} else live, next)
    }
  }

  // ----- the tables as the connection keeps them -----

  class LinearTable {
    var id: string
    var index: int64
    var value: int64
    var delta: int64
    var drivenIndex: int64

    function State(): Table
      reads this
    {
      Table(id, index, value, delta, drivenIndex)
    }

    constructor (metadata: Metadata)
      ensures State() == ZERO_TABLE.Updated(metadata)
    {
      id, index, value, delta, drivenIndex := "", 0, 0, 0, 0;
      new;
      Update(metadata);
    }

    method Update(metadata: Metadata)
      modifies this
      ensures State() == old(State()).Updated(metadata)
    {
      if metadata.tableId != "" {
        id := metadata.tableId;
      }
      value := metadata.start.GetOr(value);
      delta := metadata.delta.GetOr(delta);
      if metadata.valueIndex.Some? {
        index := metadata.valueIndex.value;
        drivenIndex := index;
      }
    }

    method UpdateByPayload(data: seq<byte>)
      requires |data| >= LINEAR_PAYLOAD_SIZE
      modifies this
      ensures State() == UpdatedByPayload(old(State()), data)
    {
      index := PayloadIndex(data);
      drivenIndex := index;
      value := PayloadValue(data);
    }

    function ValueAt(i: int64): int64
      reads this
    {
      State().ValueAt(i)
    }

    method Set(i: int64, v: int64)
      modifies this
      ensures State() == old(State()).Set(i, v)
    {
      index := i;
      value := v;
      drivenIndex := i;
    }

    method DriveTo(i: int64)
      modifies this
      ensures State() == old(State()).DriveTo(i)
    {
      drivenIndex := i;
    }
  }

  /** The live table objects of one side of a connection. */
  class Tables {
    var live: map<nat, LinearTable>
    var next: nat

    /** No two numbers stand for the same object. */
    ghost predicate Valid()
      reads this
    {
      forall h, k | h in live && k in live && h != k :: live[h] != live[k]
    }

    ghost function State(): Store
      reads this, live.Values
    {
      Store(map h | h in live :: live[h].State(), next)
    }

    constructor ()
      ensures Valid() && State() == Store(map[], 0) && live.Values == {}
    {
      live, next := map[], 0;
    }

    function Lock(reference: Option<nat>): (t: LinearTable?)
      reads this
      ensures t != null <==> reference.Some? && reference.value in live
      ensures t != null ==> t == live[reference.value]
    {
      if reference.Some? && reference.value in live then live[reference.value] else null
    }

    /** Refreshes a signal's own table from its metadata. */
    method Refresh(own: Option<nat>, metadata: Metadata) returns (table: Option<nat>)
      requires Valid()
      modifies this, live.Values
      ensures Valid() && (State(), table) == old(State()).Refreshed(own, metadata)
      ensures fresh(live.Values - old(live.Values))
    {
      if metadata.rule.Linear? {
        var t := Lock(own);
        if t != null {
          t.Update(metadata);
          OneChanged(own.value);
          table := own;
        } else {
          table := Some(next);
          t := new LinearTable(metadata);
          live := live[next := t];
          next := next + 1;
          assert State().live == old(State()).live[next - 1 := t.State()];
        }
      } else {
        Drop(own);
        table := None;
      }
    }

    method Drop(own: Option<nat>)
      requires Valid()
      modifies this
      ensures Valid() && State() == old(State()).Dropped(own) && live.Values <= old(live.Values)
    {
      if own.Some? {
        live := live - {own.value};
      }
    }

    /** Exactly one live table changed. */
    twostate lemma OneChanged(h: nat)
      requires h in live && live == old(live) && next == old(next) && Valid()
      requires forall k | k in live && k != h :: live[k].State() == old(live[k].State())
      ensures State() == old(State()).Put(h, live[h].State())
    {
    }

    method Set(h: nat, i: int64, v: int64)
      requires Valid() && h in live
      modifies live[h]
      ensures State() == old(State()).Put(h, old(State()).live[h].Set(i, v))
    {
      live[h].Set(i, v);
      OneChanged(h);
    }

    method DriveTo(h: nat, i: int64)
      requires Valid() && h in live
      modifies live[h]
      ensures State() == old(State()).Put(h, old(State()).live[h].DriveTo(i))
    {
      live[h].DriveTo(i);
      OneChanged(h);
    }

    method UpdateByPayload(h: nat, data: seq<byte>)
      requires Valid() && h in live && |data| >= LINEAR_PAYLOAD_SIZE
      modifies live[h]
      ensures State() == old(State()).Put(h, UpdatedByPayload(old(State()).live[h], data))
    {
      live[h].UpdateByPayload(data);
      OneChanged(h);
    }
  }
}
