/** What the receiving half of a connection makes of the messages about remote signals, and what the
    application there is told. */
module Receivers {
  import opened Bytes
  import opened LinearTables
  import opened Publishers

  datatype Remote = Remote(
    hidden: bool,
    signo: nat,
    subscribed: bool,
    table: Option<nat>,
    domainTable: Option<nat>,
    isExplicit: bool,
    sampleSize: nat,
    binary: bool,
    valueIndex: int64)

  /** The events about a signal's availability and subscription. */
  datatype Announcement = Announced(id: string) | Withdrawn(id: string) | Subscribed(id: string) | Unsubscribed(id: string)

  /** One data event: the time, the number of samples and the bytes given to the application. */
  datatype Delivery = Delivery(id: string, time: int64, count: nat, data: seq<byte>)

  /** The known signals by id, and the ids of the numbered ones; and everything told so far. */
  datatype Receiver = Receiver(
    signals: map<string, Remote>,
    bySigno: map<nat, string>,
    store: Store,
    events: seq<Announcement>,
    delivered: seq<Delivery>)

  const NOBODY := Receiver(map[], map[], Store(map[], 0), [], [])

  /** The order of the ids in the container. */
  predicate Less(a: string, b: string) {
    if b == "" then false
    else if a == "" then true
    else a[0] < b[0] || (a[0] == b[0] && Less(a[1..], b[1..]))
  }

  lemma LessIrreflexive(a: string)
    ensures !Less(a, a)
  {
  }

  /** It is the order of a dictionary: by the first letters that differ, and what is shorter comes first. */
  lemma DictionaryOrder(c: char, d: char, a: string, b: string)
    ensures Less([c] + a, [d] + b) <==> c < d || (c == d && Less(a, b))
    ensures b != "" ==> Less("", b)
    ensures !Less(a, "")
  {
  }

  lemma {:induction false} LessTotal(a: string, b: string)
    requires a != b
    ensures Less(a, b) <==> !Less(b, a)
  {
    if a != "" && b != "" && a[0] == b[0] {
      assert a == [a[0]] + a[1..] && b == [b[0]] + b[1..];
      LessTotal(a[1..], b[1..]);
    }
  }

  lemma {:induction false} LessTransitive(a: string, b: string, c: string)
    requires Less(a, b) && Less(b, c)
    ensures Less(a, c)
  {
    if a != "" && a[0] == b[0] && b[0] == c[0] {
      LessTransitive(a[1..], b[1..], c[1..]);
    }
  }

  // ----- the container -----

  function Fresh(hidden: bool): Remote {
    Remote(hidden, 0, false, None, None, false, 0, false, 0)
  }

  function AddRemote(r: Receiver, id: string, hidden: bool): Receiver {
    if id in r.signals then r
    else r.(signals := r.signals[id := Fresh(hidden)])
  }

  predicate HasTable(r: Receiver, id: string, tableId: string) {
    id in r.signals && r.store.Lock(r.signals[id].table).Some?
    && tableId != "" && r.store.Lock(r.signals[id].table).value.id == tableId
  }

  /** The first signal, in the order of the ids, whose table has the given name. */
  ghost predicate IsFirstTable(r: Receiver, id: string, tableId: string) {
    HasTable(r, id, tableId) && forall other | HasTable(r, other, tableId) :: !Less(other, id)
  }

  ghost function FindTable(r: Receiver, tableId: string): (id: Option<string>)
    ensures id.Some? ==> HasTable(r, id.value, tableId)
  {
    if exists id :: IsFirstTable(r, id, tableId) then
      var id :| IsFirstTable(r, id, tableId);
      Some(id)
    else None
  }

  /** If any signal has a table of that name, the one found comes before all others that do. */
  lemma FirstFound(r: Receiver, tableId: string)
    ensures (exists id :: HasTable(r, id, tableId)) <==> FindTable(r, tableId).Some?
    ensures var found := FindTable(r, tableId);
            found.Some? ==> forall other | HasTable(r, other, tableId) && other != found.value :: Less(found.value, other)
  {
    var named := set id | id in r.signals && HasTable(r, id, tableId);
    assert forall id | HasTable(r, id, tableId) :: id in named;
    if named != {} {
      var least := LeastOf(named);
      LessIrreflexive(least);
      forall other | HasTable(r, other, tableId) ensures !Less(other, least) {
        if other != least {
          LessTotal(other, least);
        }
      }
      assert IsFirstTable(r, least, tableId);
    }
    var found := FindTable(r, tableId);
    if found.Some? {
      assert IsFirstTable(r, found.value, tableId);
      forall other | HasTable(r, other, tableId) && other != found.value ensures Less(found.value, other) {
        LessTotal(other, found.value);
      }
    }
  }

  lemma {:induction false} LeastOf(ids: set<string>) returns (least: string)
    requires ids != {}
    ensures least in ids && forall id | id in ids && id != least :: Less(least, id)
    decreases |ids|
  {
    least :| least in ids;
    var rest := ids - {least};
    if rest != {} {
      var other := LeastOf(rest);
      LessTotal(least, other);
      if Less(other, least) {
        least := other;
      } else {
        forall id | id in rest && id != other ensures Less(least, id) {
          LessTransitive(least, other, id);
        }
      }
    }
  }

  function Find(r: Receiver, signo: nat): (id: Option<string>)
    ensures id.Some? ==> id.value in r.signals
  {
    if signo in r.bySigno && r.bySigno[signo] in r.signals then Some(r.bySigno[signo]) else None
  }

  // ----- signal events -----

  function HandleAvailable(r: Receiver, ids: seq<string>): Receiver {
    if ids == [] then r else Announce(HandleAvailable(r, ids[..|ids| - 1]), ids[|ids| - 1])
  }

  /** Makes one signal known and announces it, unless that was done already. */
  function Announce(r: Receiver, id: string): Receiver {
    if id in r.signals && !r.signals[id].hidden then r
    else
      var q := AddRemote(r, id, false);
      q.(signals := q.signals[id := q.signals[id].(hidden := false)], events := r.events + [Announced(id)])
  }

  function HandleUnavailable(r: Receiver, ids: seq<string>): Receiver {
    if ids == [] then r else Withdraw(HandleUnavailable(r, ids[..|ids| - 1]), ids[|ids| - 1])
  }

  /** The events of a signal that goes away. */
  function Farewell(id: string, s: Remote): seq<Announcement> {
    (if s.subscribed then [Unsubscribed(id)] else []) + if s.hidden then [] else [Withdrawn(id)]
  }

  function Withdraw(r: Receiver, id: string): Receiver {
    if id !in r.signals then r
    else
      var s := r.signals[id];
      r.(signals := r.signals - {id}, bySigno := r.bySigno - {s.signo}, events := r.events + Farewell(id, s))
  }

  function HandleSubscribe(r: Receiver, signo: nat, id: string): Receiver {
    if id == "" then r
    else
      var q := AddRemote(r, id, true);
      var s := q.signals[id].(signo := signo);
      q.(signals := q.signals[id := s.(subscribed := true)],
         bySigno := q.bySigno[signo := id],
         events := if s.subscribed then q.events else q.events + [Subscribed(id)])
  }

  function HandleUnsubscribe(r: Receiver, signo: nat): Receiver {
    var id := Find(r, signo);
    var q :=
      if id.Some? && r.signals[id.value].subscribed then
        r.(signals := r.signals[id.value := r.signals[id.value].(subscribed := false)],
           events := r.events + [Unsubscribed(id.value)])
      else r;
    q.(bySigno := q.bySigno - {signo})
  }

  /** The number leads nowhere from then on. */
  lemma NumberForgotten(r: Receiver, signo: nat)
    ensures Find(HandleUnsubscribe(r, signo), signo) == None
  {
  }

  /** Takes over a signal's metadata, and brings its own table up to date. */
  function TakeMetadata(r: Receiver, id: string, metadata: Metadata): (q: Receiver)
    requires id in r.signals
    ensures q.signals.Keys == r.signals.Keys
  {
    var s := r.signals[id];
    var (store, table) := r.store.Refreshed(s.table, metadata);
    var s' := s.(
      sampleSize := metadata.sampleSize,
      binary := metadata.binary,
      table := table,
      isExplicit := metadata.rule.Explicit?,
      valueIndex := metadata.valueIndex.GetOr(s.valueIndex));
    r.(signals := r.signals[id := s'], store := store)
  }

  /** Binds a signal to the table its metadata names, which must be another signal's. */
  ghost function Bind(r: Receiver, id: string, metadata: Metadata): Receiver
    requires id in r.signals
  {
    var sought := if Foreign(id, metadata) then FindTable(r, metadata.tableId) else None;
    var domain := if sought.Some? && sought.value != id then r.signals[sought.value].table else None;
    r.(signals := r.signals[id := r.signals[id].(domainTable := domain)])
  }

  ghost function HandleSignal(r: Receiver, signo: nat, metadata: Metadata): Receiver {
    var id := Find(r, signo);
    if id.None? then r else Bind(TakeMetadata(r, id.value, metadata), id.value, metadata)
  }

  // ----- data -----

  /** The samples in a block of an explicit-rule signal. */
  function SampleCount(sampleSize: nat, binary: bool, size: nat): nat {
    if sampleSize != 0 then size / sampleSize else if binary then 1 else 0
  }

  /** Nothing is delivered but a block of a subscribed signal, and that once, under its id. */
  lemma DeliveredOnce(r: Receiver, signo: nat, data: seq<byte>)
    ensures var d, found := HandleBlock(r, signo, data).delivered, Find(r, signo);
            if found.Some? && r.signals[found.value].subscribed then
              |d| == |r.delivered| + 1 && d[..|r.delivered|] == r.delivered && d[|d| - 1].id == found.value
            else HandleBlock(r, signo, data) == r
  {
  }

  /** A block of a domain sets its table if it is long enough for an index and a value, whatever follows them, and
      otherwise leaves it alone. */
  lemma DomainPacketSets(r: Receiver, id: string, data: seq<byte>)
    requires id in r.signals && r.store.Lock(r.signals[id].table).Some?
    ensures var h, q := r.signals[id].table.value, TakeDomainPacket(r, id, data);
            && (forall index: int64, value: int64, tail: seq<byte> | data == LinearPayload(index, value) + tail ::
                  q.store.live == r.store.live[h := r.store.live[h].Set(index, value)])
            && (|data| < 16 ==> q.store == r.store)
  {
    forall index: int64, value: int64, tail: seq<byte> | data == LinearPayload(index, value) + tail
      ensures TakeDomainPacket(r, id, data).store.live ==
              r.store.live[r.signals[id].table.value := r.store.live[r.signals[id].table.value].Set(index, value)]
    {
      PayloadSets(r.store.live[r.signals[id].table.value], index, value, tail);
    }
  }

  /** Metadata without a value index leaves the sample index where it is. */
  lemma IndexKept(r: Receiver, id: string, metadata: Metadata)
    requires id in r.signals
    ensures TakeMetadata(r, id, metadata).signals[id].valueIndex ==
            if metadata.valueIndex.Some? then metadata.valueIndex.value else r.signals[id].valueIndex
  {
  }

  /** How many samples a block holds: as many as fit its bytes, one of variable size, or none at all. */
  predicate Holds(sampleSize: nat, binary: bool, size: nat, count: nat) {
    if sampleSize > 0 then count * sampleSize <= size < (count + 1) * sampleSize
    else if binary then count == 1
    else count == 0
  }

  /** The receiver counts exactly those. */
  lemma SampleCountExactly(sampleSize: nat, binary: bool, size: nat, count: nat)
    ensures count == SampleCount(sampleSize, binary, size) <==> Holds(sampleSize, binary, size, count)
  {
    if sampleSize > 0 {
      var n := size / sampleSize;
      assert n * sampleSize <= size < (n + 1) * sampleSize;
      SameMultiple(sampleSize, size, n, count);
    }
  }

  lemma SameMultiple(sampleSize: nat, size: nat, a: nat, b: nat)
    requires a * sampleSize <= size < (a + 1) * sampleSize
    ensures a == b <==> b * sampleSize <= size < (b + 1) * sampleSize
  {
    MultiplesOrdered(sampleSize, a + 1, b);
    MultiplesOrdered(sampleSize, b + 1, a);
  }

  lemma MultiplesOrdered(n: nat, a: nat, b: nat)
    ensures a <= b ==> a * n <= b * n
  {
  }

  /** Samples of one size, one after the other, are as many as there are. */
  lemma {:induction false} SamplesHeld(samples: seq<seq<byte>>, sampleSize: nat, binary: bool)
    requires sampleSize > 0 && forall s | s in samples :: |s| == sampleSize
    ensures Holds(sampleSize, binary, |Concat(samples)|, |samples|)
    ensures |Concat(samples)| == |samples| * sampleSize
  {
    if samples != [] {
      assert samples[0] in samples;
      SamplesHeld(samples[1..], sampleSize, binary);
      OnceMore(|samples| - 1, sampleSize);
    }
    OnceMore(|samples|, sampleSize);
  }

  lemma OnceMore(n: nat, k: nat)
    ensures (n + 1) * k == n * k + k
  {
  }

  /** Whatever the state, a block of samples of an explicit-rule signal is delivered with their number, and its
      index, and the table it is bound to, move on by as many. */
  lemma SamplesCounted(r: Receiver, signo: nat, samples: seq<seq<byte>>)
    requires Find(r, signo).Some?
    requires var s := r.signals[Find(r, signo).value];
             && s.subscribed && s.isExplicit && r.store.Lock(s.table).None?
             && s.sampleSize > 0 && forall x | x in samples :: |x| == s.sampleSize
    ensures var id, r' := Find(r, signo).value, HandleBlock(r, signo, Concat(samples));
            var s, d := r.signals[id], r'.delivered;
            && |d| == |r.delivered| + 1 && d[..|r.delivered|] == r.delivered
            && d[|d| - 1].id == id && d[|d| - 1].count == |samples| && d[|d| - 1].data == Concat(samples)
            && id in r'.signals && r'.signals[id].valueIndex == Wrap(s.valueIndex + |samples|)
            && (r.store.Lock(s.domainTable).Some? ==>
                  && r'.store.Lock(s.domainTable).Some?
                  && r'.store.Lock(s.domainTable).value.driven == Wrap(s.valueIndex + |samples|))
  {
    var s := r.signals[Find(r, signo).value];
    SamplesHeld(samples, s.sampleSize, s.binary);
    SampleCountExactly(s.sampleSize, s.binary, |Concat(samples)|, |samples|);
    hide SampleCount, Concat, Wrap, Table.ValueAt;
  }

  function HandleBlock(r: Receiver, signo: nat, data: seq<byte>): Receiver {
    var id := Find(r, signo);
    if id.None? || !r.signals[id.value].subscribed then r
    else
      var s := r.signals[id.value];
      if r.store.Lock(s.table).Some? then TakeDomainPacket(r, id.value, data)
      else if s.isExplicit then TakeExplicit(r, id.value, data)
      else TakeConstant(r, id.value, data)
  }

  function TakeDomainPacket(r: Receiver, id: string, data: seq<byte>): Receiver
    requires id in r.signals && r.store.Lock(r.signals[id].table).Some?
  {
    var h := r.signals[id].table.value;
    var store := if |data| >= LINEAR_PAYLOAD_SIZE then r.store.Put(h, UpdatedByPayload(r.store.live[h], data)) else r.store;
    r.(store := store, delivered := r.delivered + [Delivery(id, 0, 0, data)])
  }

  function TakeExplicit(r: Receiver, id: string, data: seq<byte>): Receiver
    requires id in r.signals
  {
    var s := r.signals[id];
    var count := SampleCount(s.sampleSize, s.binary, |data|);
    var domain := r.store.Lock(s.domainTable);
    var time := if domain.Some? then domain.value.ValueAt(s.valueIndex) else 0;
    var index := Wrap(s.valueIndex + count);
    r.(signals := r.signals[id := s.(valueIndex := index)],
       store := if domain.Some? then r.store.Put(s.domainTable.value, domain.value.DriveTo(index)) else r.store,
       delivered := r.delivered + [Delivery(id, time, count, data)])
  }

  function TakeConstant(r: Receiver, id: string, data: seq<byte>): Receiver
    requires id in r.signals
  {
    var s := r.signals[id];
    var domain := r.store.Lock(s.domainTable);
    var time := if domain.Some? then domain.value.DrivenValue() else 0;
    r.(delivered := r.delivered + [ConstantDelivery(id, time, s.sampleSize, data)])
  }

  /** One value at most is taken from a block of any other signal. */
  function ConstantDelivery(id: string, time: int64, sampleSize: nat, data: seq<byte>): Delivery {
    if |data| >= sampleSize then Delivery(id, time, 1, data[..sampleSize]) else Delivery(id, time, 0, data)
  }

  // ----- runs -----

  ghost function Handle(r: Receiver, m: Message): Receiver {
    match m
    case Available(ids) => HandleAvailable(r, ids)
    case Unavailable(ids) => HandleUnavailable(r, ids)
    case Subscribe(signo, id) => HandleSubscribe(r, signo, id)
    case Unsubscribe(signo, id) => HandleUnsubscribe(r, signo)
    case Signal(signo, metadata) => HandleSignal(r, signo, metadata)
    case Block(signo, bytes) => HandleBlock(r, signo, bytes)
  }

  /** The receiver after it has handled some messages. */
  ghost function HandleAll(r: Receiver, ms: seq<Message>): Receiver {
    if ms == [] then r else Handle(HandleAll(r, ms[..|ms| - 1]), ms[|ms| - 1])
  }

  lemma {:induction false} HandleAllAppend(r: Receiver, a: seq<Message>, b: seq<Message>)
    ensures HandleAll(r, a + b) == HandleAll(HandleAll(r, a), b)
  {
    hide Handle;
    if b == [] {
      assert a + b == a;
    } else {
      assert (a + b)[..|a + b| - 1] == a + b[..|b| - 1];
      HandleAllAppend(r, a, b[..|b| - 1]);
    }
  }

  /** The connection closes: every signal goes away, all of them losing their subscriptions first.
      `ids` is the order of the container, ascending. */
  function Close(r: Receiver, ids: seq<string>): Receiver {
    Receiver(map[], map[], r.store, r.events + Detached(r, ids) + AllWithdrawn(r, ids), r.delivered)
  }

  function Detached(r: Receiver, ids: seq<string>): seq<Announcement> {
    if ids == [] then []
    else
      var id := ids[|ids| - 1];
      Detached(r, ids[..|ids| - 1]) + if id in r.signals && r.signals[id].subscribed then [Unsubscribed(id)] else []
  }

  function AllWithdrawn(r: Receiver, ids: seq<string>): seq<Announcement> {
    if ids == [] then []
    else
      var id := ids[|ids| - 1];
      AllWithdrawn(r, ids[..|ids| - 1]) + if id in r.signals && !r.signals[id].hidden then [Withdrawn(id)] else []
  }
}
