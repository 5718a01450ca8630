/** Runs outside what the agreement results ask for, and what goes wrong in them. */
module Counterexamples {
  import opened Bytes
  import opened LinearTables
  import opened Publishers
  import opened Receivers
  import R = References
  import B = Bindings
  import T = TimeAgreement

  /** A domain that starts at 0 and grows by 1, a signal with one-byte samples that uses it, and the
      same domain before it was made one. */
  const LINE := Metadata(Linear, Some(0), Some(1), Some(0), "d", 8, false)
  const VALUE := Metadata(Explicit, None, None, Some(0), "d", 1, false)
  const BEFORE := Metadata(Explicit, None, None, Some(0), "d", 1, false)

  /** The domain and the signal that uses it, registered, with nobody subscribed. */
  lemma TwoRegistered()
    ensures var p := AddLocal(AddLocal(START, "d", LINE).pub, "v", VALUE).pub;
            && p.locals.Keys == {"d", "v"}
            && p.locals["d"].metadata == LINE && !p.locals["d"].Subscribed() && !p.locals["d"].connected
            && p.locals["v"].metadata == VALUE && !p.locals["v"].Subscribed()
  {
    var p := AddLocal(START, "d", LINE).pub;
    assert p.locals.Keys == {"d"} && p.locals["d"].metadata == LINE;
    assert !p.locals["d"].Subscribed() && !p.locals["d"].connected;
  }

  lemma CountWraps(p: Publisher)
    requires "d" in p.locals && "v" in p.locals && !p.locals["v"].Subscribed()
    requires !p.locals["d"].Subscribed() && !p.locals["d"].connected && p.locals["v"].metadata == VALUE
    ensures var d := UnsubscribeLocal(p, "v", true).pub.locals;
            "d" in d && d["d"].implicitly == 0xFFFF_FFFF && d["d"].Subscribed() && !d["d"].connected
  {
    UnsubscribeStep(p, "v", true);
    var c := Disconnect(Uncounting(p, "v", true), "v").pub;
    assert c.locals["d"] == p.locals["d"];
    assert !Uncounting(p, "v", true).locals["v"].Subscribed() && Foreign("v", VALUE);
    hide UnsubscribeLocal, Disconnect, Uncounting;
    UnsubscribeStep(c, "d", false);
    WrappedD(c);
  }

  lemma WrappedD(p: Publisher)
    requires "d" in p.locals && !p.locals["d"].Subscribed() && !p.locals["d"].connected
    ensures var d := Uncounting(p, "d", false).locals;
            "d" in d && d["d"].implicitly == 0xFFFF_FFFF && d["d"].Subscribed() && !d["d"].connected
  {
  }

  /** Unsubscribing a signal that is not subscribed takes its domain's count below zero: it counts as
      subscribed from then on, without being forwarded. */
  lemma UnfoundedUnsubscribe()
    ensures var d := Run([] + [OpAdd("d", LINE)] + [OpAdd("v", VALUE)] + [OpUnsubscribe("v")]).pub.locals;
            "d" in d && d["d"].implicitly == 0xFFFF_FFFF && d["d"].Subscribed() && !d["d"].connected
  {
    RunNothing();
    RunNext([], OpAdd("d", LINE));
    RunNext([] + [OpAdd("d", LINE)], OpAdd("v", VALUE));
    RunNext([] + [OpAdd("d", LINE)] + [OpAdd("v", VALUE)], OpUnsubscribe("v"));
    TwoRegistered();
    hide Run, AddLocal, UnsubscribeLocal;
    CountWraps(AddLocal(AddLocal(START, "d", LINE).pub, "v", VALUE).pub);
  }

  // ----- an ending between a withdrawal and the next announcement -----

  const HIDDEN: Remote := Fresh(true)

  /** A signal that was withdrawn may be subscribed without being announced again, and its subscription then
      ended: between an unavailable event and the next available one there can be an unsubscribed event. */
  lemma HiddenSubscriptionEnds()
    ensures HandleAll(NOBODY, [] + [Available(["x"])] + [Unavailable(["x"])] + [Message.Subscribe(1, "x")]
                              + [Message.Unsubscribe(1, "x")]).events
         == [Announced("x"), Withdrawn("x"), Announcement.Subscribed("x"), Announcement.Unsubscribed("x")]
  {
    var a := [] + [Available(["x"])];
    var b := a + [Unavailable(["x"])];
    var c := b + [Message.Subscribe(1, "x")];
    HandleNext([], Available(["x"]));
    HandleNext(a, Unavailable(["x"]));
    HandleNext(b, Message.Subscribe(1, "x"));
    HandleNext(c, Message.Unsubscribe(1, "x"));
    hide HandleAll;
    assert ["x"][..0] == [];
    assert HandleAll(NOBODY, a).events == [Announced("x")];
    assert HandleAll(NOBODY, b).signals == map[] && HandleAll(NOBODY, b).events == [Announced("x"), Withdrawn("x")];
    assert HandleAll(NOBODY, c).signals == map["x" := HIDDEN.(signo := 1, subscribed := true)];
    assert Find(HandleAll(NOBODY, c), 1) == Some("x");
  }

  // ----- a signal that becomes a domain after it was published on -----

  const EARLY: seq<byte> := [0, 0, 0]
  const LATE: seq<byte> := [7]

  function D(metadata: Metadata, explicitly: bool, implicitly: uint32, connected: bool, valueIndex: int64): Local {
    Local(1, metadata, explicitly, implicitly, connected,
          if metadata.rule.Linear? && connected then Some(0) else None, valueIndex, 0, None,
          !(metadata.rule.Linear? && connected))
  }

  function V(connected: bool, valueIndex: int64): Local {
    Local(2, VALUE, connected, 0, connected, None, valueIndex, 1, if connected then Some(0) else None, true)
  }

  function JustD(d: Local): Publisher {
    Publisher(map["d" := d], Store(map[], 0), 2, false)
  }

  function Both(d: Local, v: Local, store: Store): Publisher {
    Publisher(map["d" := d, "v" := v], store, 3, false)
  }

  const NO_TABLES := Store(map[], 0)

  const ONE_TABLE := Store(map[0 := Table("d", 0, 0, 1, 0)], 1)

  lemma FirstSteps()
    ensures Apply(START, OpAdd("d", BEFORE)) == Step(JustD(D(BEFORE, false, 0, false, 0)), [])
    ensures Apply(JustD(D(BEFORE, false, 0, false, 0)), OpSubscribe("d"))
         == Step(JustD(D(BEFORE, true, 0, true, 0)), [Message.Subscribe(1, "d"), Signal(1, BEFORE)])
  {
  }

  lemma NextSteps()
    ensures Apply(JustD(D(BEFORE, true, 0, true, 0)), OpPublish("d", 0, 3, EARLY))
         == Step(JustD(D(BEFORE, true, 0, true, 3)), [Block(1, EARLY)])
    ensures Apply(JustD(D(BEFORE, true, 0, true, 3)), OpUnsubscribe("d"))
         == Step(JustD(D(BEFORE, false, 0, false, 3)), [Message.Unsubscribe(1, "d")])
    ensures Apply(JustD(D(BEFORE, false, 0, false, 3)), OpSetMetadata("d", LINE))
         == Step(JustD(D(LINE, false, 0, false, 3)), [])
  {
  }

  lemma AddStep()
    ensures Apply(JustD(D(LINE, false, 0, false, 3)), OpAdd("v", VALUE))
         == Step(Both(D(LINE, false, 0, false, 3), V(false, 0), NO_TABLES), [])
  {
  }

  lemma ConnectD()
    ensures Connect(Both(D(LINE, false, 1, false, 3), V(false, 0).(explicitly := true), NO_TABLES), "d")
         == Step(Both(D(LINE, false, 1, true, 3), V(false, 0).(explicitly := true), ONE_TABLE),
                 [Message.Subscribe(1, "d"), Signal(1, LINE.(valueIndex := Some(3)))])
  {
    var p := Both(D(LINE, false, 1, false, 3), V(false, 0).(explicitly := true), NO_TABLES);
    assert NO_TABLES.Refreshed(None, LINE) == (ONE_TABLE, Some(0));
    hide Store.Refreshed;
    assert Refresh(p, "d").locals == map["d" := D(LINE, false, 1, true, 3).(connected := false), "v" := p.locals["v"]];
  }

  lemma ConnectV()
    ensures Connect(Both(D(LINE, false, 1, true, 3), V(false, 0).(explicitly := true), ONE_TABLE), "v")
         == Step(Both(D(LINE, false, 1, true, 3), V(true, 0), ONE_TABLE), [Message.Subscribe(2, "v"), Signal(2, VALUE)])
  {
    var p := Both(D(LINE, false, 1, true, 3), V(false, 0).(explicitly := true), ONE_TABLE);
    assert ONE_TABLE.Refreshed(None, VALUE) == (ONE_TABLE, None);
    hide Store.Refreshed;
    assert Refresh(p, "v").locals == map["d" := p.locals["d"], "v" := V(true, 0).(connected := false)];
  }

  lemma CountV()
    ensures var p := Both(D(LINE, false, 0, false, 3), V(false, 0), NO_TABLES);
            && "v" in p.locals && !p.locals["v"].Subscribed()
            && Foreign("v", p.locals["v"].metadata) && p.locals["v"].metadata.tableId == "d"
            && Counting(p, "v", true) == Both(D(LINE, false, 0, false, 3), V(false, 0).(explicitly := true), NO_TABLES)
  {
  }

  lemma CountD()
    ensures var p := Both(D(LINE, false, 0, false, 3), V(false, 0).(explicitly := true), NO_TABLES);
            && "d" in p.locals && !p.locals["d"].Subscribed()
            && Counting(p, "d", false) == Both(D(LINE, false, 1, false, 3), V(false, 0).(explicitly := true), NO_TABLES)
  {
  }

  lemma SubscribeVStep()
    ensures var o := SubscribeLocal(Both(D(LINE, false, 0, false, 3), V(false, 0), NO_TABLES), "v", true);
            && o.pub == Both(D(LINE, false, 1, true, 3), V(true, 0), ONE_TABLE)
            && o.out == [Message.Subscribe(1, "d"), Signal(1, LINE.(valueIndex := Some(3)))]
                        + [Message.Subscribe(2, "v"), Signal(2, VALUE)]
  {
    hide *;
    CountV();
    CountD();
    SubscribeStep(Both(D(LINE, false, 0, false, 3), V(false, 0), NO_TABLES), "v", true);
    SubscribeStep(Both(D(LINE, false, 0, false, 3), V(false, 0).(explicitly := true), NO_TABLES), "d", false);
    ConnectD();
    ConnectV();
  }

  lemma OnTheLine()
    ensures var p := Both(D(LINE, false, 1, true, 3), V(true, 0), ONE_TABLE);
            "v" in p.locals && p.locals["v"].connected && p.locals["v"].signo == 2 && !OffTheLine(p, "v", 0)
  {
    var p := Both(D(LINE, false, 1, true, 3), V(true, 0), ONE_TABLE);
    assert Domain(p, "v") == Some(Table("d", 0, 0, 1, 0));
  }

  lemma PublishVStep()
    ensures Publish(Both(D(LINE, false, 1, true, 3), V(true, 0), ONE_TABLE), "v", 0, 1, LATE).out == [Block(2, LATE)]
  {
    OnTheLine();
    hide Advance, OffTheLine, Both, V, D;
  }

  lemma RunNothing()
    ensures Run([]) == Step(START, [])
  {
  }

  /** Three samples are published on "d" before it is made a domain while nobody is subscribed; then "v",
      which uses it, publishes one sample at time 0. */
  predicate IsLateDomain(ops: seq<Op>) {
    ops == [] + [OpAdd("d", BEFORE)] + [OpSubscribe("d")] + [OpPublish("d", 0, 3, EARLY)] + [OpUnsubscribe("d")]
           + [OpSetMetadata("d", LINE)] + [OpAdd("v", VALUE)] + [OpSubscribe("v")] + [OpPublish("v", 0, 1, LATE)]
  }

  /** What is sent in the whole run. */
  predicate IsSent(out: seq<Message>) {
    out == [] + [Message.Subscribe(1, "d")] + [Signal(1, BEFORE)] + [Block(1, EARLY)] + [Message.Unsubscribe(1, "d")]
           + [Message.Subscribe(1, "d")] + [Signal(1, LINE.(valueIndex := Some(3)))]
           + [Message.Subscribe(2, "v")] + [Signal(2, VALUE)] + [Block(2, LATE)]
  }

  lemma LateDomainSends(ops: seq<Op>)
    requires IsLateDomain(ops)
    ensures IsSent(Run(ops).out)
  {
    hide *;
    LateDomainIs(ops, Run(ops).out);
    FirstSteps();
    NextSteps();
    AddStep();
    SubscribeVStep();
    PublishVStep();
    ApplySubscribe(Both(D(LINE, false, 0, false, 3), V(false, 0), NO_TABLES), "v");
    ApplyPublish(Both(D(LINE, false, 1, true, 3), V(true, 0), ONE_TABLE), "v", 0, 1, LATE);
    RunNothing();
    var a: seq<Op> := [] + [OpAdd("d", BEFORE)];
    RunNext([], OpAdd("d", BEFORE));
    var b := a + [OpSubscribe("d")];
    RunNext(a, OpSubscribe("d"));
    var c := b + [OpPublish("d", 0, 3, EARLY)];
    RunNext(b, OpPublish("d", 0, 3, EARLY));
    var d := c + [OpUnsubscribe("d")];
    RunNext(c, OpUnsubscribe("d"));
    var e := d + [OpSetMetadata("d", LINE)];
    RunNext(d, OpSetMetadata("d", LINE));
    var f := e + [OpAdd("v", VALUE)];
    RunNext(e, OpAdd("v", VALUE));
    var g := f + [OpSubscribe("v")];
    RunNext(f, OpSubscribe("v"));
    RunNext(g, OpPublish("v", 0, 1, LATE));
  }

  lemma LateDomainIs(ops: seq<Op>, out: seq<Message>)
    requires IsLateDomain(ops)
    ensures ops == [] + [OpAdd("d", BEFORE)] + [OpSubscribe("d")] + [OpPublish("d", 0, 3, EARLY)] + [OpUnsubscribe("d")]
                   + [OpSetMetadata("d", LINE)] + [OpAdd("v", VALUE)] + [OpSubscribe("v")] + [OpPublish("v", 0, 1, LATE)]
    ensures out == [] + [] + [Message.Subscribe(1, "d"), Signal(1, BEFORE)] + [Block(1, EARLY)] + [Message.Unsubscribe(1, "d")]
                   + [] + [] + ([Message.Subscribe(1, "d"), Signal(1, LINE.(valueIndex := Some(3)))]
                                + [Message.Subscribe(2, "v"), Signal(2, VALUE)]) + [Block(2, LATE)]
            ==> IsSent(out)
  {
  }

  // ----- what the receiver makes of it -----

  function RemoteD(subscribed: bool, metadata: Option<Metadata>, valueIndex: int64): Remote {
    if metadata.None? then Remote(true, 1, subscribed, None, None, false, 0, false, valueIndex)
    else Remote(true, 1, subscribed, if metadata.value.rule.Linear? then Some(0) else None, None,
                metadata.value.rule.Explicit?, metadata.value.sampleSize, metadata.value.binary, valueIndex)
  }

  function RemoteV(metadata: Option<Metadata>): Remote {
    if metadata.None? then Remote(true, 2, true, None, None, false, 0, false, 0)
    else Remote(true, 2, true, None, Some(0), true, 1, false, 0)
  }

  function OneKnown(d: Remote, numbered: bool, store: Store, events: seq<Announcement>, delivered: seq<Delivery>): Receiver {
    Receiver(map["d" := d], if numbered then map[1 := "d"] else map[], store, events, delivered)
  }

  function BothKnown(d: Remote, v: Remote, events: seq<Announcement>, delivered: seq<Delivery>): Receiver {
    Receiver(map["d" := d, "v" := v], map[1 := "d", 2 := "v"], LATE_TABLE, events, delivered)
  }

  /** The receiver's table: it is three samples ahead of the publisher's. */
  const LATE_TABLE := Store(map[0 := Table("d", 3, 0, 1, 3)], 1)

  lemma HandledBefore(x: seq<Announcement>)
    ensures Handle(NOBODY, Message.Subscribe(1, "d"))
         == OneKnown(RemoteD(true, None, 0), true, NO_TABLES, [Announcement.Subscribed("d")], [])
    ensures Handle(OneKnown(RemoteD(true, None, 0), true, NO_TABLES, x, []), Signal(1, BEFORE))
         == OneKnown(RemoteD(true, Some(BEFORE), 0), true, NO_TABLES, x, [])
    ensures Handle(OneKnown(RemoteD(true, Some(BEFORE), 0), true, NO_TABLES, x, []), Block(1, EARLY))
         == OneKnown(RemoteD(true, Some(BEFORE), 3), true, NO_TABLES, x, [Delivery("d", 0, 3, EARLY)])
  {
  }

  lemma HandledAgain(x: seq<Announcement>, y: seq<Delivery>)
    ensures Handle(OneKnown(RemoteD(true, Some(BEFORE), 3), true, NO_TABLES, x, y), Message.Unsubscribe(1, "d"))
         == OneKnown(RemoteD(false, Some(BEFORE), 3), false, NO_TABLES, x + [Announcement.Unsubscribed("d")], y)
    ensures Handle(OneKnown(RemoteD(false, Some(BEFORE), 3), false, NO_TABLES, x, y), Message.Subscribe(1, "d"))
         == OneKnown(RemoteD(true, Some(BEFORE), 3), true, NO_TABLES, x + [Announcement.Subscribed("d")], y)
    ensures Handle(OneKnown(RemoteD(true, Some(BEFORE), 3), true, NO_TABLES, x, y), Signal(1, LINE.(valueIndex := Some(3))))
         == OneKnown(RemoteD(true, Some(LINE), 3), true, LATE_TABLE, x, y)
  {
  }

  lemma HandledV(x: seq<Announcement>, y: seq<Delivery>)
    ensures Handle(OneKnown(RemoteD(true, Some(LINE), 3), true, LATE_TABLE, x, y), Message.Subscribe(2, "v"))
         == BothKnown(RemoteD(true, Some(LINE), 3), RemoteV(None), x + [Announcement.Subscribed("v")], y)
  {
  }

  lemma BoundV(x: seq<Announcement>, y: seq<Delivery>)
    ensures Handle(BothKnown(RemoteD(true, Some(LINE), 3), RemoteV(None), x, y), Signal(2, VALUE))
         == BothKnown(RemoteD(true, Some(LINE), 3), RemoteV(Some(VALUE)), x, y)
  {
    var r := BothKnown(RemoteD(true, Some(LINE), 3), RemoteV(None), x, y);
    var q := BothKnown(RemoteD(true, Some(LINE), 3), RemoteV(Some(VALUE)).(domainTable := None), x, y);
    assert Find(r, 2) == Some("v");
    TakenV(x, y);
    assert HasTable(q, "d", "d") && forall id :: HasTable(q, id, "d") ==> id == "d";
    LessIrreflexive("d");
    assert IsFirstTable(q, "d", "d");
    assert FindTable(q, "d") == Some("d");
    hide FindTable, TakeMetadata, HasTable, IsFirstTable;
    assert Bind(q, "v", VALUE).signals == map["d" := RemoteD(true, Some(LINE), 3), "v" := RemoteV(Some(VALUE))];
  }

  lemma TakenV(x: seq<Announcement>, y: seq<Delivery>)
    ensures var r := BothKnown(RemoteD(true, Some(LINE), 3), RemoteV(None), x, y);
            "v" in r.signals && TakeMetadata(r, "v", VALUE)
            == BothKnown(RemoteD(true, Some(LINE), 3), RemoteV(Some(VALUE)).(domainTable := None), x, y)
  {
  }

  lemma DeliveredV(x: seq<Announcement>, y: seq<Delivery>)
    ensures Handle(BothKnown(RemoteD(true, Some(LINE), 3), RemoteV(Some(VALUE)), x, y), Block(2, LATE)).delivered
         == y + [Delivery("v", -3, 1, LATE)]
  {
    var r := BothKnown(RemoteD(true, Some(LINE), 3), RemoteV(Some(VALUE)), x, y);
    assert Find(r, 2) == Some("v");
    assert r.store.Lock(r.signals["v"].domainTable) == Some(Table("d", 3, 0, 1, 3));
    assert Table("d", 3, 0, 1, 3).ValueAt(0) == -3;
    hide Table.ValueAt;
  }

  lemma HandleNext(ms: seq<Message>, m: Message)
    ensures HandleAll(NOBODY, ms + [m]) == Handle(HandleAll(NOBODY, ms), m)
    ensures HandleAll(NOBODY, []) == NOBODY
  {
    hide Handle;
    assert (ms + [m])[..|ms|] == ms;
  }

  lemma SentIs(out: seq<Message>)
    requires IsSent(out)
    ensures out == [] + [Message.Subscribe(1, "d")] + [Signal(1, BEFORE)] + [Block(1, EARLY)] + [Message.Unsubscribe(1, "d")]
                   + [Message.Subscribe(1, "d")] + [Signal(1, LINE.(valueIndex := Some(3)))]
                   + [Message.Subscribe(2, "v")] + [Signal(2, VALUE)] + [Block(2, LATE)]
  {
  }

  /** A wrong time: the sample published at time 0 is delivered with time -3. */
  lemma LateDomainDelivers(ops: seq<Op>)
    requires IsLateDomain(ops)
    ensures HandleAll(NOBODY, Run(ops).out).delivered == [Delivery("d", 0, 3, EARLY), Delivery("v", -3, 1, LATE)]
  {
    hide *;
    LateDomainSends(ops);
    SentIs(Run(ops).out);
    var a: seq<Message> := [] + [Message.Subscribe(1, "d")];
    HandleNext([], Message.Subscribe(1, "d"));
    var b := a + [Signal(1, BEFORE)];
    HandleNext(a, Signal(1, BEFORE));
    var c := b + [Block(1, EARLY)];
    HandleNext(b, Block(1, EARLY));
    var d := c + [Message.Unsubscribe(1, "d")];
    HandleNext(c, Message.Unsubscribe(1, "d"));
    var e := d + [Message.Subscribe(1, "d")];
    HandleNext(d, Message.Subscribe(1, "d"));
    var f := e + [Signal(1, LINE.(valueIndex := Some(3)))];
    HandleNext(e, Signal(1, LINE.(valueIndex := Some(3))));
    var g := f + [Message.Subscribe(2, "v")];
    HandleNext(f, Message.Subscribe(2, "v"));
    var h := g + [Signal(2, VALUE)];
    HandleNext(g, Signal(2, VALUE));
    HandleNext(h, Block(2, LATE));
    var y := [Delivery("d", 0, 3, EARLY)];
    HandledBefore([Announcement.Subscribed("d")]);
    var x1 := [Announcement.Subscribed("d")];
    HandledAgain(x1, y);
    var x2 := x1 + [Announcement.Unsubscribed("d")];
    HandledAgain(x2, y);
    var x3 := x2 + [Announcement.Subscribed("d")];
    HandledAgain(x3, y);
    HandledV(x3, y);
    var x4 := x3 + [Announcement.Subscribed("v")];
    BoundV(x4, y);
    DeliveredV(x4, y);
  }

  // ----- a domain that is made linear under a subscribed signal -----

  /** The signal that uses the domain, subscribed while the domain was not linear. */
  const UNBOUND := Local(2, VALUE, true, 0, true, None, 0, 1, None, true)

  lemma UnboundSteps()
    ensures Apply(JustD(D(BEFORE, false, 0, false, 0)), OpAdd("v", VALUE))
         == Step(Both(D(BEFORE, false, 0, false, 0), V(false, 0), NO_TABLES), [])
    ensures Apply(Both(D(BEFORE, false, 1, true, 0), UNBOUND, NO_TABLES), OpSetMetadata("d", LINE)).pub
         == Both(D(LINE, false, 1, true, 0), UNBOUND, ONE_TABLE)
  {
    assert NO_TABLES.Refreshed(None, LINE) == (ONE_TABLE, Some(0));
    assert NO_TABLES.Refreshed(None, VALUE) == (NO_TABLES, None);
    hide Store.Refreshed;
  }

  lemma UnboundConnects()
    ensures Connect(Both(D(BEFORE, false, 1, false, 0), V(false, 0).(explicitly := true), NO_TABLES), "d").pub
         == Both(D(BEFORE, false, 1, true, 0), V(false, 0).(explicitly := true), NO_TABLES)
    ensures Connect(Both(D(BEFORE, false, 1, true, 0), V(false, 0).(explicitly := true), NO_TABLES), "v").pub
         == Both(D(BEFORE, false, 1, true, 0), UNBOUND, NO_TABLES)
  {
    assert NO_TABLES.Refreshed(None, BEFORE) == (NO_TABLES, None);
    assert NO_TABLES.Refreshed(None, VALUE) == (NO_TABLES, None);
    hide Store.Refreshed;
  }

  lemma UnboundCounts()
    ensures var p := Both(D(BEFORE, false, 0, false, 0), V(false, 0), NO_TABLES);
            && "v" in p.locals && !p.locals["v"].Subscribed()
            && Foreign("v", p.locals["v"].metadata) && p.locals["v"].metadata.tableId == "d"
            && Counting(p, "v", true) == Both(D(BEFORE, false, 0, false, 0), V(false, 0).(explicitly := true), NO_TABLES)
    ensures var p := Both(D(BEFORE, false, 0, false, 0), V(false, 0).(explicitly := true), NO_TABLES);
            && "d" in p.locals && !p.locals["d"].Subscribed()
            && Counting(p, "d", false) == Both(D(BEFORE, false, 1, false, 0), V(false, 0).(explicitly := true), NO_TABLES)
  {
  }

  lemma UnboundSubscribes()
    ensures Apply(Both(D(BEFORE, false, 0, false, 0), V(false, 0), NO_TABLES), OpSubscribe("v")).pub
         == Both(D(BEFORE, false, 1, true, 0), UNBOUND, NO_TABLES)
  {
    hide *;
    UnboundCounts();
    SubscribeStep(Both(D(BEFORE, false, 0, false, 0), V(false, 0), NO_TABLES), "v", true);
    SubscribeStep(Both(D(BEFORE, false, 0, false, 0), V(false, 0).(explicitly := true), NO_TABLES), "d", false);
    UnboundConnects();
    ApplySubscribe(Both(D(BEFORE, false, 0, false, 0), V(false, 0), NO_TABLES), "v");
  }

  /** The run: "d" is registered before it is linear, "v", which uses it, is subscribed, and "d" is made
      linear while both are forwarded. */
  predicate IsUnbound(ops: seq<Op>) {
    ops == [] + [OpAdd("d", BEFORE)] + [OpAdd("v", VALUE)] + [OpSubscribe("v")] + [OpSetMetadata("d", LINE)]
  }

  lemma UnboundViews()
    ensures R.View(START) == map[]
    ensures R.View(JustD(D(BEFORE, false, 0, false, 0))) == map["d" := R.Standing("", false, 0, false)]
    ensures R.View(Both(D(BEFORE, false, 1, true, 0), UNBOUND, NO_TABLES)) ==
            map["d" := R.Standing("", false, 1, true), "v" := R.Standing("d", true, 0, true)]
  {
  }

  lemma RegistrationsPermitted()
    ensures R.Permitted(START, OpAdd("d", BEFORE)) && R.Shapely(START, OpAdd("d", BEFORE))
    ensures var p, op := JustD(D(BEFORE, false, 0, false, 0)), OpAdd("v", VALUE); R.Permitted(p, op) && R.Shapely(p, op)
  {
    UnboundViews();
    hide R.View;
  }

  lemma SubscriptionPermitted()
    ensures R.Permitted(Both(D(BEFORE, false, 0, false, 0), V(false, 0), NO_TABLES), OpSubscribe("v"))
  {
    var p := Both(D(BEFORE, false, 0, false, 0), V(false, 0), NO_TABLES);
    assert R.View(p) == map["d" := R.Standing("", false, 0, false), "v" := R.Standing("d", false, 0, false)];
    hide R.View;
  }

  lemma ChangePermitted()
    ensures var p, op := Both(D(BEFORE, false, 1, true, 0), UNBOUND, NO_TABLES), OpSetMetadata("d", LINE);
            R.Permitted(p, op) && R.Shapely(p, op)
  {
    UnboundViews();
    hide R.View;
  }

  lemma MannerlyNext(ops: seq<Op>, op: Op)
    ensures T.AllMannerly(ops + [op]) <==> T.AllMannerly(ops) && T.Mannerly(Run(ops).pub, op)
    ensures T.AllMannerly([])
    ensures T.LinearSince(ops + [op], "v") ==> B.Resends(Run(ops).pub, op, "v") || T.LinearSince(ops, "v")
    ensures T.LinearSince(ops, "v") ==> B.NamesLinear(Run(ops).pub, "v")
  {
    hide T.Mannerly, B.NamesLinear, B.Resends;
    assert (ops + [op])[..|ops|] == ops;
  }

  lemma UnboundMannerly()
    ensures T.Mannerly(START, OpAdd("d", BEFORE))
    ensures T.Mannerly(JustD(D(BEFORE, false, 0, false, 0)), OpAdd("v", VALUE))
    ensures T.Mannerly(Both(D(BEFORE, false, 0, false, 0), V(false, 0), NO_TABLES), OpSubscribe("v"))
    ensures T.Mannerly(Both(D(BEFORE, false, 1, true, 0), UNBOUND, NO_TABLES), OpSetMetadata("d", LINE))
  {
    RegistrationsPermitted();
    SubscriptionPermitted();
    ChangePermitted();
    hide R.View, R.Permitted, R.FitsIn;
  }

  /** "v" is then subscribed and names a registered linear signal that was not linear when "v" was
      subscribed. */
  lemma UnboundEnds(time: int64)
    ensures var p, q := Both(D(BEFORE, false, 1, true, 0), UNBOUND, NO_TABLES), Both(D(LINE, false, 1, true, 0), UNBOUND, ONE_TABLE);
            && "v" in q.locals && q.locals["v"].Subscribed() && B.NamesLinear(q, "v")
            && T.Mannerly(q, OpPublish("v", time, 1, LATE))
            && !B.NamesLinear(p, "v") && !B.Resends(p, OpSetMetadata("d", LINE), "v")
  {
  }

  lemma NothingLeft(ops: seq<Op>)
    requires B.NamesLinear(Run(ops).pub, "v")
    ensures T.LostTime(ops, "v") == 0
  {
    hide Run, T.LinearSince, T.Drives;
  }

  lemma UnboundIs(ops: seq<Op>)
    requires IsUnbound(ops)
    ensures ops == [] + [OpAdd("d", BEFORE)] + [OpAdd("v", VALUE)] + [OpSubscribe("v")] + [OpSetMetadata("d", LINE)]
  {
  }

  /** A time lost in a mannerly run: "v" is subscribed and names a registered linear signal, and whatever
      time its next block is published with, it is delivered with time 0. */
  lemma UnboundLosesTimes(ops: seq<Op>, time: int64)
    requires IsUnbound(ops)
    ensures T.AllMannerly(ops + [OpPublish("v", time, 1, LATE)])
    ensures "v" in Run(ops).pub.locals && Run(ops).pub.locals["v"].Subscribed() && B.NamesLinear(Run(ops).pub, "v")
    ensures T.LastTime(ops + [OpPublish("v", time, 1, LATE)]) == 0
  {
    hide *;
    UnboundIs(ops);
    RunNothing();
    FirstSteps();
    UnboundSteps();
    UnboundSubscribes();
    UnboundMannerly();
    UnboundEnds(time);
    UnboundEnds(0);
    var a: seq<Op> := [] + [OpAdd("d", BEFORE)];
    RunNext([], OpAdd("d", BEFORE));
    MannerlyNext([], OpAdd("d", BEFORE));
    var b := a + [OpAdd("v", VALUE)];
    RunNext(a, OpAdd("v", VALUE));
    MannerlyNext(a, OpAdd("v", VALUE));
    var c := b + [OpSubscribe("v")];
    RunNext(b, OpSubscribe("v"));
    MannerlyNext(b, OpSubscribe("v"));
    RunNext(c, OpSetMetadata("d", LINE));
    MannerlyNext(c, OpSetMetadata("d", LINE));
    MannerlyNext(ops, OpPublish("v", time, 1, LATE));
    NothingLeft(ops);
    T.LastTimeIs(ops, "v", time, 1, LATE);
  }

  // ----- a domain that names a domain -----

  /** "v" names "d", which names "x". */
  const LAST := Metadata(Explicit, None, None, Some(0), "", 1, false)
  const MIDDLE := Metadata(Explicit, None, None, Some(0), "x", 1, false)

  const CHAIN: seq<Op> := [OpAdd("x", LAST), OpAdd("d", MIDDLE), OpAdd("v", VALUE), OpSubscribe("v")]

  lemma ChainIs()
    ensures CHAIN == [] + [OpAdd("x", LAST)] + [OpAdd("d", MIDDLE)] + [OpAdd("v", VALUE)] + [OpSubscribe("v")]
  {
  }

  function Chained(x: R.Standing, d: R.Standing, v: R.Standing): R.Standings {
    map["x" := x, "d" := d, "v" := v]
  }

  const IDLE := R.Standing("", false, 0, false)

  lemma ChainRegistered(ops: seq<Op>)
    requires ops == [] + [OpAdd("x", LAST)] + [OpAdd("d", MIDDLE)] + [OpAdd("v", VALUE)]
    ensures R.View(Run(ops).pub) == Chained(IDLE, IDLE.(domain := "x"), IDLE.(domain := "d"))
  {
    RunNothing();
    hide Run, R.View, AddLocal;
    UnboundViews();
    var a: seq<Op> := [] + [OpAdd("x", LAST)];
    var b := a + [OpAdd("d", MIDDLE)];
    RunNext([], OpAdd("x", LAST));
    RunNext(a, OpAdd("d", MIDDLE));
    RunNext(b, OpAdd("v", VALUE));
    R.AddView(START, "x", LAST);
    R.ViewAt(Run(a).pub, "d");
    R.AddView(Run(a).pub, "d", MIDDLE);
    R.ViewAt(Run(b).pub, "v");
    R.AddView(Run(b).pub, "v", VALUE);
  }

  /** Subscribing "v" counts and forwards "d" along, but not "x". */
  lemma ChainSubscribed()
    ensures R.View(Run(CHAIN).pub) ==
            Chained(IDLE, R.Standing("x", false, 1, true), R.Standing("d", true, 0, true))
  {
    hide *;
    var ops := [] + [OpAdd("x", LAST)] + [OpAdd("d", MIDDLE)] + [OpAdd("v", VALUE)];
    ChainRegistered(ops);
    RunNext(ops, OpSubscribe("v"));
    ChainIs();
    ApplySubscribe(Run(ops).pub, "v");
    R.SubscribeLocalView(Run(ops).pub, "v", true);
    ChainSubscribes();
  }

  lemma ChainSubscribes()
    ensures R.SubscribeView(Chained(IDLE, IDLE.(domain := "x"), IDLE.(domain := "d")), "v", true) ==
            Chained(IDLE, R.Standing("x", false, 1, true), R.Standing("d", true, 0, true))
  {
    var s := Chained(IDLE, IDLE.(domain := "x"), IDLE.(domain := "d"));
    R.SubscribeBoth(s, "v");
  }

  /** Withdrawn though it was subscribed: unsubscribing "v" is passed on from "d" to "x", which counts as
      subscribed from then on without being forwarded. */
  lemma ChainUnsubscribed()
    ensures var s := R.View(Run(CHAIN + [OpUnsubscribe("v")]).pub);
            "x" in s && s["x"].implicitly == 0xFFFF_FFFF && s["x"].Subscribed() && !s["x"].connected
  {
    hide *;
    ChainSubscribed();
    var p := Run(CHAIN).pub;
    RunNext(CHAIN, OpUnsubscribe("v"));
    ApplyUnsubscribe(p, "v");
    R.UnsubscribeLocalView(p, "v", true);
    ChainUnsubscribes();
  }

  lemma ApplyUnsubscribe(p: Publisher, id: string)
    ensures Apply(p, OpUnsubscribe(id)).pub == UnsubscribeLocal(p, id, true).pub
  {
    hide UnsubscribeLocal;
  }

  lemma ChainUnsubscribes()
    ensures var s := R.UnsubscribeView(Chained(IDLE, R.Standing("x", false, 1, true), R.Standing("d", true, 0, true)), "v", true);
            "x" in s && s["x"].implicitly == 0xFFFF_FFFF && s["x"].Subscribed() && !s["x"].connected
  {
    var s := Chained(IDLE, R.Standing("x", false, 1, true), R.Standing("d", true, 0, true));
    R.UnsubscribeStep(s, "v");
    R.CascadeStep(s, "v");
    var c := R.Past(s, "v");
    assert c["x"] == IDLE;
    assert R.UnsubscribeView(c, "x", false) == c["x" := R.Uncounting(IDLE, false)];
  }

  /** Subscribed without its domain: "d" is then subscribed itself, and "x" is neither counted nor forwarded. */
  lemma ChainSubscribedTwice()
    ensures var s := R.View(Run(CHAIN + [OpSubscribe("d")]).pub);
            "d" in s && s["d"].explicitly && s["d"].domain == "x" && "x" in s && s["x"] == IDLE
  {
    hide *;
    ChainSubscribed();
    var p := Run(CHAIN).pub;
    RunNext(CHAIN, OpSubscribe("d"));
    ApplySubscribe(p, "d");
    R.SubscribeLocalView(p, "d", true);
    ChainSubscribesTwice();
  }

  lemma ChainSubscribesTwice()
    ensures var s := R.SubscribeView(Chained(IDLE, R.Standing("x", false, 1, true), R.Standing("d", true, 0, true)), "d", true);
            "d" in s && s["d"].explicitly && s["d"].domain == "x" && "x" in s && s["x"] == IDLE
  {
  }
}
