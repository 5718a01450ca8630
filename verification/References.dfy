/** The subscription counts of the publishing side: a domain is counted once for each subscribed signal
    that names it, and a signal is connected exactly when it is subscribed. */
module References {
  import opened Bytes
  import opened LinearTables
  import opened Publishers

  /** The parts of a registered signal that the counts are about; `domain` is the other signal it names,
      or empty. */
  datatype Standing = Standing(domain: string, explicitly: bool, implicitly: uint32, connected: bool) {
    predicate Subscribed() {
      explicitly || implicitly > 0
    }

    /** The domain subscribed on the signal's behalf. */
    function Uses(): string {
      if explicitly then domain else ""
    }
  }

  type Standings = map<string, Standing>

  function StandingOf(id: string, e: Local): Standing {
    Standing(if Foreign(id, e.metadata) then e.metadata.tableId else "", e.explicitly, e.implicitly, e.connected)
  }

  function View(p: Publisher): Standings {
    map id | id in p.locals :: StandingOf(id, p.locals[id])
  }

  predicate Names(s: Standings, v: string, d: string) {
    d != "" && v in s && s[v].domain == d
  }

  /** Whether a domain is subscribed on a signal's behalf. */
  predicate UsedBy(s: Standings, d: string, v: string) {
    d != "" && v in s && s[v].Uses() == d
  }

  function Users(s: Standings, d: string): set<string> {
    set v | v in s && UsedBy(s, d, v)
  }

  /** No registered domain names a domain itself. */
  predicate Flat(s: Standings) {
    forall u, v | u in s && v in s && Names(s, u, v) :: s[v].domain == ""
  }

  predicate Counted(s: Standings, d: string)
    requires d in s
  {
    && s[d].implicitly == |Users(s, d)|
    && (s[d].connected <==> s[d].Subscribed())
  }

  /** Every domain's count is the number of its users, and what is counted is connected. */
  predicate CountsRight(s: Standings) {
    forall d | d in s :: Counted(s, d)
  }

  /** The counts are right, and no domain names a domain. */
  predicate Balanced(s: Standings) {
    Flat(s) && CountsRight(s)
  }

  predicate Unregistered(s: Standings, domain: string) {
    domain == "" || domain !in s
  }

  // ----- what must be kept to -----

  /** Whether a signal may take on another standing: the registered domains keep their users. */
  predicate KeepsUse(s: Standings, old': Standing, new': Standing) {
    new'.Uses() == old'.Uses() || (Unregistered(s, new'.Uses()) && Unregistered(s, old'.Uses()))
  }

  /** A registered domain is subscribed along only if the signal was not subscribed at all, not even as a
      domain itself; and its count must not wrap around. */
  predicate MaySubscribe(s: Standings, id: string) {
    id in s && !s[id].explicitly && !Unregistered(s, s[id].domain) ==>
      s[id].implicitly == 0 && s[s[id].domain].implicitly < 0xFFFF_FFFF
  }

  /** The last subscription of a domain is withdrawn from the registered domain that it names in turn, on
      whose behalf nothing was counted. */
  predicate Cascades(s: Standings, d: string)
    requires d in s
  {
    !s[d].explicitly && s[d].implicitly == 1 && !Unregistered(s, s[d].domain)
  }

  /** A registered domain is unsubscribed along only if nothing of the signal's own subscription is left;
      that subscription must have been made, and the withdrawal must end at the domain. */
  predicate MayUnsubscribe(s: Standings, id: string) {
    id in s && !Unregistered(s, s[id].domain) ==>
      if s[id].explicitly then s[id].implicitly == 0 && !Cascades(s, s[id].domain) else s[id].implicitly > 0
  }

  /** What the application and the remote peer must keep to for the counts to stay right. */
  predicate Permitted(p: Publisher, op: Op) {
    var s := View(p);
    match op
    case OpAdd(id, _) => id !in s ==> Users(s, id) == {}
    case OpRemove(id) => id in s ==> Unregistered(s, s[id].Uses())
    case OpSubscribe(id) => MaySubscribe(s, id)
    case OpUnsubscribe(id) => MayUnsubscribe(s, id)
    case OpSetMetadata(id, metadata) =>
      id in s ==> KeepsUse(s, s[id], StandingOf(id, p.locals[id].(metadata := metadata)))
    case _ => true
  }

  /** Whether a signal that names this domain, or none, keeps domains from naming domains. */
  predicate FitsIn(s: Standings, id: string, domain: string) {
    domain != "" && domain != id ==>
      && (forall v | v in s && v != id :: !Names(s, v, id))
      && (domain in s ==> s[domain].domain == "")
  }

  /** What keeps domains from naming domains. */
  predicate Shapely(p: Publisher, op: Op) {
    var s := View(p);
    match op
    case OpAdd(id, metadata) => id !in s ==> FitsIn(s, id, metadata.tableId)
    case OpSetMetadata(id, metadata) => id in s ==> FitsIn(s, id, metadata.tableId)
    case _ => true
  }

  /** A withdrawal of a subscription that was never made, on a signal with a registered domain. */
  predicate Unfounded(s: Standings, id: string) {
    id in s && !s[id].Subscribed() && !Unregistered(s, s[id].domain)
  }

  // ----- what each step does to the standings -----

  lemma ViewWith(p: Publisher, id: string, e: Local)
    requires id in p.locals
    ensures View(p.(locals := p.locals[id := e])) == View(p)[id := StandingOf(id, e)]
  {
  }

  lemma RefreshView(p: Publisher, id: string)
    requires id in p.locals
    ensures View(Refresh(p, id)) == View(p)
  {
  }

  lemma ConnectView(p: Publisher, id: string)
    requires id in p.locals
    ensures View(Connect(p, id).pub) == View(p)[id := View(p)[id].(connected := true)]
  {
    RefreshView(p, id);
    var q := Refresh(p, id);
    hide Refresh, View;
    ViewWith(q, id, q.locals[id].(connected := true));
    ViewAt(q, id);
  }

  lemma ViewAt(p: Publisher, id: string)
    ensures id in View(p) <==> id in p.locals
    ensures id in p.locals ==> View(p)[id] == StandingOf(id, p.locals[id])
  {
  }

  lemma DisconnectView(p: Publisher, id: string)
    requires id in p.locals
    ensures View(Disconnect(p, id).pub) == View(p)[id := View(p)[id].(connected := false)]
  {
    ViewWith(p, id, p.locals[id].(connected := false));
  }

  function Counting(s: Standing, explicitly: bool): Standing {
    if explicitly then s.(explicitly := true) else s.(implicitly := (s.implicitly + 1) % 0x1_0000_0000)
  }

  function Uncounting(s: Standing, explicitly: bool): Standing {
    if explicitly then s.(explicitly := false) else s.(implicitly := (s.implicitly - 1) % 0x1_0000_0000)
  }

  /** Subscribing on standings alone. */
  function SubscribeView(s: Standings, id: string, explicitly: bool): Standings
    decreases explicitly
  {
    if id !in s then s
    else
      var q := s[id := Counting(s[id], explicitly)];
      if s[id].Subscribed() then q
      else
        var d := if explicitly && s[id].domain != "" then SubscribeView(q, s[id].domain, false) else q;
        if id in d then d[id := d[id].(connected := true)] else d
  }

  lemma {:induction false} SubscribeLocalView(p: Publisher, id: string, explicitly: bool)
    ensures View(SubscribeLocal(p, id, explicitly).pub) == SubscribeView(View(p), id, explicitly)
    decreases explicitly
  {
    hide View;
    ViewAt(p, id);
    if id in p.locals {
      var e := p.locals[id];
      var q := p.(locals := p.locals[id := Count(e, explicitly)]);
      ViewWith(p, id, Count(e, explicitly));
      if !e.Subscribed() {
        var t := e.metadata.tableId;
        if explicitly && Foreign(id, e.metadata) {
          SubscribeLocalView(q, t, false);
          var d := SubscribeLocal(q, t, false);
          ViewAt(d.pub, id);
          ConnectView(d.pub, id);
        } else {
          ViewAt(q, id);
          ConnectView(q, id);
        }
      }
    }
  }

  /** The signals that one implicit unsubscription more would disconnect. */
  function LastOf(s: Standings): set<string> {
    set id | id in s && !s[id].explicitly && s[id].implicitly == 1
  }

  /** Unsubscribing on standings alone. */
  function UnsubscribeView(s: Standings, id: string, explicitly: bool): Standings
    decreases explicitly, LastOf(s)
  {
    if id !in s then s
    else
      var q := s[id := Uncounting(s[id], explicitly)];
      if q[id].Subscribed() then q
      else
        var c := q[id := q[id].(connected := false)];
        assert !explicitly ==> id in LastOf(s) && id !in LastOf(c);
        if s[id].domain != "" then UnsubscribeView(c, s[id].domain, false) else c
  }

  lemma {:induction false} UnsubscribeLocalView(p: Publisher, id: string, explicitly: bool)
    ensures View(UnsubscribeLocal(p, id, explicitly).pub) == UnsubscribeView(View(p), id, explicitly)
    decreases explicitly, LastOnes(p)
  {
    hide View;
    ViewAt(p, id);
    if id in p.locals {
      var e := Uncount(p.locals[id], explicitly);
      var q := p.(locals := p.locals[id := e]);
      ViewWith(p, id, e);
      ViewAt(q, id);
      if !e.Subscribed() {
        DisconnectView(q, id);
        var c := Disconnect(q, id).pub;
        assert !explicitly ==> id in LastOnes(p) && id !in LastOnes(c);
        if Foreign(id, e.metadata) {
          UnsubscribeLocalView(c, e.metadata.tableId, false);
        }
      }
    }
  }

  /** Implicit subscriptions and withdrawals change no domain and no subscription of the remote peer. */
  lemma {:induction false} WithdrawnAlong(s: Standings, id: string)
    ensures var q := UnsubscribeView(s, id, false);
            && q.Keys == s.Keys
            && forall v | v in s :: q[v].domain == s[v].domain && q[v].explicitly == s[v].explicitly
    decreases LastOf(s)
  {
    if id in s && !Uncounting(s[id], false).Subscribed() && s[id].domain != "" {
      var c := s[id := Uncounting(s[id], false)][id := Uncounting(s[id], false).(connected := false)];
      assert id in LastOf(s) && id !in LastOf(c);
      WithdrawnAlong(c, s[id].domain);
    }
  }

  /** A count of zero is withdrawn from once at most, which makes the signal subscribed. */
  lemma {:induction false} ZeroStays(s: Standings, id: string, x: string)
    requires x in s && s[x].implicitly == 0
    ensures x in UnsubscribeView(s, id, false)
    ensures UnsubscribeView(s, id, false)[x].implicitly in {0, 0xFFFF_FFFF}
    decreases LastOf(s)
  {
    if id in s && !Uncounting(s[id], false).Subscribed() && s[id].domain != "" {
      var c := s[id := Uncounting(s[id], false)][id := Uncounting(s[id], false).(connected := false)];
      assert id in LastOf(s) && id !in LastOf(c);
      ZeroStays(c, s[id].domain, x);
    }
  }

  /** However far a withdrawal is passed on, even back to where it started, the count it starts at is no
      longer what it was. */
  lemma WithdrawalShows(s: Standings, id: string)
    requires id in s
    ensures id in UnsubscribeView(s, id, false)
    ensures UnsubscribeView(s, id, false)[id].implicitly != s[id].implicitly
  {
    var e := Uncounting(s[id], false);
    if !e.Subscribed() && s[id].domain != "" {
      ZeroStays(s[id := e][id := e.(connected := false)], s[id].domain, id);
    }
  }

  // ----- what the balance means -----

  /** A signal that names a domain is subscribed only by the remote peer itself. */
  lemma NamersAreNotDomains(s: Standings, id: string)
    requires Balanced(s) && id in s && s[id].domain != ""
    ensures s[id].implicitly == 0 && Users(s, id) == {}
  {
    assert Counted(s, id);
    forall v | v in s ensures !UsedBy(s, id, v) {
      assert !Names(s, v, id);
    }
    assert Users(s, id) == {};
  }

  /** A subscribed signal always has its domain subscribed, and connected. */
  lemma DomainConnected(s: Standings, id: string)
    requires Balanced(s) && id in s && s[id].connected && s[id].domain != "" && s[id].domain in s
    ensures s[id].explicitly && s[s[id].domain].implicitly > 0 && s[s[id].domain].connected
  {
    NamersAreNotDomains(s, id);
    assert Counted(s, id);
    UserCounts(s, id);
  }

  /** A signal's own subscription is counted at its domain. */
  lemma UserCounts(s: Standings, id: string)
    requires CountsRight(s) && id in s && s[id].explicitly && s[id].domain != "" && s[id].domain in s
    ensures s[s[id].domain].implicitly > 0 && s[s[id].domain].connected
  {
    assert Counted(s, s[id].domain);
    assert id in Users(s, s[id].domain);
  }

  /** An implicit subscription is on behalf of a signal that names the domain. */
  lemma SomeUser(s: Standings, d: string) returns (v: string)
    requires d in s && Counted(s, d) && s[d].implicitly > 0
    ensures v in s && UsedBy(s, d, v) && Names(s, v, d)
  {
    v :| v in Users(s, d);
  }

  // ----- changes that keep the balance -----

  lemma {:induction false} SubsetSize(a: set<string>, b: set<string>)
    requires a <= b
    ensures |a| <= |b|
  {
    if a != {} {
      var x :| x in a;
      SubsetSize(a - {x}, b - {x});
    }
  }

  /** Counts stay right when every domain keeps its users. */
  lemma CountsStay(s: Standings, q: Standings)
    requires CountsRight(s)
    requires forall d, v | d in q :: UsedBy(q, d, v) <==> UsedBy(s, d, v)
    requires forall d | d in q && d in s :: q[d].implicitly == s[d].implicitly
    requires forall d | d in q && d !in s :: q[d].implicitly == 0 && Users(s, d) == {}
    requires forall d | d in q :: q[d].connected <==> q[d].Subscribed()
    ensures CountsRight(q)
  {
    hide UsedBy;
    forall d | d in q ensures Counted(q, d) {
      UsersStay(s, q, d);
      assert d in s ==> Counted(s, d);
    }
  }

  lemma UsersStay(s: Standings, q: Standings, d: string)
    requires forall v :: UsedBy(q, d, v) <==> UsedBy(s, d, v)
    ensures Users(q, d) == Users(s, d)
  {
    forall v ensures v in Users(q, d) <==> v in Users(s, d) {
      assert UsedBy(q, d, v) <==> UsedBy(s, d, v);
    }
  }

  lemma ConnectedExactly(s: Standings)
    requires CountsRight(s)
    ensures forall d | d in s :: s[d].connected <==> s[d].Subscribed()
  {
    forall d | d in s ensures s[d].connected <==> s[d].Subscribed() {
      assert Counted(s, d);
    }
  }

  /** A registered domain that lost or gained a user without being told is counted wrongly. */
  lemma Miscounted(s: Standings, q: Standings, id: string, d: string)
    requires d in s && d in q && Counted(s, d) && q[d].implicitly == s[d].implicitly && d != ""
    requires (forall v | v != id :: UsedBy(q, d, v) <==> UsedBy(s, d, v)) && !(UsedBy(q, d, id) <==> UsedBy(s, d, id))
    ensures !Counted(q, d)
  {
    hide UsedBy;
    forall v | v != id ensures v in Users(q, d) <==> v in Users(s, d) {
      UserIs(q, d, v);
      UserIs(s, d, v);
    }
    UserIs(q, d, id);
    UserIs(s, d, id);
    if UsedBy(s, d, id) {
      assert Users(s, d) == Users(q, d) + {id};
    } else {
      assert Users(q, d) == Users(s, d) + {id};
    }
  }

  lemma UserIs(s: Standings, d: string, v: string)
    ensures v in Users(s, d) <==> UsedBy(s, d, v)
  {
  }

  /** So is one that kept its users while its count changed. */
  lemma Recounted(s: Standings, q: Standings, d: string)
    requires d in s && d in q && Counted(s, d) && q[d].implicitly != s[d].implicitly
    requires forall v :: UsedBy(q, d, v) <==> UsedBy(s, d, v)
    ensures !Counted(q, d)
  {
    UsersStay(s, q, d);
  }

  // ----- registrations, removals and changes of a signal's own standing -----

  /** A signal may be registered exactly when no subscribed signal names it yet. */
  lemma RegisteredExactly(s: Standings, id: string, domain: string)
    requires CountsRight(s) && id !in s && (domain == id ==> id == "")
    ensures CountsRight(s[id := Standing(domain, false, 0, false)]) <==> Users(s, id) == {}
  {
    var q := s[id := Standing(domain, false, 0, false)];
    if Users(s, id) == {} {
      ConnectedExactly(s);
      hide Users;
      CountsStay(s, q);
    } else {
      var v :| v in Users(s, id);
      assert v in Users(q, id);
      assert id in q && !Counted(q, id);
    }
  }

  /** A signal may be removed exactly when it uses no registered domain. */
  lemma RemovedExactly(s: Standings, id: string)
    requires CountsRight(s) && Proper(s) && id in s
    ensures CountsRight(s - {id}) <==> Unregistered(s, s[id].Uses())
  {
    var q, d := s - {id}, s[id].Uses();
    if Unregistered(s, d) {
      ConnectedExactly(s);
      CountsStay(s, q);
    } else {
      assert d != id && Counted(s, d);
      Miscounted(s, q, id, d);
      assert d in q && !Counted(q, d);
    }
  }

  /** A signal's own standing may change exactly when the registered domains keep their users. */
  lemma OwnChangeExactly(s: Standings, id: string, e: Standing)
    requires CountsRight(s) && Proper(s) && id in s && (e.domain == id ==> id == "")
    requires e.implicitly == s[id].implicitly && (e.connected <==> e.Subscribed())
    ensures CountsRight(s[id := e]) <==> KeepsUse(s, s[id], e)
  {
    var q := s[id := e];
    if KeepsUse(s, s[id], e) {
      ConnectedExactly(s);
      hide Users;
      CountsStay(s, q);
    } else {
      var d := if Unregistered(s, e.Uses()) then s[id].Uses() else e.Uses();
      assert d != id && Counted(s, d);
      Miscounted(s, q, id, d);
      assert d in q && !Counted(q, d);
    }
  }

  /** No signal is its own domain. */
  predicate Proper(s: Standings) {
    forall id | id in s :: s[id].domain == id ==> id == ""
  }

  lemma ViewProper(p: Publisher)
    ensures Proper(View(p))
  {
  }

  // ----- subscriptions -----

  /** A signal starts or stops using a registered domain, and the domain's count follows. */
  predicate UseMoves(s: Standings, id: string, e: Standing, t: string, d: Standing) {
    && id in s && t in s && id != t && t != "" && s[id].domain == e.domain == t
    && e.explicitly != s[id].explicitly && e.implicitly == s[id].implicitly && (e.connected <==> e.Subscribed())
    && d.domain == s[t].domain && d.explicitly == s[t].explicitly && (d.connected <==> d.Subscribed())
  }

  lemma UseChange(s: Standings, id: string, e: Standing, t: string, d: Standing)
    requires CountsRight(s) && UseMoves(s, id, e, t, d)
    requires d.implicitly == s[t].implicitly + if e.explicitly then 1 else -1
    ensures CountsRight(s[id := e][t := d])
  {
    var q := s[id := e][t := d];
    forall x | x in q ensures Counted(q, x) {
      assert Counted(s, x) && Counted(s, t);
      if x == t {
        UsersOfDomain(s, id, e, t, d);
      } else {
        UsersStay(s, q, x);
      }
    }
  }

  lemma UsersOfDomain(s: Standings, id: string, e: Standing, t: string, d: Standing)
    requires UseMoves(s, id, e, t, d)
    ensures |Users(s[id := e][t := d], t)| == |Users(s, t)| + if e.explicitly then 1 else -1
  {
    var q := s[id := e][t := d];
    forall v ensures if v == id then UsedBy(q, t, v) == e.explicitly && UsedBy(s, t, v) != e.explicitly
                     else UsedBy(q, t, v) == UsedBy(s, t, v) {
    }
    UsersMove(s, q, id, e, t);
  }

  lemma UsersMove(s: Standings, q: Standings, id: string, e: Standing, t: string)
    requires forall v :: if v == id then UsedBy(q, t, v) == e.explicitly && UsedBy(s, t, v) != e.explicitly
                         else UsedBy(q, t, v) == UsedBy(s, t, v)
    ensures |Users(q, t)| == |Users(s, t)| + if e.explicitly then 1 else -1
  {
    hide UsedBy, Users;
    forall v ensures (v in Users(q, t) <==> UsedBy(q, t, v)) && (v in Users(s, t) <==> UsedBy(s, t, v)) {
      UserIs(q, t, v);
      UserIs(s, t, v);
    }
    if e.explicitly {
      OneMore(Users(s, t), Users(q, t), id);
    } else {
      OneMore(Users(q, t), Users(s, t), id);
    }
  }

  lemma OneMore(a: set<string>, b: set<string>, x: string)
    requires x in b && x !in a && forall v | v != x :: v in a <==> v in b
    ensures |b| == |a| + 1
  {
    assert b == a + {x};
  }

  /** Subscribing keeps the counts right exactly when the domain is reached as it must be. */
  lemma SubscribeExactly(s: Standings, id: string)
    requires CountsRight(s) && Proper(s)
    ensures CountsRight(SubscribeView(s, id, true)) <==> MaySubscribe(s, id)
  {
    if id in s {
      var e, t := s[id], s[id].domain;
      var on := e.(explicitly := true, connected := true);
      assert Counted(s, id);
      if e.Subscribed() || Unregistered(s, t) {
        SubscribeAlone(s, id);
        OwnChangeExactly(s, id, on);
      } else {
        assert Counted(s, t);
        var d := Counting(s[t], false).(connected := true);
        SubscribeBoth(s, id);
        if MaySubscribe(s, id) {
          UseChange(s, id, on, t, d);
        } else {
          assert id in Users(s[id := on][t := d], t);
          assert !Counted(s[id := on][t := d], t);
        }
      }
    }
  }

  lemma SubscribeBoth(s: Standings, id: string)
    requires id in s && !s[id].Subscribed() && !Unregistered(s, s[id].domain) && s[id].domain != id
    requires s[s[id].domain].connected <==> s[s[id].domain].Subscribed()
    ensures SubscribeView(s, id, true)
         == s[id := s[id].(explicitly := true, connected := true)]
             [s[id].domain := Counting(s[s[id].domain], false).(connected := true)]
  {
    var t := s[id].domain;
    var q := s[id := Counting(s[id], true)];
    assert SubscribeView(q, t, false) == q[t := Counting(s[t], false).(connected := true)];
  }

  /** A signal that is subscribed already, or whose domain is not registered. */
  lemma SubscribeAlone(s: Standings, id: string)
    requires id in s && (s[id].Subscribed() || Unregistered(s, s[id].domain)) && (s[id].connected <==> s[id].Subscribed())
    ensures SubscribeView(s, id, true) == s[id := s[id].(explicitly := true, connected := true)]
  {
  }

  /** Unsubscribing keeps the counts right exactly when the domain is reached as it must be, and nothing
      beyond the domain. */
  lemma UnsubscribeExactly(s: Standings, id: string)
    requires CountsRight(s) && Proper(s)
    ensures CountsRight(UnsubscribeView(s, id, true)) <==> MayUnsubscribe(s, id)
  {
    if id in s {
      var e, t := s[id], s[id].domain;
      assert Counted(s, id);
      if e.implicitly > 0 || Unregistered(s, t) {
        UnsubscribeAlone(s, id);
        OwnChangeExactly(s, id, e.(explicitly := false, connected := e.implicitly > 0));
      } else if !e.explicitly {
        UnfoundedBreaks(s, id);
      } else {
        UserCounts(s, id);
        if Cascades(s, t) {
          CascadeBreaks(s, id);
        } else {
          assert Counted(s, t);
          var d := Uncounting(s[t], false);
          UnsubscribeBoth(s, id);
          UseChange(s, id, e.(explicitly := false, connected := false), t, d.(connected := d.Subscribed()));
        }
      }
    }
  }

  lemma UnsubscribeAlone(s: Standings, id: string)
    requires id in s && (s[id].implicitly > 0 || Unregistered(s, s[id].domain)) && (s[id].connected <==> s[id].Subscribed())
    ensures UnsubscribeView(s, id, true) == s[id := s[id].(explicitly := false, connected := s[id].implicitly > 0)]
  {
  }

  /** The state in which the withdrawal reaches the domain. */
  function Off(s: Standings, id: string): Standings
    requires id in s
  {
    s[id := s[id].(explicitly := false, connected := false)]
  }

  lemma UnsubscribeStep(s: Standings, id: string)
    requires id in s && s[id].implicitly == 0 && s[id].domain != ""
    ensures UnsubscribeView(s, id, true) == UnsubscribeView(Off(s, id), s[id].domain, false)
  {
    assert s[id := Uncounting(s[id], true)][id := s[id].(explicitly := false, connected := false)] == Off(s, id);
  }

  lemma UnsubscribeBoth(s: Standings, id: string)
    requires id in s && s[id].implicitly == 0 && !Unregistered(s, s[id].domain) && s[id].domain != id
    requires s[s[id].domain].connected && s[s[id].domain].implicitly > 0 && !Cascades(s, s[id].domain)
    ensures UnsubscribeView(s, id, true) ==
            var d := Uncounting(s[s[id].domain], false);
            Off(s, id)[s[id].domain := d.(connected := d.Subscribed())]
  {
    UnsubscribeStep(s, id);
    OffAt(s, id, s[id].domain);
    hide Off;
    WithdrawnOnce(Off(s, id), s[id].domain);
  }

  lemma OffAt(s: Standings, id: string, t: string)
    requires id in s && t in s && t != id
    ensures t in Off(s, id) && Off(s, id)[t] == s[t] && Off(s, id).Keys == s.Keys
  {
  }

  /** A withdrawal that ends where it starts. */
  lemma WithdrawnOnce(s: Standings, t: string)
    requires t in s && s[t].implicitly > 0 && s[t].connected && !Cascades(s, t)
    ensures UnsubscribeView(s, t, false) == var d := Uncounting(s[t], false); s[t := d.(connected := d.Subscribed())]
  {
    var d := Uncounting(s[t], false);
    assert s[t := d][t := d.(connected := false)] == s[t := d.(connected := false)];
  }

  lemma UnfoundedBreaks(s: Standings, id: string)
    requires CountsRight(s) && Unfounded(s, id)
    ensures !CountsRight(UnsubscribeView(s, id, true))
  {
    var t := s[id].domain;
    assert Counted(s, id) && Counted(s, t);
    assert Off(s, id) == s;
    var q := UnsubscribeView(s, t, false);
    UnsubscribeStep(s, id);
    WithdrawalShows(s, t);
    WithdrawnAlong(s, t);
    Recounted(s, q, t);
  }

  /** The withdrawal is passed on to the domain's own domain, which loses a count but no user. */
  lemma CascadeBreaks(s: Standings, id: string)
    requires CountsRight(s) && Proper(s) && id in s && s[id].implicitly == 0 && !Unregistered(s, s[id].domain)
    requires Cascades(s, s[id].domain)
    ensures !CountsRight(UnsubscribeView(s, id, true))
  {
    var u, c := s[s[id].domain].domain, Past(s, id);
    UnsubscribeStep(s, id);
    CascadeStep(s, id);
    WithdrawalShows(c, u);
    WithdrawnAlong(c, u);
    PastKeeps(s, id);
    var q := UnsubscribeView(c, u, false);
    hide UnsubscribeView, Past, Users, UsedBy;
    assert Counted(s, u);
    SameUses(s, c, q, u);
    Recounted(s, q, u);
  }

  /** The state in which the withdrawal reaches the domain's own domain. */
  function Past(s: Standings, id: string): Standings
    requires id in s && s[id].domain in s
  {
    Off(s, id)[s[id].domain := s[s[id].domain].(implicitly := 0, connected := false)]
  }

  lemma CascadeStep(s: Standings, id: string)
    requires Proper(s) && id in s && !Unregistered(s, s[id].domain) && Cascades(s, s[id].domain)
    ensures UnsubscribeView(Off(s, id), s[id].domain, false) == UnsubscribeView(Past(s, id), s[s[id].domain].domain, false)
  {
    var t := s[id].domain;
    assert Off(s, id)[t := Uncounting(s[t], false)][t := s[t].(implicitly := 0, connected := false)] == Past(s, id);
  }

  lemma PastKeeps(s: Standings, id: string)
    requires Proper(s) && id in s && s[id].implicitly == 0 && !Unregistered(s, s[id].domain) && Cascades(s, s[id].domain)
    ensures var u, c := s[s[id].domain].domain, Past(s, id);
            && c.Keys == s.Keys && c[u].implicitly == s[u].implicitly
            && forall v :: UsedBy(c, u, v) <==> UsedBy(s, u, v)
  {
  }

  lemma SameUses(s: Standings, c: Standings, q: Standings, u: string)
    requires forall v :: UsedBy(c, u, v) <==> UsedBy(s, u, v)
    requires q.Keys == c.Keys && forall v | v in c :: q[v].domain == c[v].domain && q[v].explicitly == c[v].explicitly
    ensures forall v :: UsedBy(q, u, v) <==> UsedBy(s, u, v)
  {
    forall v ensures UsedBy(q, u, v) <==> UsedBy(s, u, v) {
      assert UsedBy(c, u, v) <==> UsedBy(s, u, v);
      assert UsedBy(q, u, v) <==> UsedBy(c, u, v);
    }
  }

  // ----- what must be kept to is exactly what is permitted -----

  /** From any state with right counts, a step keeps them right if and only if it is permitted. */
  lemma PermittedExactly(p: Publisher, op: Op)
    requires CountsRight(View(p))
    ensures CountsRight(View(Apply(p, op).pub)) <==> Permitted(p, op)
  {
    hide CountsRight, MaySubscribe, MayUnsubscribe;
    ViewProper(p);
    match op
    case OpAdd(id, metadata) => AddExactly(p, id, metadata);
    case OpRemove(id) => RemoveExactly(p, id);
    case OpHello => assert View(Hello(p).pub) == View(p);
    case OpSubscribe(id) =>
      SubscribeLocalView(p, id, true);
      SubscribeExactly(View(p), id);
    case OpUnsubscribe(id) =>
      UnsubscribeLocalView(p, id, true);
      UnsubscribeExactly(View(p), id);
    case OpSetMetadata(id, metadata) => SetMetadataExactly(p, id, metadata);
    case OpPublish(id, time, count, data) => PublishView(p, id, time, count, data);
  }

  lemma AddView(p: Publisher, id: string, metadata: Metadata)
    requires id !in p.locals
    ensures View(AddLocal(p, id, metadata).pub) ==
            View(p)[id := Standing(if Foreign(id, metadata) then metadata.tableId else "", false, 0, false)]
  {
    RefreshView(Registered(p, id, metadata), id);
    hide Refresh;
  }

  lemma AddExactly(p: Publisher, id: string, metadata: Metadata)
    requires CountsRight(View(p))
    ensures CountsRight(View(AddLocal(p, id, metadata).pub)) <==> Permitted(p, OpAdd(id, metadata))
  {
    hide CountsRight;
    if id !in p.locals {
      AddView(p, id, metadata);
      RegisteredExactly(View(p), id, if Foreign(id, metadata) then metadata.tableId else "");
    }
  }

  lemma RemoveExactly(p: Publisher, id: string)
    requires CountsRight(View(p))
    ensures CountsRight(View(RemoveLocal(p, id).pub)) <==> Permitted(p, OpRemove(id))
  {
    hide CountsRight;
    ViewProper(p);
    if id in p.locals {
      assert View(RemoveLocal(p, id).pub) == View(p) - {id};
      RemovedExactly(View(p), id);
    }
  }

  lemma SetMetadataView(p: Publisher, id: string, metadata: Metadata)
    requires id in p.locals
    ensures View(SetMetadata(p, id, metadata).pub) == View(p)[id := StandingOf(id, p.locals[id].(metadata := metadata))]
  {
    hide Refresh;
    var e := p.locals[id].(metadata := metadata);
    var q := p.(locals := p.locals[id := e]);
    ViewWith(p, id, e);
    NotifyView(q, id);
  }

  lemma SetMetadataExactly(p: Publisher, id: string, metadata: Metadata)
    requires CountsRight(View(p))
    ensures CountsRight(View(SetMetadata(p, id, metadata).pub)) <==> Permitted(p, OpSetMetadata(id, metadata))
  {
    hide KeepsUse;
    ViewAt(p, id);
    if id in p.locals {
      var e := StandingOf(id, p.locals[id].(metadata := metadata));
      ViewProper(p);
      SetMetadataView(p, id, metadata);
      assert Counted(View(p), id);
      hide CountsRight, View;
      OwnChangeExactly(View(p), id, e);
    }
  }

  lemma NotifyView(p: Publisher, id: string)
    requires id in p.locals
    ensures View(Notify(p, id).pub) == View(p)
  {
    RefreshView(p, id);
    var r := Refresh(p, id);
    hide Refresh, View;
    ViewWith(r, id, r.locals[id].(valueIndex := 0));
    ViewAt(r, id);
  }

  lemma PublishView(p: Publisher, id: string, time: int64, count: nat, data: seq<byte>)
    ensures View(Publish(p, id, time, count, data).pub) == View(p)
  {
    if id in p.locals && p.locals[id].connected {
      var q := Retime(p, id, time).pub;
      assert View(q) == View(p);
      AdvanceView(q, id, count);
    }
  }

  lemma AdvanceView(p: Publisher, id: string, count: nat)
    requires id in p.locals
    ensures View(Advance(p, id, count)) == View(p)
  {
  }

  // ----- every run -----

  /** A run in which every step is permitted. */
  ghost predicate AllPermitted(ops: seq<Op>) {
    ops != [] ==> AllPermitted(ops[..|ops| - 1]) && Permitted(Run(ops[..|ops| - 1]).pub, ops[|ops| - 1])
  }

  /** The counts are right after every step of a run. */
  ghost predicate AlwaysRight(ops: seq<Op>) {
    forall k | 0 <= k <= |ops| :: CountsRight(View(Run(ops[..k]).pub))
  }

  /** Reference-count conservation: in any run whatever, the counts are right all along if and only if every
      step is permitted. */
  lemma {:induction false} CountsConserved(ops: seq<Op>)
    ensures AllPermitted(ops) <==> AlwaysRight(ops)
    ensures AllPermitted(ops) ==> CountsRight(View(Run(ops).pub))
  {
    if ops == [] {
      assert View(START) == map[];
    } else {
      hide CountsRight, Permitted, Apply;
      var front := ops[..|ops| - 1];
      CountsConserved(front);
      AlwaysRightStep(ops);
      if AlwaysRight(front) {
        PermittedExactly(Run(front).pub, ops[|ops| - 1]);
      }
    }
  }

  lemma AlwaysRightStep(ops: seq<Op>)
    requires ops != []
    ensures AlwaysRight(ops) <==> AlwaysRight(ops[..|ops| - 1]) && CountsRight(View(Run(ops).pub))
    ensures AlwaysRight(ops[..|ops| - 1]) ==> CountsRight(View(Run(ops[..|ops| - 1]).pub))
  {
    hide CountsRight, Run;
    var front := ops[..|ops| - 1];
    assert ops[..|ops|] == ops && front[..|front|] == front;
    assert forall k | 0 <= k <= |front| :: front[..k] == ops[..k];
  }

  // ----- steps keep domains from naming domains -----

  lemma Expected(s: Standings, id: string)
    requires Balanced(s) && id in s
    ensures s[id].connected <==> s[id].Subscribed()
    ensures FitsIn(s, id, s[id].domain)
  {
    assert Counted(s, id);
    if s[id].domain != "" && s[id].domain != id {
      assert Names(s, id, s[id].domain);
      assert forall v | v in s :: Names(s, v, id) ==> s[id].domain == "";
    }
  }

  lemma FlatWith(s: Standings, id: string, e: Standing)
    requires Flat(s) && FitsIn(s, id, e.domain) && (e.domain == id ==> id == "")
    ensures Flat(s[id := e])
  {
    var q := s[id := e];
    forall u, v | u in q && v in q && Names(q, u, v) ensures q[v].domain == "" {
      assert u != id ==> Names(s, u, v);
    }
  }

  /** No signal gets another domain. */
  lemma FlatStays(s: Standings, q: Standings)
    requires Flat(s) && q.Keys <= s.Keys && forall v | v in q :: q[v].domain == s[v].domain
    ensures Flat(q)
  {
    forall u, v | Names(q, u, v) && v in q ensures q[v].domain == "" {
      assert Names(s, u, v);
    }
  }

  lemma SubscribedAlong(s: Standings, id: string, explicitly: bool)
    ensures var q := SubscribeView(s, id, explicitly);
            q.Keys == s.Keys && forall v | v in s :: q[v].domain == s[v].domain
  {
  }

  lemma UnsubscribedAlong(s: Standings, id: string)
    ensures var q := UnsubscribeView(s, id, true);
            q.Keys == s.Keys && forall v | v in s :: q[v].domain == s[v].domain
  {
    if id in s && s[id].implicitly == 0 && s[id].domain != "" {
      UnsubscribeStep(s, id);
      WithdrawnAlong(Off(s, id), s[id].domain);
    }
  }

  lemma ApplyFlat(p: Publisher, op: Op)
    requires Flat(View(p)) && Shapely(p, op)
    ensures Flat(View(Apply(p, op).pub))
  {
    var s := View(p);
    match op
    case OpAdd(id, metadata) =>
      if id !in p.locals {
        AddView(p, id, metadata);
        FlatWith(s, id, Standing(if Foreign(id, metadata) then metadata.tableId else "", false, 0, false));
      }
    case OpRemove(id) => FlatStays(s, View(RemoveLocal(p, id).pub));
    case OpHello => assert View(Hello(p).pub) == s;
    case OpSubscribe(id) =>
      SubscribeLocalView(p, id, true);
      SubscribedAlong(s, id, true);
      FlatStays(s, SubscribeView(s, id, true));
    case OpUnsubscribe(id) =>
      UnsubscribeLocalView(p, id, true);
      UnsubscribedAlong(s, id);
      FlatStays(s, UnsubscribeView(s, id, true));
    case OpSetMetadata(id, metadata) =>
      if id in p.locals {
        SetMetadataView(p, id, metadata);
        FlatWith(s, id, StandingOf(id, p.locals[id].(metadata := metadata)));
      }
    case OpPublish(id, time, count, data) => PublishView(p, id, time, count, data);
  }

  lemma ApplyBalanced(p: Publisher, op: Op)
    requires Balanced(View(p)) && Permitted(p, op) && Shapely(p, op)
    ensures Balanced(View(Apply(p, op).pub))
  {
    hide Flat, CountsRight, View, Permitted, Shapely, Apply;
    PermittedExactly(p, op);
    ApplyFlat(p, op);
  }

  lemma StartBalanced()
    ensures Balanced(View(START))
  {
    assert View(START) == map[];
  }

  /** Where no domain names a domain, an unsubscription keeps the counts right exactly when it withdraws a
      subscription that was made, or the signal has no registered domain. */
  lemma UnsubscribeFlatExactly(p: Publisher, id: string)
    requires Balanced(View(p))
    ensures CountsRight(View(UnsubscribeLocal(p, id, true).pub)) <==> !Unfounded(View(p), id)
  {
    var s := View(p);
    ViewProper(p);
    UnsubscribeLocalView(p, id, true);
    hide View;
    UnsubscribeExactly(s, id);
    FoundedExactly(s, id);
  }

  lemma FoundedExactly(s: Standings, id: string)
    requires Balanced(s)
    ensures MayUnsubscribe(s, id) <==> !Unfounded(s, id)
  {
    if id in s && !Unregistered(s, s[id].domain) {
      NamersAreNotDomains(s, id);
      assert Names(s, id, s[id].domain);
    }
  }
}
