/** What the receiving application is told about a signal, whatever messages arrive in whatever order:
    its events come in pairs, an ending after every beginning. */
module Announcements {
  import opened LinearTables
  import opened Publishers
  import opened Receivers

  /** Reads a log of events for one pair of beginning and ending: whether it has begun, or None once a
      beginning or an ending came out of turn. */
  function Alternation(log: seq<Announcement>, begin: Announcement, end: Announcement): Option<bool> {
    if log == [] then Some(false)
    else
      var before := Alternation(log[..|log| - 1], begin, end);
      var last := log[|log| - 1];
      if last == begin then if before == Some(false) then Some(true) else None
      else if last == end then if before == Some(true) then Some(false) else None
      else before
  }

  lemma AlternationNext(log: seq<Announcement>, x: Announcement, begin: Announcement, end: Announcement)
    ensures Alternation(log + [x], begin, end) ==
            var before := Alternation(log, begin, end);
            if x == begin then if before == Some(false) then Some(true) else None
            else if x == end then if before == Some(true) then Some(false) else None
            else before
  {
    assert (log + [x])[..|log|] == log;
  }

  /** How often an event was told. */
  function Times(log: seq<Announcement>, x: Announcement): nat {
    if log == [] then 0
    else Times(log[..|log| - 1], x) + if log[|log| - 1] == x then 1 else 0
  }

  lemma TimesNext(log: seq<Announcement>, y: Announcement, x: Announcement)
    ensures Times(log + [y], x) == Times(log, x) + if y == x then 1 else 0
  {
    assert (log + [y])[..|log|] == log;
  }

  predicate IsVisible(r: Receiver, id: string) {
    id in r.signals && !r.signals[id].hidden
  }

  predicate IsSubscribed(r: Receiver, id: string) {
    id in r.signals && r.signals[id].subscribed
  }

  /** The events told so far alternate for a signal, and match what it is now. */
  predicate Truthful(r: Receiver, id: string) {
    && Alternation(r.events, Announced(id), Withdrawn(id)) == Some(IsVisible(r, id))
    && Alternation(r.events, Subscribed(id), Unsubscribed(id)) == Some(IsSubscribed(r, id))
  }

  lemma OneEvent(r: Receiver, q: Receiver, x: Announcement, id: string)
    requires Truthful(r, id) && q.events == r.events + [x]
    requires IsVisible(q, id) == if x == Announced(id) then true else if x == Withdrawn(id) then false else IsVisible(r, id)
    requires IsSubscribed(q, id) == if x == Subscribed(id) then true else if x == Unsubscribed(id) then false else IsSubscribed(r, id)
    requires x == Announced(id) ==> !IsVisible(r, id)
    requires x == Withdrawn(id) ==> IsVisible(r, id)
    requires x == Subscribed(id) ==> !IsSubscribed(r, id)
    requires x == Unsubscribed(id) ==> IsSubscribed(r, id)
    ensures Truthful(q, id)
  {
    hide Alternation, IsVisible, IsSubscribed;
    AlternationNext(r.events, x, Announced(id), Withdrawn(id));
    AlternationNext(r.events, x, Subscribed(id), Unsubscribed(id));
  }

  lemma NoEvent(r: Receiver, q: Receiver, id: string)
    requires Truthful(r, id) && q.events == r.events
    requires IsVisible(q, id) == IsVisible(r, id) && IsSubscribed(q, id) == IsSubscribed(r, id)
    ensures Truthful(q, id)
  {
  }

  lemma AnnounceTruthful(r: Receiver, newId: string, id: string)
    requires Truthful(r, id)
    ensures Truthful(Announce(r, newId), id)
  {
    hide Truthful;
    if !IsVisible(r, newId) {
      OneEvent(r, Announce(r, newId), Announced(newId), id);
    }
  }

  lemma {:induction false} AvailableTruthful(r: Receiver, ids: seq<string>, id: string)
    requires Truthful(r, id)
    ensures Truthful(HandleAvailable(r, ids), id)
  {
    hide Truthful, Announce;
    if ids != [] {
      AvailableTruthful(r, ids[..|ids| - 1], id);
      AnnounceTruthful(HandleAvailable(r, ids[..|ids| - 1]), ids[|ids| - 1], id);
    }
  }

  lemma WithdrawTruthful(r: Receiver, gone: string, id: string)
    requires Truthful(r, id)
    ensures Truthful(Withdraw(r, gone), id)
  {
    hide Truthful;
    if gone in r.signals {
      var s := r.signals[gone];
      var q := r.(signals := r.signals[gone := s.(subscribed := false)],
                  events := r.events + if s.subscribed then [Unsubscribed(gone)] else []);
      if s.subscribed {
        OneEvent(r, q, Unsubscribed(gone), id);
      } else {
        assert q.events == r.events;
        NoEvent(r, q, id);
      }
      if s.hidden {
        assert Withdraw(r, gone).events == q.events;
        NoEvent(q, Withdraw(r, gone), id);
      } else {
        assert Withdraw(r, gone).events == q.events + [Withdrawn(gone)];
        OneEvent(q, Withdraw(r, gone), Withdrawn(gone), id);
      }
    }
  }

  lemma {:induction false} UnavailableTruthful(r: Receiver, ids: seq<string>, id: string)
    requires Truthful(r, id)
    ensures Truthful(HandleUnavailable(r, ids), id)
  {
    hide Truthful, Withdraw;
    if ids != [] {
      UnavailableTruthful(r, ids[..|ids| - 1], id);
      WithdrawTruthful(HandleUnavailable(r, ids[..|ids| - 1]), ids[|ids| - 1], id);
    }
  }

  lemma SubscribeTruthful(r: Receiver, signo: nat, newId: string, id: string)
    requires Truthful(r, id)
    ensures Truthful(HandleSubscribe(r, signo, newId), id)
  {
    hide Truthful;
    if newId != "" {
      if IsSubscribed(r, newId) {
        NoEvent(r, HandleSubscribe(r, signo, newId), id);
      } else {
        OneEvent(r, HandleSubscribe(r, signo, newId), Subscribed(newId), id);
      }
    }
  }

  lemma UnsubscribeTruthful(r: Receiver, signo: nat, id: string)
    requires Truthful(r, id)
    ensures Truthful(HandleUnsubscribe(r, signo), id)
  {
    hide Truthful;
    var found := Find(r, signo);
    if found.Some? && IsSubscribed(r, found.value) {
      OneEvent(r, HandleUnsubscribe(r, signo), Unsubscribed(found.value), id);
    } else {
      NoEvent(r, HandleUnsubscribe(r, signo), id);
    }
  }

  lemma SignalTruthful(r: Receiver, signo: nat, metadata: Metadata, id: string)
    requires Truthful(r, id)
    ensures Truthful(HandleSignal(r, signo, metadata), id)
  {
    hide Truthful, FindTable;
    NoEvent(r, HandleSignal(r, signo, metadata), id);
  }

  lemma BlockTruthful(r: Receiver, m: Message, id: string)
    requires Truthful(r, id) && m.Block?
    ensures Truthful(Handle(r, m), id)
  {
    hide Truthful;
    NoEvent(r, HandleBlock(r, m.signo, m.bytes), id);
  }

  lemma HandleTruthful(r: Receiver, m: Message, id: string)
    requires Truthful(r, id)
    ensures Truthful(Handle(r, m), id)
  {
    hide Truthful;
    match m
    case Available(ids) => AvailableTruthful(r, ids, id);
    case Unavailable(ids) => UnavailableTruthful(r, ids, id);
    case Subscribe(signo, newId) => SubscribeTruthful(r, signo, newId, id);
    case Unsubscribe(signo, _) => UnsubscribeTruthful(r, signo, id);
    case Signal(signo, metadata) => SignalTruthful(r, signo, metadata, id);
    case Block(_, _) => BlockTruthful(r, m, id);
  }

  /** Announcement alternation, for any messages at all: a signal's available and unavailable events
      alternate, starting with available, and so do its subscribed and unsubscribed events; a hidden
      signal is not announced. */
  lemma {:induction false} EventsAlternate(ms: seq<Message>, id: string)
    ensures Truthful(HandleAll(NOBODY, ms), id)
  {
    if ms != [] {
      hide Truthful, Handle;
      EventsAlternate(ms[..|ms| - 1], id);
      HandleTruthful(HandleAll(NOBODY, ms[..|ms| - 1]), ms[|ms| - 1], id);
    }
  }

  // ----- a signal goes away only after its subscription ended -----

  /** Every time a signal was withdrawn its subscription, if it had one, had been ended. */
  predicate EndsFirst(log: seq<Announcement>, id: string) {
    forall i | 0 <= i < |log| && log[i] == Withdrawn(id) :: Alternation(log[..i], Subscribed(id), Unsubscribed(id)) == Some(false)
  }

  lemma EndsFirstNext(log: seq<Announcement>, x: Announcement, id: string)
    requires EndsFirst(log, id)
    requires x == Withdrawn(id) ==> Alternation(log, Subscribed(id), Unsubscribed(id)) == Some(false)
    ensures EndsFirst(log + [x], id)
  {
    hide Alternation;
    var more := log + [x];
    forall i | 0 <= i < |more| && more[i] == Withdrawn(id)
      ensures Alternation(more[..i], Subscribed(id), Unsubscribed(id)) == Some(false)
    {
      assert more[..i] == if i < |log| then log[..i] else log;
    }
  }

  lemma AnnounceEndsFirst(r: Receiver, newId: string, id: string)
    requires EndsFirst(r.events, id)
    ensures EndsFirst(Announce(r, newId).events, id)
  {
    hide EndsFirst;
    EndsFirstNext(r.events, Announced(newId), id);
  }

  lemma {:induction false} AvailableEndsFirst(r: Receiver, ids: seq<string>, id: string)
    requires EndsFirst(r.events, id)
    ensures EndsFirst(HandleAvailable(r, ids).events, id)
  {
    hide EndsFirst, Announce;
    if ids != [] {
      AvailableEndsFirst(r, ids[..|ids| - 1], id);
      AnnounceEndsFirst(HandleAvailable(r, ids[..|ids| - 1]), ids[|ids| - 1], id);
    }
  }

  lemma WithdrawEndsFirst(r: Receiver, gone: string, id: string)
    requires Truthful(r, id) && EndsFirst(r.events, id)
    ensures EndsFirst(Withdraw(r, gone).events, id)
  {
    hide EndsFirst, Alternation;
    if gone in r.signals {
      var s := r.signals[gone];
      var log := r.events + if s.subscribed then [Unsubscribed(gone)] else [];
      AlternationNext(r.events, Unsubscribed(gone), Subscribed(id), Unsubscribed(id));
      EndsFirstNext(r.events, Unsubscribed(gone), id);
      assert log == if s.subscribed then r.events + [Unsubscribed(gone)] else r.events;
      EndsFirstNext(log, if gone == id then Withdrawn(id) else Announced(id), id);
      assert Withdraw(r, gone).events == if s.hidden then log else log + [Withdrawn(gone)];
      if gone != id {
        EndsFirstNext(log, Withdrawn(gone), id);
      }
    }
  }

  lemma {:induction false} UnavailableEndsFirst(r: Receiver, ids: seq<string>, id: string)
    requires Truthful(r, id) && EndsFirst(r.events, id)
    ensures EndsFirst(HandleUnavailable(r, ids).events, id)
  {
    hide Truthful, EndsFirst, Withdraw;
    if ids != [] {
      UnavailableEndsFirst(r, ids[..|ids| - 1], id);
      UnavailableTruthful(r, ids[..|ids| - 1], id);
      WithdrawEndsFirst(HandleUnavailable(r, ids[..|ids| - 1]), ids[|ids| - 1], id);
    }
  }

  lemma HandleEndsFirst(r: Receiver, m: Message, id: string)
    requires Truthful(r, id) && EndsFirst(r.events, id)
    ensures EndsFirst(Handle(r, m).events, id)
  {
    hide Truthful, EndsFirst, FindTable;
    match m
    case Available(ids) => AvailableEndsFirst(r, ids, id);
    case Unavailable(ids) => UnavailableEndsFirst(r, ids, id);
    case Subscribe(signo, newId) => EndsFirstNext(r.events, Subscribed(newId), id);
    case Unsubscribe(signo, _) =>
      var found := Find(r, signo);
      if found.Some? {
        EndsFirstNext(r.events, Unsubscribed(found.value), id);
      }
    case Signal(_, _) =>
    case Block(_, _) =>
  }

  /** For any messages at all: whenever a signal is withdrawn, its subscription has been ended before. */
  lemma {:induction false} WithdrawnLast(ms: seq<Message>, id: string)
    ensures EndsFirst(HandleAll(NOBODY, ms).events, id)
  {
    if ms != [] {
      hide Truthful, EndsFirst, Handle;
      var front := ms[..|ms| - 1];
      WithdrawnLast(front, id);
      EventsAlternate(front, id);
      HandleEndsFirst(HandleAll(NOBODY, front), ms[|ms| - 1], id);
    } else {
      assert HandleAll(NOBODY, ms).events == [];
    }
  }

  lemma {:induction false} DetachEndsFirst(r: Receiver, ids: seq<string>, log: seq<Announcement>, id: string)
    requires EndsFirst(log, id)
    ensures EndsFirst(log + Detached(r, ids), id)
  {
    hide EndsFirst;
    if ids == [] {
      assert log + [] == log;
    } else {
      var before := log + Detached(r, ids[..|ids| - 1]);
      DetachEndsFirst(r, ids[..|ids| - 1], log, id);
      EndsFirstNext(before, Unsubscribed(ids[|ids| - 1]), id);
      assert log + Detached(r, ids) == before || log + Detached(r, ids) == before + [Unsubscribed(ids[|ids| - 1])];
    }
  }

  lemma {:induction false} WithdrawalEndsFirst(r: Receiver, ids: seq<string>, log: seq<Announcement>, id: string)
    requires EndsFirst(log, id) && Alternation(log, Subscribed(id), Unsubscribed(id)) == Some(false)
    ensures EndsFirst(log + AllWithdrawn(r, ids), id)
    ensures Alternation(log + AllWithdrawn(r, ids), Subscribed(id), Unsubscribed(id)) == Some(false)
  {
    hide EndsFirst, Alternation;
    if ids == [] {
      assert log + [] == log;
    } else {
      var before, last := log + AllWithdrawn(r, ids[..|ids| - 1]), ids[|ids| - 1];
      WithdrawalEndsFirst(r, ids[..|ids| - 1], log, id);
      EndsFirstNext(before, Withdrawn(last), id);
      AlternationNext(before, Withdrawn(last), Subscribed(id), Unsubscribed(id));
      assert log + AllWithdrawn(r, ids) == before || log + AllWithdrawn(r, ids) == before + [Withdrawn(last)];
    }
  }

  /** When the connection closes too: the subscriptions are ended before anything is withdrawn. */
  lemma CloseWithdrawsLast(ms: seq<Message>, ids: seq<string>, id: string)
    requires Enumerates(ids, HandleAll(NOBODY, ms))
    ensures EndsFirst(Close(HandleAll(NOBODY, ms), ids).events, id)
  {
    hide Alternation, Times, HandleAll, Detached, AllWithdrawn, EndsFirst;
    var r := HandleAll(NOBODY, ms);
    EventsAlternate(ms, id);
    WithdrawnLast(ms, id);
    AscendingDistinct(ids);
    DetachTells(r, ids, r.events, id);
    DetachEndsFirst(r, ids, r.events, id);
    WithdrawalEndsFirst(r, ids, r.events + Detached(r, ids), id);
  }

  /** The withdrawals of a connection that closes are told in the order of the ids. */
  lemma {:induction false} WithdrawnInOrder(r: Receiver, ids: seq<string>, i: nat, j: nat)
    requires forall a, b | 0 <= a < b < |ids| :: Less(ids[a], ids[b])
    requires i < j < |AllWithdrawn(r, ids)|
    ensures var log := AllWithdrawn(r, ids);
            log[i].Withdrawn? && log[j].Withdrawn? && Less(log[i].id, log[j].id)
  {
    var front, last := ids[..|ids| - 1], ids[|ids| - 1];
    if j < |AllWithdrawn(r, front)| {
      WithdrawnInOrder(r, front, i, j);
    } else {
      WithdrawnAmong(r, front, i);
    }
  }

  lemma {:induction false} WithdrawnAmong(r: Receiver, ids: seq<string>, i: nat)
    requires i < |AllWithdrawn(r, ids)|
    ensures AllWithdrawn(r, ids)[i].Withdrawn? && AllWithdrawn(r, ids)[i].id in ids
  {
    var front := ids[..|ids| - 1];
    if i < |AllWithdrawn(r, front)| {
      WithdrawnAmong(r, front, i);
    }
  }

  /** So an ending that is told after a withdrawal is that of a subscription made after it. */
  lemma {:induction false} NoStaleEnding(log: seq<Announcement>, id: string, i: nat, j: nat) returns (k: nat)
    requires EndsFirst(log, id) && Alternation(log, Subscribed(id), Unsubscribed(id)).Some?
    requires i < j < |log| && log[i] == Withdrawn(id) && log[j] == Unsubscribed(id)
    ensures i < k < j && log[k] == Subscribed(id)
  {
    PrefixAlternates(log, Subscribed(id), Unsubscribed(id), j + 1);
    assert log[..j + 1][..j] == log[..j];
    k := Beginning(log, id, i, j);
  }

  lemma {:induction false} PrefixAlternates(log: seq<Announcement>, begin: Announcement, end: Announcement, n: nat)
    requires n <= |log| && Alternation(log, begin, end).Some?
    ensures Alternation(log[..n], begin, end).Some?
  {
    if n < |log| {
      PrefixAlternates(log[..|log| - 1], begin, end, n);
      assert log[..|log| - 1][..n] == log[..n];
    } else {
      assert log[..n] == log;
    }
  }

  /** Between a moment without a subscription and one with a subscription it was begun. */
  lemma {:induction false} Beginning(log: seq<Announcement>, id: string, i: nat, j: nat) returns (k: nat)
    requires EndsFirst(log, id) && i < j <= |log| && log[i] == Withdrawn(id)
    requires Alternation(log[..j], Subscribed(id), Unsubscribed(id)) == Some(true)
    ensures i < k < j && log[k] == Subscribed(id)
  {
    assert log[..j][..j - 1] == log[..j - 1];
    if log[j - 1] == Subscribed(id) && j - 1 > i {
      k := j - 1;
    } else {
      if j == i + 1 {
        assert false;
      }
      k := Beginning(log, id, i, j - 1);
    }
  }

  /** The order of a container: its ids, ascending. */
  ghost predicate Enumerates(ids: seq<string>, r: Receiver) {
    && (forall id :: id in ids <==> id in r.signals)
    && (forall i, j | 0 <= i < j < |ids| :: Less(ids[i], ids[j]))
  }

  lemma AscendingDistinct(ids: seq<string>)
    requires forall i, j | 0 <= i < j < |ids| :: Less(ids[i], ids[j])
    ensures forall i, j | 0 <= i < j < |ids| :: ids[i] != ids[j]
  {
    forall i, j | 0 <= i < j < |ids| ensures ids[i] != ids[j] {
      LessIrreflexive(ids[i]);
    }
  }

  /** Closing first ends the subscriptions. */
  lemma {:induction false} DetachTells(r: Receiver, ids: seq<string>, log: seq<Announcement>, id: string)
    requires forall i, j | 0 <= i < j < |ids| :: ids[i] != ids[j]
    requires id in ids && IsSubscribed(r, id) ==> Alternation(log, Subscribed(id), Unsubscribed(id)) == Some(true)
    ensures Alternation(log + Detached(r, ids), Announced(id), Withdrawn(id)) == Alternation(log, Announced(id), Withdrawn(id))
    ensures Alternation(log + Detached(r, ids), Subscribed(id), Unsubscribed(id)) ==
            if id in ids && IsSubscribed(r, id) then Some(false) else Alternation(log, Subscribed(id), Unsubscribed(id))
    ensures Times(log + Detached(r, ids), Withdrawn(id)) == Times(log, Withdrawn(id))
  {
    hide Alternation, Times;
    if ids == [] {
      assert log + [] == log;
    } else {
      var front, last := ids[..|ids| - 1], ids[|ids| - 1];
      assert ids == front + [last];
      DetachTells(r, front, log, id);
      var before := log + Detached(r, front);
      TimesNext(before, Unsubscribed(last), Withdrawn(id));
      AlternationNext(before, Unsubscribed(last), Announced(id), Withdrawn(id));
      AlternationNext(before, Unsubscribed(last), Subscribed(id), Unsubscribed(id));
      if IsSubscribed(r, last) {
        assert log + Detached(r, ids) == before + [Unsubscribed(last)];
      } else {
        assert log + Detached(r, ids) == before;
      }
    }
  }

  /** Then it withdraws what had been announced. */
  lemma {:induction false} WithdrawalTells(r: Receiver, ids: seq<string>, log: seq<Announcement>, id: string)
    requires forall i, j | 0 <= i < j < |ids| :: ids[i] != ids[j]
    requires id in ids && IsVisible(r, id) ==> Alternation(log, Announced(id), Withdrawn(id)) == Some(true)
    ensures Alternation(log + AllWithdrawn(r, ids), Subscribed(id), Unsubscribed(id)) ==
            Alternation(log, Subscribed(id), Unsubscribed(id))
    ensures Alternation(log + AllWithdrawn(r, ids), Announced(id), Withdrawn(id)) ==
            if id in ids && IsVisible(r, id) then Some(false) else Alternation(log, Announced(id), Withdrawn(id))
    ensures Times(log + AllWithdrawn(r, ids), Withdrawn(id)) ==
            Times(log, Withdrawn(id)) + if id in ids && IsVisible(r, id) then 1 else 0
  {
    hide Alternation, Times;
    if ids == [] {
      assert log + [] == log;
    } else {
      var front, last := ids[..|ids| - 1], ids[|ids| - 1];
      assert ids == front + [last];
      WithdrawalTells(r, front, log, id);
      var before := log + AllWithdrawn(r, front);
      TimesNext(before, Withdrawn(last), Withdrawn(id));
      AlternationNext(before, Withdrawn(last), Announced(id), Withdrawn(id));
      AlternationNext(before, Withdrawn(last), Subscribed(id), Unsubscribed(id));
      if IsVisible(r, last) {
        assert log + AllWithdrawn(r, ids) == before + [Withdrawn(last)];
      } else {
        assert log + AllWithdrawn(r, ids) == before;
      }
    }
  }

  /** Closing ends everything that had begun: each signal still announced gets exactly one unavailable
      event, and no other signal gets any. */
  lemma CloseEndsEverything(ms: seq<Message>, ids: seq<string>, id: string)
    requires Enumerates(ids, HandleAll(NOBODY, ms))
    ensures var r, q := HandleAll(NOBODY, ms), Close(HandleAll(NOBODY, ms), ids);
            && Truthful(q, id) && !IsVisible(q, id) && !IsSubscribed(q, id)
            && Times(q.events, Withdrawn(id)) == Times(r.events, Withdrawn(id)) + if IsVisible(r, id) then 1 else 0
  {
    hide Alternation, Times, HandleAll, Detached, AllWithdrawn;
    var r := HandleAll(NOBODY, ms);
    EventsAlternate(ms, id);
    AscendingDistinct(ids);
    DetachTells(r, ids, r.events, id);
    WithdrawalTells(r, ids, r.events + Detached(r, ids), id);
  }
}
