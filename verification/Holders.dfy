/** Subscribe holders: one for each connection that holds a local signal subscribed. Whatever happens to
    them, the signal's count is their number, and its two events alternate. */
module Holders {
  import opened Bytes

  datatype HolderEvent = OnSubscribed | OnUnsubscribed

  /** The events come in turn, starting with OnSubscribed. */
  predicate Alternate(events: seq<HolderEvent>) {
    forall i | 0 <= i < |events| :: events[i] == if i % 2 == 0 then OnSubscribed else OnUnsubscribed
  }

  /** A signal's subscribe count and the events told so far. */
  datatype Tally = Tally(count: uint32, events: seq<HolderEvent>) {
    /** One holder more. */
    function Up(): Tally {
      Tally((count + 1) % 0x1_0000_0000, if count == 0 then events + [OnSubscribed] else events)
    }

    /** One holder less. */
    function Down(): Tally {
      Tally((count - 1) % 0x1_0000_0000, if count == 1 then events + [OnUnsubscribed] else events)
    }

    /** The events alternate, and the last one says whether anyone is subscribed. */
    predicate Sound() {
      Alternate(events) && (|events| % 2 == 1 <==> count > 0)
    }
  }

  class LocalSignal {
    var subscribeCount: uint32
    var events: seq<HolderEvent>
    ghost var holders: set<SubscribeHolder>

    function State(): Tally
      reads this
    {
      Tally(subscribeCount, events)
    }

    /** The count is the number of holders. */
    ghost predicate Valid()
      reads this, holders
    {
      && subscribeCount == |holders| && State().Sound()
      && (forall h | h in holders :: h.signal == this)
    }

    constructor ()
      ensures Valid() && holders == {} && State() == Tally(0, [])
    {
      subscribeCount, events, holders := 0, [], {};
    }

    method IncrementSubscribeCount() returns (holder: SubscribeHolder)
      requires Valid() && |holders| < 0xFFFF_FFFF
      modifies this
      ensures Valid() && fresh(holder) && holder.signal == this && holders == old(holders) + {holder}
      ensures State() == old(State()).Up()
    {
      holder := new SubscribeHolder(this);
    }
  }

  class SubscribeHolder {
    var signal: LocalSignal?

    /** A holder is one of the holders of the signal it tracks. */
    ghost predicate Valid()
      reads this, signal, if signal != null then signal.holders else {}
    {
      signal != null ==> this in signal.holders && signal.Valid()
    }

    constructor Empty()
      ensures signal == null && Valid()
    {
      signal := null;
    }

    constructor (s: LocalSignal)
      requires s.Valid() && |s.holders| < 0xFFFF_FFFF
      modifies s
      ensures signal == s && s.Valid() && s.holders == old(s.holders) + {this} && s.State() == old(s.State()).Up()
    {
      signal := s;
      new;
      s.holders := s.holders + {this};
      s.subscribeCount := s.subscribeCount + 1;
      if s.subscribeCount == 1 {
        s.events := s.events + [OnSubscribed];
      }
    }

    /** Takes over what another holder tracks; nobody is told. */
    constructor Moved(rhs: SubscribeHolder)
      requires rhs.Valid()
      modifies rhs, rhs.signal
      ensures rhs.signal == null && signal == old(rhs.signal)
      ensures signal != null ==>
                && signal.Valid() && signal.holders == old(rhs.signal.holders) - {rhs} + {this}
                && signal.State() == old(rhs.signal.State())
    {
      signal := null;
      new;
      TakeOver(rhs);
    }

    /** Exchanges what the two holders track, this one tracking nothing. */
    method TakeOver(rhs: SubscribeHolder)
      requires signal == null && rhs.Valid()
      requires rhs.signal != null ==> this !in rhs.signal.holders
      modifies this, rhs, rhs.signal
      ensures rhs.signal == null && signal == old(rhs.signal)
      ensures signal != null ==>
                && signal.Valid() && signal.holders == old(rhs.signal.holders) - {rhs} + {this}
                && signal.State() == old(rhs.signal.State())
    {
      signal, rhs.signal := rhs.signal, null;
      if signal != null {
        signal.holders := signal.holders - {rhs} + {this};
      }
    }

    /** Move assignment: lets go of what is tracked, then takes over. Assigning a holder to itself closes it. */
    method Assign(rhs: SubscribeHolder)
      requires Valid() && rhs.Valid()
      modifies this, rhs, signal, rhs.signal
      ensures rhs != this ==> signal == old(rhs.signal)
      ensures rhs.signal == null
      ensures signal != null ==> signal.Valid() && this in signal.holders && rhs !in signal.holders
      ensures old(signal) != null && old(signal) != signal ==>
                old(signal).Valid() && old(signal).holders == old(signal.holders) - {this}
      ensures old(signal) != null && old(signal) == signal ==> signal.holders == old(signal.holders) - {rhs}
      ensures old(rhs.signal) != null && old(rhs.signal) != old(signal) ==>
                && old(rhs.signal).holders == old(rhs.signal.holders) - {rhs} + {this}
                && old(rhs.signal).State() == old(rhs.signal.State())
      ensures old(signal) != null ==> old(signal).State() == old(signal.State()).Down()
    {
      Close();
      if rhs != this {
        TakeOver(rhs);
      }
    }

    /** Stops tracking; the last holder to go tells that the signal is not subscribed any more. */
    method Close()
      requires Valid()
      modifies this, signal
      ensures signal == null
      ensures var s := old(signal);
              s != null ==>
                && s.Valid() && s.holders == old(signal.holders) - {this}
                && s.State() == old(signal.State()).Down()
    {
      if signal != null {
        signal.subscribeCount := signal.subscribeCount - 1;
        signal.holders := signal.holders - {this};
        if signal.subscribeCount == 0 {
          signal.events := signal.events + [OnUnsubscribed];
        }
        signal := null;
      }
    }
  }

  /** Every signal is valid, and every holder tracks one of them or nothing. */
  ghost predicate AllTracked(held: set<SubscribeHolder>, signals: set<LocalSignal>)
    reads held, signals, set s, h | s in signals && h in s.holders :: h
  {
    && (forall s | s in signals :: s.Valid())
    && forall h | h in held :: h.signal != null ==> h.signal in signals && h in h.signal.holders
  }

  function Elements(held: seq<SubscribeHolder>): set<SubscribeHolder> {
    set h | h in held
  }

  method CloseOne(holder: SubscribeHolder, ghost held: set<SubscribeHolder>, ghost signals: set<LocalSignal>)
    requires holder in held && AllTracked(held, signals)
    modifies holder, holder.signal
    ensures AllTracked(held, signals) && holder.signal == null
    ensures forall s | s in signals :: s.holders == old(s.holders) - {holder}
    ensures forall h | h in held && h != holder :: h.signal == old(h.signal)
  {
    ghost var tracked := holder.signal;
    assert forall s | s in signals && s != tracked :: holder !in s.holders;
    assert holder.Valid();
    holder.Close();
    assert forall s | s in signals && s != tracked :: unchanged(s) && s.Valid();
  }

  /** A connection that closes lets go of every signal it held, whichever connections hold them too. */
  method ClearLocalSignals(held: seq<SubscribeHolder>, ghost signals: set<LocalSignal>)
    requires AllTracked(Elements(held), signals)
    modifies held, signals
    ensures AllTracked(Elements(held), signals)
    ensures forall h | h in held :: h.signal == null
    ensures forall s | s in signals :: s.holders == old(s.holders) - Elements(held)
  {
    hide AllTracked;
    ghost var all := Elements(held);
    ghost var closed := {};
    for i := 0 to |held|
      invariant closed == Elements(held[..i])
      invariant AllTracked(all, signals)
      invariant forall s | s in signals :: s.holders == old(s.holders) - closed
      invariant forall h | h in closed :: h.signal == null
    {
      TrackedIn(held[i], all, signals);
      CloseOne(held[i], all, signals);
      closed := closed + {held[i]};
      assert held[..i + 1] == held[..i] + [held[i]];
    }
    assert held[..|held|] == held;
    assert all == closed;
  }

  lemma TrackedIn(holder: SubscribeHolder, held: set<SubscribeHolder>, signals: set<LocalSignal>)
    requires holder in held && AllTracked(held, signals)
    ensures holder.signal != null ==> holder.signal in signals
  {
  }
}
