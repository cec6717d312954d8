/** How a ban ends: by a call that lifts it or by running out, and in no other way; and what lifting leaves behind. */
module AutoBanLifting {
  import opened Common
  import opened AutoBanModel
  import opened AutoBanRuns

  /** A call that lifts the ban on `s`, if there is one. */
  predicate Lifts(e: Event, s: IpAddr) {
    e.call == Unban(s) || e.call.Disable? || (e.call.LiftSources? && s in e.call.sources)
  }

  ghost predicate NeverRaised(st: Store, events: seq<Event>, s: IpAddr) {
    forall k :: 0 <= k < |events| ==> !RaisedBy(Run(st, events[..k]), events[k], s)
  }

  lemma {:induction false} NoBanUnlessRaised(st: Store, events: seq<Event>, s: IpAddr)
    requires s !in st.bans && NeverRaised(st, events, s)
    ensures s !in Run(st, events).bans
  {
    if events != [] {
      var init, e := events[..|events|-1], events[|events|-1];
      assert NeverRaised(st, init, s) by {
        forall k | 0 <= k < |init| ensures !RaisedBy(Run(st, init[..k]), init[k], s) {
          assert init[..k] == events[..k] && init[k] == events[k];
        }
      }
      NoBanUnlessRaised(st, init, s);
      assert events[..|init|] == init;
      if s in Run(st, events).bans {
        BanStep(Run(st, init), e, s);
      }
    }
  }

  /** A lifted source is in neither table, and unbanned for as long as no later signal bans it anew. */
  lemma LiftedUntilRaised(st: Store, e: Event, events: seq<Event>, s: IpAddr)
    requires Lifts(e, s)
    ensures s !in After(st, e).failures && s !in After(st, e).bans
    ensures NeverRaised(After(st, e), events, s) ==> s !in Run(After(st, e), events).bans
  {
    if NeverRaised(After(st, e), events, s) {
      NoBanUnlessRaised(After(st, e), events, s);
    }
  }

  /** A disabled store stays empty, whatever is recorded, until a policy is set again. */
  lemma {:induction false} DisabledIsEmpty(st: Store, now: Time, trusted: set<IpAddr>, events: seq<Event>)
    requires forall i :: 0 <= i < |events| ==> !events[i].call.SetPolicy?
    ensures Run(After(st, Event(now, trusted, Disable)), events) == Store(map[], map[], None)
  {
    if events != [] {
      DisabledIsEmpty(st, now, trusted, events[..|events|-1]);
      assert !events[|events|-1].call.SetPolicy?;
      EmptyStays(events[|events|-1]);
    }
  }

  lemma EmptyStays(e: Event)
    requires !e.call.SetPolicy?
    ensures After(Store(map[], map[], None), e) == Store(map[], map[], None)
  {
  }

  lemma LiveBanStep(st: Store, e: Event, s: IpAddr)
    requires LiveBan(st, s, e.now) && !Lifts(e, s)
    ensures s in After(st, e).bans && After(st, e).bans[s].expiry >= st.bans[s].expiry
  {
  }

  /** A live ban lasts at least until its expiry, through any calls that do not lift it. */
  lemma {:induction false} BansLast(st: Store, events: seq<Event>, s: IpAddr, start: Time)
    requires LiveBan(st, s, start) && Timed(start, events) && Clock(start, events) < st.bans[s].expiry
    requires forall i :: 0 <= i < |events| ==> !Lifts(events[i], s)
    ensures LiveBan(Run(st, events), s, Clock(start, events))
    ensures Run(st, events).bans[s].expiry >= st.bans[s].expiry
  {
    if events != [] {
      var init, e := events[..|events|-1], events[|events|-1];
      BansLast(st, init, s, start);
      assert !Lifts(events[|events|-1], s);
      LiveBanStep(Run(st, init), e, s);
    }
  }

  /** The call looks at the ban on `s`: a check or a signal that trust does not spare, or a prune. */
  predicate LooksAt(st: Store, e: Event, s: IpAddr) {
    || (e.call == IsBanned(s) && s !in e.trusted)
    || (e.call.Record? && e.call.source == s && CountedWeight(st, e.call.signal, s in e.trusted) > 0)
    || e.call.Prune?
  }

  /** A lapsed ban does not survive being looked at, and nothing else removes one that is not lifted. */
  lemma LapsedIsReapedIff(st: Store, e: Event, s: IpAddr)
    requires s in st.bans && st.bans[s].expiry <= e.now && !Lifts(e, s) && !RaisedBy(st, e, s)
    ensures s !in After(st, e).bans <==> LooksAt(st, e, s)
  {
  }

  lemma FewerRows<V>(rows: map<IpAddr, V>, gone: set<IpAddr>)
    ensures |rows| == |rows - gone| + |rows.Keys * gone|
  {
    assert rows.Keys == (rows - gone).Keys + rows.Keys * gone;
    assert |rows| == |rows.Keys| && |rows - gone| == |(rows - gone).Keys|;
  }

  /** The count a lifting call returns is the number of bans it took away. */
  lemma RemovedIsTheDifference(st: Store, e: Event)
    requires e.call.Unban? || e.call.LiftSources?
    ensures OutputOf(st, e) == Removed(|st.bans| - |After(st, e).bans|)
  {
    var gone := if e.call.Unban? then {e.call.source} else e.call.sources;
    FewerRows(st.bans, gone);
    assert e.call.Unban? ==> st.bans.Keys * gone == if e.call.source in st.bans then gone else {};
  }
}
