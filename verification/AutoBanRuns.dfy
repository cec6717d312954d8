/** What every run of the auto-ban store keeps: the row discipline, and the bound on a
    sliding ban.
 */
module AutoBanRuns {
  import opened Common
  import opened AutoBanModel

  // ----- row discipline -----

  /** What holds of the two tables between calls, at any time from `now` on. */
  ghost predicate Rows(st: Store, now: Time) {
    && (forall s :: s in st.failures ==> s !in st.bans)
    && (forall s :: s in st.failures ==> st.failures[s].count >= 1 && st.failures[s].windowStart <= now)
    && (forall s :: s in st.bans ==> st.bans[s].expiry <= st.bans[s].hardDeadline)
    && (st.policy.None? ==> st.failures == map[])
  }

  lemma RecordKeepsRows(st: Store, source: IpAddr, signal: Signal, trusted: bool, before: Time, now: Time)
    requires Rows(st, before) && before <= now
    ensures Rows(RecordSignal(st, source, signal, trusted, now).0, now)
  {
    var after := RecordSignal(st, source, signal, trusted, now).0;
    forall s | s in after.failures
      ensures s !in after.bans && after.failures[s].count >= 1 && after.failures[s].windowStart <= now
    {
      if s != source {
        assert s in st.failures && after.failures[s] == st.failures[s];
      }
    }
    forall s | s in after.bans ensures after.bans[s].expiry <= after.bans[s].hardDeadline {
      if s != source {
        assert s in st.bans && after.bans[s] == st.bans[s];
      }
    }
  }

  lemma ApplyKeepsRows(st: Store, e: Event, before: Time)
    requires Rows(st, before) && before <= e.now
    ensures Rows(After(st, e), e.now)
  {
    if e.call.Record? {
      RecordKeepsRows(st, e.call.source, e.call.signal, e.call.source in e.trusted, before, e.now);
    } else {
      var after := After(st, e);
      assert forall s :: s in after.failures ==> s in st.failures && after.failures[s] == st.failures[s];
      assert forall s :: s in after.bans ==> s in st.bans && after.bans[s] == st.bans[s];
    }
  }

  /** No source is in both tables, every failure row counts something, and a removed policy leaves no row. */
  lemma {:induction false} RunKeepsRows(st: Store, events: seq<Event>, start: Time)
    requires Rows(st, start) && Timed(start, events)
    ensures Rows(Run(st, events), Clock(start, events))
  {
    if events != [] {
      var init := events[..|events|-1];
      RunKeepsRows(st, init, start);
      ApplyKeepsRows(Run(st, init), events[|events|-1], Clock(start, init));
    }
  }

  lemma FreshRows(p: Policy, now: Time)
    ensures Rows(Fresh(p), now)
  {
  }

  ghost predicate BelowThreshold(st: Store) {
    st.policy.Some? ==> forall s :: s in st.failures ==> st.failures[s].count < st.policy.value.threshold
  }

  /** Reloads that never lower the threshold. */
  ghost predicate ThresholdNeverFalls(st: Store, events: seq<Event>) {
    forall i :: 0 <= i < |events| && events[i].call.SetPolicy? ==>
                  var before := Run(st, events[..i]);
                  before.policy.Some? ==> before.policy.value.threshold <= events[i].call.policy.threshold
  }

  lemma ThresholdPrefix(st: Store, events: seq<Event>)
    requires ThresholdNeverFalls(st, events) && events != []
    ensures ThresholdNeverFalls(st, events[..|events|-1])
  {
    var init := events[..|events|-1];
    forall i | 0 <= i < |init| && init[i].call.SetPolicy?
      ensures var before := Run(st, init[..i]);
              before.policy.Some? ==> before.policy.value.threshold <= init[i].call.policy.threshold
    {
      assert init[..i] == events[..i] && init[i] == events[i];
    }
  }

  lemma ApplyKeepsBelowThreshold(st: Store, e: Event)
    requires BelowThreshold(st) && (st.policy.None? ==> st.failures == map[])
    requires e.call.SetPolicy? && st.policy.Some? ==> st.policy.value.threshold <= e.call.policy.threshold
    ensures BelowThreshold(After(st, e))
  {
    var after := After(st, e);
    if !e.call.Record? {
      assert forall s :: s in after.failures ==> s in st.failures && after.failures[s] == st.failures[s];
    } else {
      assert forall s :: s in after.failures && s != e.call.source ==>
          s in st.failures && after.failures[s] == st.failures[s];
    }
  }

  /** As long as no reload lowers the threshold, every failure row is below it. */
  lemma {:induction false} CountsStayBelowThreshold(p: Policy, events: seq<Event>)
    requires Timed(0, events) && ThresholdNeverFalls(Fresh(p), events)
    ensures BelowThreshold(Run(Fresh(p), events))
  {
    if events != [] {
      var init, e := events[..|events|-1], events[|events|-1];
      ThresholdPrefix(Fresh(p), events);
      CountsStayBelowThreshold(p, init);
      FreshRows(p, 0);
      RunKeepsRows(Fresh(p), init, 0);
      assert events[..|init|] == init;
      ApplyKeepsBelowThreshold(Run(Fresh(p), init), e);
    }
  }

  /** A counted signal reports a new ban exactly when it turns a source without a live ban into one with. */
  lemma NewlyBannedIsTheTransition(st: Store, e: Event)
    requires e.call.Record?
    ensures
      OutputOf(st, e) == Answer(!LiveBan(st, e.call.source, e.now) && LiveBan(After(st, e), e.call.source, e.now))
  {
  }

  // ----- the listing and the check agree -----

  /** `live_bans_at` lists exactly the sources `is_banned_at` calls banned, and a listed source
      is still banned `d` later, trust unchanged, exactly while `d` is less than its listed time. */
  lemma ListingMatchesCheck(st: Store, trusted: set<IpAddr>, now: Time, source: IpAddr, d: Time)
    ensures source in LiveBansAt(st, trusted, now) <==> CheckBanned(st, source, source in trusted, now).1
    ensures source in LiveBansAt(st, trusted, now) ==>
              (CheckBanned(st, source, source in trusted, now + d).1 <==> d < LiveBansAt(st, trusted, now)[source])
    ensures source in BannedSourcesAt(st, now) <==> LiveBan(st, source, now)
    ensures source in LiveBansAt(st, trusted, now) ==>
              source in BannedSourcesAt(st, now) &&
                  BannedSourcesAt(st, now)[source] == LiveBansAt(st, trusted, now)[source] / SECOND
  {
  }

  // ----- the bound on a sliding ban -----

  /** This call newly bans `source`. */
  predicate RaisedBy(st: Store, e: Event, source: IpAddr) {
    e.call.Record? && e.call.source == source && OutputOf(st, e) == Answer(true)
  }

  /** The ban on `source` at the end of `events` is the one the call at `k` raised: no call since
      has removed it or raised another. */
  predicate RaisedAt(st: Store, events: seq<Event>, source: IpAddr, k: nat) {
    && k < |events|
    && var init, e := events[..|events|-1], events[|events|-1];
       if k == |init| then RaisedBy(Run(st, init), e, source)
       else
         && RaisedAt(st, init, source, k)
         && source in After(Run(st, init), e).bans
         && !RaisedBy(Run(st, init), e, source)
  }

  /** The ban on `source` is where the policy in force at `k` allows it to be. */
  ghost predicate WithinMaximum(st: Store, events: seq<Event>, source: IpAddr, k: nat) {
    && k < |events| && source in Run(st, events).bans
    && var policy, ban := Run(st, events[..k]).policy, Run(st, events).bans[source];
       && policy.Some?
       && ban.hardDeadline == events[k].now + policy.value.maxBanDuration
       && events[k].now + policy.value.banDuration <= ban.expiry <= ban.hardDeadline
  }

  /** One call keeps a ban with its deadline and an expiry no earlier, removes it, or raises a new one. */
  lemma BanStep(st: Store, e: Event, source: IpAddr)
    requires source in After(st, e).bans
    ensures
      var after := After(st, e);
      if RaisedBy(st, e, source) then
        && st.policy.Some?
        && after.bans[source] == BanEntry(e.now + st.policy.value.banDuration, e.now + st.policy.value.maxBanDuration)
      else
        && source in st.bans
        && after.bans[source].hardDeadline == st.bans[source].hardDeadline
        && st.bans[source].expiry <= after.bans[source].expiry
           <= Max(st.bans[source].expiry, st.bans[source].hardDeadline)
  {
  }

  lemma {:induction false} RaisedBanIsWithinMaximum(st: Store, events: seq<Event>, source: IpAddr, k: nat)
    requires RaisedAt(st, events, source, k)
    ensures WithinMaximum(st, events, source, k)
  {
    var init, e := events[..|events|-1], events[|events|-1];
    if k == |init| {
      assert source in Run(st, events).bans;
      BanStep(Run(st, init), e, source);
    } else {
      RaisedBanIsWithinMaximum(st, init, source, k);
      BanStep(Run(st, init), e, source);
      assert init[..k] == events[..k];
    }
  }

  /** Every ban in force was raised by some call, and has not outlived the maximum of the policy
      that raised it, whatever was reloaded since. */
  lemma {:induction false} EveryBanWasRaised(p: Policy, events: seq<Event>, source: IpAddr)
    requires source in Run(Fresh(p), events).bans
    ensures exists k :: RaisedAt(Fresh(p), events, source, k) && WithinMaximum(Fresh(p), events, source, k)
  {
    if events != [] {
      var init, e := events[..|events|-1], events[|events|-1];
      var before := Run(Fresh(p), init);
      BanStep(before, e, source);
      var k: nat;
      if RaisedBy(before, e, source) {
        k := |init|;
      } else {
        EveryBanWasRaised(p, init, source);
        k :| RaisedAt(Fresh(p), init, source, k);
      }
      RaisedBanIsWithinMaximum(Fresh(p), events, source, k);
    }
  }

  lemma {:induction false} RaisedAtPrefix(st: Store, events: seq<Event>, source: IpAddr, k: nat, j: nat)
    requires RaisedAt(st, events, source, k) && k < j <= |events|
    ensures RaisedAt(st, events[..j], source, k) && source in Run(st, events[..j]).bans
  {
    if j == |events| {
      assert events[..j] == events;
      RaisedBanIsWithinMaximum(st, events, source, k);
    } else {
      var init := events[..|events|-1];
      RaisedAtPrefix(st, init, source, k, j);
      assert init[..j] == events[..j];
    }
  }

  /** From the call that raised it on, a ban's expiry never moves backwards. */
  lemma {:induction false} ExpiryNeverMovesBack(st: Store, events: seq<Event>, source: IpAddr, k: nat, i: nat)
    requires RaisedAt(st, events, source, k) && k < i <= |events|
    ensures source in Run(st, events[..i]).bans && source in Run(st, events).bans
    ensures Run(st, events[..i]).bans[source].expiry <= Run(st, events).bans[source].expiry
  {
    RaisedAtPrefix(st, events, source, k, i);
    RaisedBanIsWithinMaximum(st, events, source, k);
    if i == |events| {
      assert events[..i] == events;
    } else {
      var init, e := events[..|events|-1], events[|events|-1];
      ExpiryNeverMovesBack(st, init, source, k, i);
      assert init[..i] == events[..i];
      BanStep(Run(st, init), e, source);
    }
  }

  /** A signal from `source` that the policy counts. */
  predicate Abuse(p: Policy, e: Event, source: IpAddr) {
    e.call.Record? && e.call.source == source && source !in e.trusted && Weight(p, e.call.signal) != 0
  }

  /** The instant of the last counted signal from `source` at or after the one at `k`. */
  function LastAbuse(p: Policy, events: seq<Event>, source: IpAddr, k: nat): Time
    requires k < |events|
  {
    var e := events[|events|-1];
    if k == |events| - 1 then e.now
    else if Abuse(p, e, source) then e.now
    else LastAbuse(p, events[..|events|-1], source, k)
  }

  /** After the call at `k` the policy is left alone. */
  ghost predicate NoReloadSince(events: seq<Event>, k: nat) {
    forall i :: k < i < |events| ==> !events[i].call.SetPolicy? && !events[i].call.Disable?
  }

  lemma {:induction false} NoReloadKeepsPolicy(st: Store, events: seq<Event>, k: nat)
    requires k < |events| && NoReloadSince(events, k) && events[k].call.Record?
    ensures Run(st, events).policy == Run(st, events[..k]).policy
  {
    var init := events[..|events|-1];
    if k < |init| {
      NoReloadKeepsPolicy(st, init, k);
      assert init[..k] == events[..k];
    }
  }

  /** A counted signal that leaves a ban in place without raising it found it live and slid it;
      any other call that leaves it in place leaves it as it was. */
  lemma SlideStep(st: Store, e: Event, source: IpAddr)
    requires source in st.bans && source in After(st, e).bans && !RaisedBy(st, e, source)
    ensures
      var counted := e.call.Record? && e.call.source == source &&
          CountedWeight(st, e.call.signal, source in e.trusted) != 0;
      After(st, e).bans[source] == if counted then Slide(st.policy.value, st.bans[source], e.now) else st.bans[source]
  {
  }

  lemma ClosedFormStep(p: Policy, st: Store, e: Event, source: IpAddr, raisedAt: Time, last: Time)
    requires st.policy == Some(p) && last <= e.now
    requires source in st.bans && source in After(st, e).bans && !RaisedBy(st, e, source)
    requires st.bans[source] ==
        BanEntry(Min(last + p.banDuration, raisedAt + p.maxBanDuration), raisedAt + p.maxBanDuration)
    ensures After(st, e).bans[source] ==
            BanEntry(Min((if Abuse(p, e, source) then e.now else last) + p.banDuration, raisedAt + p.maxBanDuration),
                     raisedAt + p.maxBanDuration)
  {
    SlideStep(st, e, source);
  }

  /** The ban on `source` stands where the closed form puts it. */
  ghost predicate AtClosedForm(p: Policy, st: Store, events: seq<Event>, source: IpAddr, k: nat) {
    && k < |events|
    && Lookup(Run(st, events).bans, source) ==
       Some(BanEntry(Min(LastAbuse(p, events, source, k) + p.banDuration, events[k].now + p.maxBanDuration),
                     events[k].now + p.maxBanDuration))
  }

  lemma ClosedFormNext(p: Policy, st: Store, events: seq<Event>, source: IpAddr, k: nat)
    requires |events| > 0 && AtClosedForm(p, st, events[..|events|-1], source, k)
    requires
      var before, e := Run(st, events[..|events|-1]), events[|events|-1];
      && before.policy == Some(p)
      && LastAbuse(p, events[..|events|-1], source, k) <= e.now
      && source in After(before, e).bans && !RaisedBy(before, e, source)
    ensures AtClosedForm(p, st, events, source, k)
  {
    var init, e := events[..|events|-1], events[|events|-1];
    ClosedFormStep(p, Run(st, init), e, source, events[k].now, LastAbuse(p, init, source, k));
  }

  lemma {:induction false} RaisedAtARecord(st: Store, events: seq<Event>, source: IpAddr, k: nat)
    requires RaisedAt(st, events, source, k)
    ensures events[k].call.Record? && Run(st, events[..k]).policy.Some?
  {
    var init := events[..|events|-1];
    if k < |init| {
      RaisedAtARecord(st, init, source, k);
      assert init[..k] == events[..k];
    }
  }

  /** From any store, whatever was reloaded before: a ban raised at t0 under a policy that is left alone
      since, with the last abuse at tn, expires at exactly min(tn + ban duration, t0 + maximum). */
  lemma {:induction false} ExpiryClosedForm(st: Store, start: Time, events: seq<Event>, source: IpAddr, k: nat)
    requires Timed(start, events) && RaisedAt(st, events, source, k) && NoReloadSince(events, k)
    ensures Run(st, events[..k]).policy.Some?
    ensures AtClosedForm(Run(st, events[..k]).policy.value, st, events, source, k)
  {
    var init, e := events[..|events|-1], events[|events|-1];
    RaisedAtARecord(st, events, source, k);
    if k == |init| {
      BanStep(Run(st, init), e, source);
    } else {
      assert init[..k] == events[..k];
      ExpiryClosedForm(st, start, init, source, k);
      NoReloadKeepsPolicy(st, init, k);
      LastAbuseInRange(Run(st, init).policy.value, start, init, source, k);
      ClosedFormNext(Run(st, init).policy.value, st, events, source, k);
    }
  }

  lemma {:induction false} LastAbuseInRange(p: Policy, start: Time, events: seq<Event>, source: IpAddr, k: nat)
    requires k < |events| && Timed(start, events)
    ensures events[k].now <= LastAbuse(p, events, source, k) <= events[|events|-1].now
  {
    if k != |events| - 1 {
      LastAbuseInRange(p, start, events[..|events|-1], source, k);
    }
  }
}
