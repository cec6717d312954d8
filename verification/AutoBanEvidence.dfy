/** The evidence behind failure rows and bans: which signals a row counts, and why a
    source that is banned earned it.
 */
module AutoBanEvidence {
  import opened Common
  import opened AutoBanModel
  import opened AutoBanRuns

  /** The weight this call adds against `source`. */
  function Counted(st: Store, e: Event, source: IpAddr): U32 {
    if e.call.Record? && e.call.source == source then CountedWeight(st, e.call.signal, source in e.trusted) else 0
  }

  /** The total weight of the signals counted against `source` from the call at `k` on. */
  function EvidenceSince(st: Store, events: seq<Event>, source: IpAddr, k: nat): nat {
    if |events| <= k then 0
    else
      var init := events[..|events|-1];
      EvidenceSince(st, init, source, k) + Counted(Run(st, init), events[|events|-1], source)
  }

  /** A source none of whose signals was counted, for lack of weight, trust or a policy, is never
      tracked: it has neither a failure row nor a ban, whatever else happens. */
  lemma {:induction false} UncountedSourceIsNeverTracked(p: Policy, events: seq<Event>, source: IpAddr)
    requires EvidenceSince(Fresh(p), events, source, 0) == 0
    ensures source !in Run(Fresh(p), events).failures && source !in Run(Fresh(p), events).bans
  {
    if events != [] {
      var init, e := events[..|events|-1], events[|events|-1];
      UncountedSourceIsNeverTracked(p, init, source);
      UncountedStep(Run(Fresh(p), init), e, source);
    }
  }

  lemma UncountedStep(st: Store, e: Event, source: IpAddr)
    requires Counted(st, e, source) == 0 && source !in st.failures && source !in st.bans
    ensures source !in After(st, e).failures && source !in After(st, e).bans
  {
  }

  /** A call that wipes the slate for `source`. */
  predicate Clears(e: Event, source: IpAddr) {
    || e.call == Success(source)
    || e.call == Unban(source)
    || e.call.Disable?
    || (e.call.LiftSources? && source in e.call.sources)
  }

  /** From the call at `k` on, nothing wiped the slate for `source` and nothing banned it. */
  predicate Uninterrupted(st: Store, events: seq<Event>, source: IpAddr, k: nat) {
    |events| <= k ||
    var init, e := events[..|events|-1], events[|events|-1];
    Uninterrupted(st, init, source, k) && !Clears(e, source) && !RaisedBy(Run(st, init), e, source)
  }

  /** The failure row of `source` was opened by the call at `k` and counts every signal since. */
  ghost predicate CountsFrom(st: Store, events: seq<Event>, source: IpAddr, k: nat) {
    && k < |events|
    && Uninterrupted(st, events, source, k)
    && Lookup(Run(st, events).failures, source) ==
       Some(FailureWindow(Min(EvidenceSince(st, events, source, k), U32_MODULUS - 1), events[k].now))
  }

  /** What one call does to the failure row of `source`. */
  lemma RowStep(st: Store, e: Event, source: IpAddr, before: Time)
    requires Rows(st, before) && before <= e.now
    requires source in After(st, e).failures
    ensures !Clears(e, source) && !RaisedBy(st, e, source)
    ensures
      var row := After(st, e).failures[source];
      var weight := Counted(st, e, source);
      if weight == 0 then source in st.failures && row == st.failures[source]
      else if source in st.failures && row.windowStart == st.failures[source].windowStart && row.count > weight
        then row.count == SaturatingAdd(st.failures[source].count, weight)
      else row == FailureWindow(weight, e.now)
  {
  }

  lemma CountsFromHere(st: Store, events: seq<Event>, source: IpAddr)
    requires |events| > 0 && !Clears(events[|events|-1], source)
    requires var init, e := events[..|events|-1], events[|events|-1];
             && !RaisedBy(Run(st, init), e, source)
             && Lookup(After(Run(st, init), e).failures, source) ==
                 Some(FailureWindow(Counted(Run(st, init), e, source), e.now))
    ensures CountsFrom(st, events, source, |events| - 1)
  {
    var init := events[..|events|-1];
    assert Uninterrupted(st, init, source, |init|) && EvidenceSince(st, init, source, |init|) == 0;
  }

  lemma CountsOn(st: Store, events: seq<Event>, source: IpAddr, k: nat)
    requires |events| > 0 && CountsFrom(st, events[..|events|-1], source, k)
    requires var init, e := events[..|events|-1], events[|events|-1];
             var row := Run(st, init).failures[source];
             && !Clears(e, source) && !RaisedBy(Run(st, init), e, source)
             && Lookup(After(Run(st, init), e).failures, source)
                == Some(FailureWindow(SaturatingAdd(row.count, Counted(Run(st, init), e, source)), row.windowStart))
    ensures CountsFrom(st, events, source, k)
  {
  }

  /** Every failure row counts exactly the signals since the call that opened it, with nothing
      in between that should have cleared it. */
  lemma {:induction false} EveryRowHasEvidence(p: Policy, events: seq<Event>, source: IpAddr)
    requires Timed(0, events) && source in Run(Fresh(p), events).failures
    ensures exists k :: CountsFrom(Fresh(p), events, source, k)
  {
    if events != [] {
      var st := Fresh(p);
      var init, e := events[..|events|-1], events[|events|-1];
      var before := Run(st, init);
      FreshRows(p, 0);
      RunKeepsRows(st, init, 0);
      RowStep(before, e, source, Clock(0, init));
      var row := After(before, e).failures[source];
      if Counted(before, e, source) != 0 && row == FailureWindow(Counted(before, e, source), e.now) {
        CountsFromHere(st, events, source);
      } else {
        EveryRowHasEvidence(p, init, source);
        var k :| CountsFrom(st, init, source, k);
        CountsOn(st, events, source, k);
      }
    }
  }

  /** The call that ends `events` banned `source` on the evidence since the call at `k`: all of it within
      the window of the policy in force, none of it before a success, an unban, a lift or an earlier ban,
      and together at least the threshold in force. */
  ghost predicate JustifiedSince(st: Store, events: seq<Event>, source: IpAddr, k: nat) {
    && k < |events|
    && var init, now := events[..|events|-1], events[|events|-1].now;
       && Run(st, init).policy.Some?
       && var p := Run(st, init).policy.value;
          && Uninterrupted(st, init, source, k)
          && now - events[k].now <= p.window
          && EvidenceSince(st, events, source, k) >= p.threshold
  }

  /** A call that newly bans found the threshold in its own weight and the row it added it to, if that row was in
      the window. */
  lemma RaiseStep(st: Store, e: Event, source: IpAddr)
    requires RaisedBy(st, e, source)
    ensures
      && st.policy.Some? && Counted(st, e, source) > 0
      && var p := st.policy.value;
         || Counted(st, e, source) >= p.threshold
         || (source in st.failures
             && SinceStart(e.now, st.failures[source].windowStart) <= p.window
             && st.failures[source].count + Counted(st, e, source) >= p.threshold)
  {
  }

  /** No source is banned without cause, whatever the reloads and however far the counter saturated. */
  lemma EveryBanIsJustified(p: Policy, events: seq<Event>, source: IpAddr)
    requires Timed(0, events) && events != []
    requires RaisedBy(Run(Fresh(p), events[..|events|-1]), events[|events|-1], source)
    ensures exists k :: JustifiedSince(Fresh(p), events, source, k)
  {
    var st := Fresh(p);
    var init, e := events[..|events|-1], events[|events|-1];
    var before := Run(st, init);
    RaiseStep(before, e, source);
    var k: nat;
    if Counted(before, e, source) >= before.policy.value.threshold {
      k := |init|;
    } else {
      EveryRowHasEvidence(p, init, source);
      k :| CountsFrom(st, init, source, k);
    }
    JustifiedFrom(st, events, source, k);
  }

  lemma JustifiedFrom(st: Store, events: seq<Event>, source: IpAddr, k: nat)
    requires |events| > 0
    requires
      var init, e := events[..|events|-1], events[|events|-1];
      var before := Run(st, init);
      && before.policy.Some?
      && (if k == |init| then Counted(before, e, source) >= before.policy.value.threshold
          else
            && CountsFrom(st, init, source, k)
            && SinceStart(e.now, before.failures[source].windowStart) <= before.policy.value.window
            && before.failures[source].count + Counted(before, e, source) >= before.policy.value.threshold)
    ensures JustifiedSince(st, events, source, k)
  {
    var init := events[..|events|-1];
    if k == |init| {
      assert EvidenceSince(st, init, source, k) == 0;
    }
  }
}
