/** Pruning is bookkeeping: exactly when can a later call tell whether it happened.
 */
module AutoBanPrune {
  import opened Common
  import opened AutoBanModel
  import opened AutoBanRuns

  /** For source `s`, store `v` is store `u` less a ban that had lapsed by `at`, or a failure
      window that was older than `w` by then. */
  predicate RelatedAt(u: Store, v: Store, at: Time, w: Time, s: IpAddr) {
    && (s in v.bans ==> s in u.bans && u.bans[s] == v.bans[s])
    && (s in u.bans && s !in v.bans ==> u.bans[s].expiry <= at)
    && (s in v.failures ==> s in u.failures && u.failures[s] == v.failures[s])
    && (s in u.failures && s !in v.failures ==> SinceStart(at, u.failures[s].windowStart) > w)
  }

  ghost predicate Related(u: Store, v: Store, at: Time, w: Time) {
    && u.policy == v.policy
    && (u.policy.Some? ==> u.policy.value.window <= w)
    && (forall s :: RelatedAt(u, v, at, w, s))
  }

  /** Whether callers of this kind of call are promised the same answer. `unban` and the two lifts
      report how many rows they removed, and a row that had lapsed counts. */
  predicate Observable(call: Call) {
    !call.Unban? && !call.LiftSources?
  }

  /** A signal touches the rows of its own source only. */
  lemma RecordLeavesOthersAlone(st: Store, e: Event, s: IpAddr)
    requires e.call.Record? && e.call.source != s
    ensures Lookup(After(st, e).bans, s) == Lookup(st.bans, s) &&
        Lookup(After(st, e).failures, s) == Lookup(st.failures, s)
  {
  }

  lemma RecordRelatedAt(u: Store, v: Store, e: Event, at: Time, w: Time, s: IpAddr)
    requires u.policy == v.policy && (u.policy.Some? ==> u.policy.value.window <= w)
    requires at <= e.now && e.call.Record?
    requires RelatedAt(u, v, at, w, s)
    ensures RelatedAt(After(u, e), After(v, e), at, w, s)
    ensures e.call.source == s ==> OutputOf(u, e) == OutputOf(v, e)
  {
    if e.call.source != s {
      RecordLeavesOthersAlone(u, e, s);
      RecordLeavesOthersAlone(v, e, s);
      assert forall st: Store :: s in st.bans <==> Lookup(st.bans, s).Some?;
    } else if CountedWeight(u, e.call.signal, s in e.trusted) != 0 {
      var p := u.policy.value;
      assert LiveBan(u, s, e.now) <==> LiveBan(v, s, e.now);
      forall weight ensures CountSignal(p, Lookup(u.failures, s), weight, e.now) ==
          CountSignal(p, Lookup(v.failures, s), weight, e.now) {
      }
    }
  }

  lemma RecordRelated(u: Store, v: Store, e: Event, at: Time, w: Time)
    requires Related(u, v, at, w) && at <= e.now && e.call.Record?
    ensures Related(After(u, e), After(v, e), at, w)
    ensures OutputOf(u, e) == OutputOf(v, e)
  {
    var u', v' := After(u, e), After(v, e);
    forall s ensures RelatedAt(u', v', at, w, s) && (e.call.source == s ==> OutputOf(u, e) == OutputOf(v, e)) {
      assert RelatedAt(u, v, at, w, s);
      RecordRelatedAt(u, v, e, at, w, s);
    }
    assert RelatedAt(u', v', at, w, e.call.source);
  }

  lemma ListingsRelated(u: Store, v: Store, trusted: set<IpAddr>, at: Time, now: Time, w: Time)
    requires Related(u, v, at, w) && at <= now
    ensures LiveBansAt(u, trusted, now) == LiveBansAt(v, trusted, now)
    ensures BannedSourcesAt(u, now) == BannedSourcesAt(v, now)
  {
    forall s ensures LiveBan(u, s, now) <==> LiveBan(v, s, now)
             ensures LiveBan(u, s, now) ==> u.bans[s] == v.bans[s]
    {
      assert RelatedAt(u, v, at, w, s);
    }
  }

  lemma PruneRelatedAt(u: Store, v: Store, now: Time, at: Time, w: Time, s: IpAddr)
    requires u.policy == v.policy && RelatedAt(u, v, at, w, s)
    ensures RelatedAt(Pruned(u, now), Pruned(v, now), at, w, s)
  {
    var u', v' := Pruned(u, now), Pruned(v, now);
    assert s in u'.bans <==> LiveBan(u, s, now);
    assert s in v'.bans <==> LiveBan(v, s, now);
    if u.policy.Some? {
      var window := u.policy.value.window;
      assert s in u'.failures <==> s in u.failures && SinceStart(now, u.failures[s].windowStart) <= window;
      assert s in v'.failures <==> s in v.failures && SinceStart(now, v.failures[s].windowStart) <= window;
    }
  }

  lemma OthersRelatedAt(u: Store, v: Store, e: Event, at: Time, w: Time, s: IpAddr)
    requires u.policy == v.policy && (u.policy.Some? ==> u.policy.value.window <= w)
    requires RelatedAt(u, v, at, w, s) && at <= e.now && !e.call.Record?
    ensures RelatedAt(After(u, e), After(v, e), at, w, s)
  {
    match e.call {
      case Prune => PruneRelatedAt(u, v, e.now, at, w, s);
      case Success(_) =>
      case IsBanned(_) =>
      case Unban(_) =>
      case LiftSources(_) =>
      case _ =>
    }
  }

  lemma OthersRelated(u: Store, v: Store, e: Event, at: Time, w: Time)
    requires Related(u, v, at, w) && at <= e.now && !e.call.Record?
    requires e.call.SetPolicy? ==> e.call.policy.window <= w
    ensures Related(After(u, e), After(v, e), at, w)
  {
    var u', v' := After(u, e), After(v, e);
    forall s ensures RelatedAt(u', v', at, w, s) {
      assert RelatedAt(u, v, at, w, s);
      OthersRelatedAt(u, v, e, at, w, s);
    }
  }

  lemma StepRelated(u: Store, v: Store, e: Event, at: Time, w: Time)
    requires Related(u, v, at, w) && at <= e.now
    requires e.call.SetPolicy? ==> e.call.policy.window <= w
    ensures Related(After(u, e), After(v, e), at, w)
    ensures Observable(e.call) ==> OutputOf(u, e) == OutputOf(v, e)
  {
    if e.call.Record? {
      RecordRelated(u, v, e, at, w);
    } else {
      OthersRelated(u, v, e, at, w);
      ListingsRelated(u, v, e.trusted, at, e.now, w);
      assert e.call.IsBanned? ==> RelatedAt(u, v, at, w, e.call.source);
    }
  }

  ghost predicate WindowsWithin(events: seq<Event>, w: Time) {
    forall i :: 0 <= i < |events| && events[i].call.SetPolicy? ==> events[i].call.policy.window <= w
  }

  lemma {:induction false} RunRelated(u: Store, v: Store, events: seq<Event>, at: Time, w: Time)
    requires Related(u, v, at, w) && Timed(at, events) && WindowsWithin(events, w)
    ensures Related(Run(u, events), Run(v, events), at, w)
    ensures events != [] && Observable(events[|events|-1].call) ==> LastOutput(u, events) == LastOutput(v, events)
  {
    if events != [] {
      var init := events[..|events|-1];
      RunRelated(u, v, init, at, w);
      ClockStartsAtStart(at, events);
      StepRelated(Run(u, init), Run(v, init), events[|events|-1], at, w);
    }
  }

  function LongestWindow(events: seq<Event>): Time {
    if events == [] then 0
    else
      var e := events[|events|-1];
      Max(LongestWindow(events[..|events|-1]), if e.call.SetPolicy? then e.call.policy.window else 0)
  }

  lemma WithinLongest(events: seq<Event>)
    ensures WindowsWithin(events, LongestWindow(events))
  {
    if events != [] {
      WithinLongest(events[..|events|-1]);
    }
  }

  /** The failure row of `s` has run out under the policy in force, but would not have under a window of `w`. */
  predicate Missable(st: Store, now: Time, w: Time, s: IpAddr) {
    && s in st.failures && st.policy.Some?
    && st.policy.value.window < SinceStart(now, st.failures[s].windowStart) <= w
  }

  lemma PrunedIsRelated(st: Store, now: Time, w: Time)
    requires Rows(st, now) && (st.policy.Some? ==> st.policy.value.window <= w)
    requires forall s :: !Missable(st, now, w, s)
    ensures Related(st, Pruned(st, now), now, w)
  {
    forall s ensures RelatedAt(st, Pruned(st, now), now, w, s) {
      assert !Missable(st, now, w, s);
    }
  }

  /** No later run whose reloads keep the window within `w` is answered differently for the prune. */
  ghost predicate InvisibleWithin(st: Store, now: Time, w: Time) {
    forall events: seq<Event> ::
      events != [] && Timed(now, events) && WindowsWithin(events, w) && Observable(events[|events|-1].call) ==>
        LastOutput(Pruned(st, now), events) == LastOutput(st, events)
  }

  /** A policy with window `w` under which one weak signal tells a dropped row with `count` from no row. */
  function Revealing(count: U32, w: Time): Policy
    requires w >= SECOND
  {
    BanPolicy(Max(Min(count + 1, U32_MODULUS - 1), 1), w, SECOND, SECOND, 1, 0)
  }

  function RevealingRun(count: U32, w: Time, now: Time, s: IpAddr): seq<Event>
    requires w >= SECOND
  {
    [Event(now, {}, SetPolicy(Revealing(count, w))), Event(now, {}, Record(s, Weak))]
  }

  /** A reload to window `w` and one weak signal tell that the row was dropped. */
  lemma DroppedRowIsMissed(st: Store, now: Time, w: Time, s: IpAddr)
    requires Rows(st, now) && Missable(st, now, w, s)
    ensures w >= SECOND
    ensures
      var events := RevealingRun(st.failures[s].count, w, now, s);
      && Timed(now, events) && WindowsWithin(events, w) && Observable(events[1].call)
      && LastOutput(Pruned(st, now), events) != LastOutput(st, events)
  {
    var events := RevealingRun(st.failures[s].count, w, now, s);
    var reload := events[0];
    assert events[..1] == [reload] && [reload][..0] == [];
    forall u ensures Run(u, [reload]) == After(u, reload) {
      assert Run(u, []) == u;
    }
    assert Timed(now, []) && Timed(now, [reload]) && Timed(now, events);
  }

  /** A prune is invisible to every later run that keeps the window within `w` exactly when no failure
      row has run out by the window in force that would still be counted by a window of `w`. */
  lemma InvisibleWithinIff(st: Store, now: Time, w: Time)
    requires Rows(st, now) && (st.policy.Some? ==> st.policy.value.window <= w)
    ensures InvisibleWithin(st, now, w) <==> forall s :: !Missable(st, now, w, s)
  {
    if s :| Missable(st, now, w, s) {
      DroppedRowIsMissed(st, now, w, s);
      var events := RevealingRun(st.failures[s].count, w, now, s);
      assert LastOutput(Pruned(st, now), events) != LastOutput(st, events);
    } else {
      forall events: seq<Event> | events != [] && Timed(now, events) && WindowsWithin(events, w) &&
          Observable(events[|events|-1].call)
        ensures LastOutput(Pruned(st, now), events) == LastOutput(st, events)
      {
        PrunedIsRelated(st, now, w);
        RunRelated(st, Pruned(st, now), events, now, w);
      }
    }
  }

  /** After a prune, every later call sequence is answered as if it had not happened, provided no
      reload makes the window longer than the one in force at the prune. */
  lemma PruneIsInvisible(st: Store, now: Time, events: seq<Event>)
    requires Rows(st, now)
    requires events != [] && Timed(now, events) && Observable(events[|events|-1].call)
    requires st.policy.Some? ==> WindowsWithin(events, st.policy.value.window)
    ensures LastOutput(Pruned(st, now), events) == LastOutput(st, events)
  {
    WithinLongest(events);
    InvisibleWithinIff(st, now, if st.policy.Some? then st.policy.value.window else LongestWindow(events));
  }

  /** No later run at all is answered differently for the prune. */
  ghost predicate InvisibleWhateverFollows(st: Store, now: Time) {
    forall w: Time :: InvisibleWithin(st, now, w)
  }

  predicate WithinWindow(st: Store, now: Time, s: IpAddr)
    requires s in st.failures && st.policy.Some?
  {
    SinceStart(now, st.failures[s].windowStart) <= st.policy.value.window
  }

  /** With no promise about later windows, a prune is invisible exactly when every failure row is
      still within the window in force. */
  lemma InvisibleIffNoRowDropped(st: Store, now: Time)
    requires Rows(st, now)
    ensures InvisibleWhateverFollows(st, now)
      <==> forall s :: s in st.failures && st.policy.Some? ==> WithinWindow(st, now, s)
  {
    if s :| s in st.failures && st.policy.Some? && !WithinWindow(st, now, s) {
      var w := SinceStart(now, st.failures[s].windowStart);
      assert Missable(st, now, w, s);
      InvisibleWithinIff(st, now, w);
    } else {
      forall w: Time ensures InvisibleWithin(st, now, w) {
        var wider := Max(w, if st.policy.Some? then st.policy.value.window else 0);
        InvisibleWithinIff(st, now, wider);
        NarrowerIsInvisible(st, now, w, wider);
      }
    }
  }

  lemma NarrowerIsInvisible(st: Store, now: Time, w: Time, wider: Time)
    requires w <= wider && InvisibleWithin(st, now, wider)
    ensures InvisibleWithin(st, now, w)
  {
  }

  /** What a prune leaves behind, row for row: exactly the bans that a check at that instant would confirm, and
      exactly the failure rows within the window of the policy in force. */
  lemma PruneLeavesExactly(st: Store, now: Time, s: IpAddr)
    ensures
      var after := After(st, Event(now, {}, Prune));
      && (s in after.bans <==> CheckBanned(st, s, false, now).1)
      && (s in after.bans ==> after.bans[s] == st.bans[s])
      && (s in after.failures <==> st.policy.Some? && s in st.failures && WithinWindow(st, now, s))
      && (s in after.failures ==> after.failures[s] == st.failures[s])
  {
  }
}
