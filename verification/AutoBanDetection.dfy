/** How much abuse a source can get away with: the exact amount of weight within one
    window that no alignment of windows, prunes and other calls can hide.
 */
module AutoBanDetection {
  import opened Common
  import opened AutoBanModel
  import opened AutoBanRuns
  import opened AutoBanEvidence

  /** Weight that always bans: what an older window can absorb is at most threshold - 2,
      because that window was opened by a signal of its own. */
  function Bound(p: Policy): nat {
    Max(p.threshold, 2 * p.threshold - 2)
  }

  /** The calls leave the policy and the record of an untrusted `source` alone. */
  ghost predicate Undisturbed(events: seq<Event>, source: IpAddr) {
    forall i :: 0 <= i < |events| ==>
                  source !in events[i].trusted && !Clears(events[i], source) && !events[i].call.SetPolicy?
  }

  /** After no call of the run is `source` under a live ban. */
  predicate NeverBanned(st: Store, events: seq<Event>, source: IpAddr) {
    events == [] ||
    (NeverBanned(st, events[..|events|-1], source) && !LiveBan(Run(st, events), source, events[|events|-1].now))
  }

  /** How weight `w` seen since `start` is accounted for while no ban came of it. */
  ghost predicate Accounted(p: Policy, st: Store, source: IpAddr, start: Time, w: nat) {
    var absorbed := Max(0, p.threshold - 2);
    if source in st.failures then
      var row := st.failures[source];
      && (w > 0 ==> row.count < p.threshold)
      && (|| (row.windowStart >= start && w <= absorbed + row.count)
          || (row.windowStart <= start && w + 1 <= row.count))
    else w <= absorbed
  }

  lemma AccountedStep(p: Policy, st: Store, e: Event, source: IpAddr, start: Time, w: nat)
    requires st.policy == Some(p) && (source in st.failures ==> source !in st.bans)
    requires Accounted(p, st, source, start, w)
    requires start <= e.now <= start + p.window
    requires source !in e.trusted && !Clears(e, source) && !e.call.SetPolicy?
    requires !LiveBan(After(st, e), source, e.now)
    ensures After(st, e).policy == Some(p)
    ensures Accounted(p, After(st, e), source, start, w + Counted(st, e, source))
  {
  }

  lemma {:induction false} EvasionIsAccounted(p: Policy, st: Store, events: seq<Event>, source: IpAddr, start: Time)
    requires st.policy == Some(p) && Rows(st, start)
    requires Timed(start, events) && Clock(start, events) <= start + p.window
    requires Undisturbed(events, source) && NeverBanned(st, events, source)
    ensures Run(st, events).policy == Some(p)
    ensures Accounted(p, Run(st, events), source, start, EvidenceSince(st, events, source, 0))
  {
    if events != [] {
      var init, e := events[..|events|-1], events[|events|-1];
      ClockStartsAtStart(start, init);
      EvasionIsAccounted(p, st, init, source, start);
      RunKeepsRows(st, init, start);
      AccountedStep(p, Run(st, init), e, source, start, EvidenceSince(st, init, source, 0));
    }
  }

  /** Weight of at least the bound, inside an interval no longer than the window, leaves the
      source banned at some point of that interval. */
  lemma EnoughWeightAlwaysBans(p: Policy, st: Store, events: seq<Event>, source: IpAddr, start: Time)
    requires st.policy == Some(p) && Rows(st, start)
    requires Timed(start, events) && Clock(start, events) <= start + p.window
    requires Undisturbed(events, source)
    requires EvidenceSince(st, events, source, 0) >= Bound(p)
    ensures exists n :: 0 < n <= |events| && LiveBan(Run(st, events[..n]), source, events[n-1].now)
  {
    if NeverBanned(st, events, source) {
      EvasionIsAccounted(p, st, events, source, start);
      assert false;
    } else {
      BannedSomewhere(st, events, source);
    }
  }

  lemma {:induction false} BannedSomewhere(st: Store, events: seq<Event>, source: IpAddr)
    requires !NeverBanned(st, events, source)
    ensures exists n :: 0 < n <= |events| && LiveBan(Run(st, events[..n]), source, events[n-1].now)
  {
    var init := events[..|events|-1];
    if NeverBanned(st, init, source) {
      assert events[..|events|] == events;
    } else {
      BannedSomewhere(st, init, source);
      var n :| 0 < n <= |init| && LiveBan(Run(st, init[..n]), source, init[n-1].now);
      assert init[..n] == events[..n] && init[n-1] == events[n-1];
    }
  }

  // ----- the bound is tight -----

  function WeakSignal(source: IpAddr, now: Time): Event {
    Event(now, {}, Record(source, Weak))
  }

  /** A store that tracks nothing but one failure row. */
  function OneRow(p: Policy, source: IpAddr, row: FailureWindow): Store {
    Store(map[source := row], map[], Some(p))
  }

  /** The calls `events`, from `start` on, take the store from `st` to `end` without ever banning
      `source`, and count `w` against it. */
  ghost predicate Counts(st: Store, events: seq<Event>, end: Store, source: IpAddr, w: nat, start: Time) {
    && Run(st, events) == end
    && EvidenceSince(st, events, source, 0) == w
    && NeverBanned(st, events, source)
    && Timed(start, events)
    && Undisturbed(events, source)
  }

  lemma CountsNothing(st: Store, source: IpAddr, start: Time)
    ensures Counts(st, [], st, source, 0, start)
  {
  }

  lemma CountsSnoc(st: Store, init: seq<Event>, middle: Store, source: IpAddr, w: nat, start: Time, e: Event)
    requires Counts(st, init, middle, source, w, start) && Clock(start, init) <= e.now
    requires source !in e.trusted && !Clears(e, source) && !e.call.SetPolicy?
    requires !LiveBan(After(middle, e), source, e.now)
    ensures Counts(st, init + [e], After(middle, e), source, w + Counted(middle, e, source), start)
    ensures Clock(start, init + [e]) == e.now
  {
    assert (init + [e])[..|init|] == init;
  }

  lemma WeakSignalIsCounted(p: Policy, source: IpAddr, row: FailureWindow, now: Time)
    requires row.windowStart <= now && p.threshold >= 2
    requires now <= row.windowStart + p.window ==> row.count + 1 < p.threshold
    ensures
      var next := if now <= row.windowStart + p.window then row.(count := row.count + 1) else FailureWindow(1, now);
      After(OneRow(p, source, row), WeakSignal(source, now)) == OneRow(p, source, next)
    ensures Counted(OneRow(p, source, row), WeakSignal(source, now), source) == 1
  {
  }

  /** As many weak signals at one instant as the row has room for go by without a ban. */
  lemma {:induction false} Burst(p: Policy, st: Store, init: seq<Event>, source: IpAddr, row: FailureWindow,
      now: Time, w: nat, start: Time, n: nat)
    returns (events: seq<Event>)
    requires Counts(st, init, OneRow(p, source, row), source, w, start) && Clock(start, init) <= now
    requires row.windowStart <= now <= row.windowStart + p.window
    requires 2 <= p.threshold && row.count + n < p.threshold
    ensures Counts(st, events, OneRow(p, source, row.(count := row.count + n)), source, w + n, start)
    ensures Clock(start, events) <= now
    decreases n
  {
    if n == 0 {
      events := init;
    } else {
      WeakSignalIsCounted(p, source, row, now);
      CountsSnoc(st, init, OneRow(p, source, row), source, w, start, WeakSignal(source, now));
      events := Burst(p, st, init + [WeakSignal(source, now)], source, row.(count := row.count + 1), now,
          w + 1, start, n - 1);
    }
  }

  /** A run of the store that keeps `source` unbanned through one less than the bound within one window. */
  ghost predicate JustEvades(p: Policy, history: seq<Event>, events: seq<Event>, source: IpAddr, start: Time) {
    var st := Run(Fresh(p), history);
    && Timed(0, history) && Clock(0, history) <= start
    && Timed(start, events) && Clock(start, events) <= start + p.window
    && Undisturbed(events, source)
    && NeverBanned(st, events, source)
    && EvidenceSince(st, events, source, 0) == Bound(p) - 1
  }

  lemma FirstSignalOpensTheRow(p: Policy, source: IpAddr)
    requires p.threshold >= 2
    ensures Run(Fresh(p), [WeakSignal(source, 0)]) == OneRow(p, source, FailureWindow(1, 0))
    ensures Timed(0, [WeakSignal(source, 0)])
  {
    assert [WeakSignal(source, 0)][..0] == [];
    assert Run(Fresh(p), []) == Fresh(p);
  }

  /** The evasion: one signal opens a window; just inside it, all but two of the threshold; just
      past it, all but one. */
  lemma Evasion(p: Policy, source: IpAddr) returns (events: seq<Event>)
    requires p.threshold >= 2
    ensures Counts(OneRow(p, source, FailureWindow(1, 0)), events,
                   OneRow(p, source, FailureWindow(p.threshold - 1, p.window + 1)), source, Bound(p) - 1, 1)
    ensures Clock(1, events) <= p.window + 1
  {
    var late := p.window + 1;
    var rolled := FillAndRollOver(p, source);
    events := Burst(p, OneRow(p, source, FailureWindow(1, 0)), rolled, source, FailureWindow(1, late), late,
        p.threshold - 1, 1, p.threshold - 2);
  }

  lemma FillAndRollOver(p: Policy, source: IpAddr) returns (events: seq<Event>)
    requires p.threshold >= 2
    ensures Counts(OneRow(p, source, FailureWindow(1, 0)), events,
                   OneRow(p, source, FailureWindow(1, p.window + 1)), source, p.threshold - 1, 1)
    ensures Clock(1, events) <= p.window + 1
  {
    var t := p.threshold - 2;
    var st := OneRow(p, source, FailureWindow(1, 0));
    CountsNothing(st, source, 1);
    var first := Burst(p, st, [], source, FailureWindow(1, 0), 1, 0, 1, t);
    events := RollOver(p, st, first, source, FailureWindow(1 + t, 0), p.window + 1, t, 1);
  }

  lemma RollOver(p: Policy, st: Store, init: seq<Event>, source: IpAddr, row: FailureWindow, now: Time, w: nat,
      start: Time)
    returns (events: seq<Event>)
    requires Counts(st, init, OneRow(p, source, row), source, w, start) && Clock(start, init) <= now
    requires row.windowStart + p.window < now && 2 <= p.threshold
    ensures Counts(st, events, OneRow(p, source, FailureWindow(1, now)), source, w + 1, start) &&
        Clock(start, events) <= now
  {
    WeakSignalIsCounted(p, source, row, now);
    CountsSnoc(st, init, OneRow(p, source, row), source, w, start, WeakSignal(source, now));
    events := init + [WeakSignal(source, now)];
  }

  /** One less than the bound can go unpunished, for every policy and source. */
  lemma BoundIsTight(p: Policy, source: IpAddr)
    ensures exists history, events, start :: JustEvades(p, history, events, source, start)
  {
    if p.threshold == 1 {
      assert JustEvades(p, [], [], source, 0);
    } else {
      FirstSignalOpensTheRow(p, source);
      var events := Evasion(p, source);
      assert JustEvades(p, [WeakSignal(source, 0)], events, source, 1);
    }
  }
}
