/** What interleaving can break in the auto-ban store, read off the schedule: which order of operations leaves
    a source in both tables, has two calls report one ban, or loses a live one.
 */
module AutoBanSchedules {
  import opened Common
  import AutoBanModel
  import opened AutoBanProtocol

  // ----- marks in a schedule -----

  /** The action moves a call of `s` that is in one of its own operations. */
  predicate Moves(st: State, action: Action, s: IpAddr) {
    action.Advance? && IsOf(st, action.id, s)
  }

  predicate Inserts(st: State, action: Action, s: IpAddr) {
    Moves(st, action, s) && st.agents[action.id].phase.Insert? && st.agents[action.id].kind.Recording?
  }

  predicate RemovesBan(st: State, action: Action, s: IpAddr) {
    action == DropBan(s) || (Moves(st, action, s) && st.agents[action.id].phase.Reap?)
  }

  predicate Counts(st: State, action: Action, s: IpAddr) {
    Moves(st, action, s) && st.agents[action.id].phase.Count? && st.agents[action.id].kind.Recording?
  }

  predicate RemovesRow(st: State, action: Action, s: IpAddr) {
    action == DropRow(s) || (Moves(st, action, s) && st.agents[action.id].phase.Clear?)
  }

  /** From action `k` on there is an insertion on `s` with no removal of the ban after it. */
  predicate InsertedSince(actions: seq<Action>, s: IpAddr, k: nat) {
    |actions| > k &&
    var init, last := actions[..|actions|-1], actions[|actions|-1];
    || Inserts(Run(INITIAL, init), last, s)
    || (!RemovesBan(Run(INITIAL, init), last, s) && InsertedSince(init, s, k))
  }

  /** From action `k` on there is a count on `s` with no removal of the failure row after it. */
  predicate CountedSince(actions: seq<Action>, s: IpAddr, k: nat) {
    |actions| > k &&
    var init, last := actions[..|actions|-1], actions[|actions|-1];
    || Counts(Run(INITIAL, init), last, s)
    || (!RemovesRow(Run(INITIAL, init), last, s) && CountedSince(init, s, k))
  }

  /** The signal moves the expiry of the standing ban past `t`. */
  predicate SlidesPast(st: State, action: Action, s: IpAddr, t: AutoBanModel.Time) {
    && Moves(st, action, s) && !action.trusted
    && var a, e := st.agents[action.id], EntryOf(st, s);
    && a.phase.Look? && a.kind.Recording? && Live(e, a.now)
    && AutoBanModel.Slide(a.kind.policy, e.ban.value, a.now).expiry > t
  }

  predicate InsertsPast(st: State, action: Action, s: IpAddr, t: AutoBanModel.Time) {
    Inserts(st, action, s) && st.agents[action.id].now + st.agents[action.id].kind.policy.banDuration > t
  }

  /** From action `k` on there is an insertion of a ban that runs past `t`, or a signal that moves one past `t`,
      with nothing removed or inserted after it. */
  predicate ArmedSince(actions: seq<Action>, s: IpAddr, k: nat, t: AutoBanModel.Time) {
    |actions| > k &&
    var init, last := actions[..|actions|-1], actions[|actions|-1];
    var before := Run(INITIAL, init);
    || InsertsPast(before, last, s, t)
    || SlidesPast(before, last, s, t)
    || (!Inserts(before, last, s) && !RemovesBan(before, last, s) && ArmedSince(init, s, k, t))
  }

  function After(actions: seq<Action>, n: nat): State
    requires n <= |actions|
  {
    Run(INITIAL, actions[..n])
  }

  lemma Whole(actions: seq<Action>)
    ensures After(actions, |actions|) == Run(INITIAL, actions)
  {
    assert actions[..|actions|] == actions;
  }

  lemma Shorter(actions: seq<Action>, n: nat)
    requires n < |actions|
    ensures After(actions[..|actions|-1], n) == After(actions, n)
  {
    assert actions[..|actions|-1][..n] == actions[..n];
  }

  // ----- the marks say what the tables hold -----

  lemma BanStepIs(st: State, action: Action, s: IpAddr)
    ensures EntryOf(Next(st, action), s).ban.Some?
      <==> Inserts(st, action, s) || (!RemovesBan(st, action, s) && EntryOf(st, s).ban.Some?)
  {
  }

  lemma RowStepIs(st: State, action: Action, s: IpAddr)
    ensures EntryOf(Next(st, action), s).row.Some?
      <==> Counts(st, action, s) || (!RemovesRow(st, action, s) && EntryOf(st, s).row.Some?)
  {
  }

  /** A ban that was not there stands exactly when one was inserted and not removed since. */
  lemma {:induction false} BanStandsIff(actions: seq<Action>, s: IpAddr, k: nat)
    requires k <= |actions| && EntryOf(After(actions, k), s).ban.None?
    ensures EntryOf(Run(INITIAL, actions), s).ban.Some? <==> InsertedSince(actions, s, k)
  {
    if k == |actions| {
      Whole(actions);
    } else {
      var init := actions[..|actions|-1];
      Shorter(actions, k);
      BanStandsIff(init, s, k);
      BanStepIs(Run(INITIAL, init), actions[|actions|-1], s);
    }
  }

  /** A failure row that was not there stands exactly when one was counted and not removed since. */
  lemma {:induction false} RowStandsIff(actions: seq<Action>, s: IpAddr, k: nat)
    requires k <= |actions| && EntryOf(After(actions, k), s).row.None?
    ensures EntryOf(Run(INITIAL, actions), s).row.Some? <==> CountedSince(actions, s, k)
  {
    if k == |actions| {
      Whole(actions);
    } else {
      var init := actions[..|actions|-1];
      Shorter(actions, k);
      RowStandsIff(init, s, k);
      RowStepIs(Run(INITIAL, init), actions[|actions|-1], s);
    }
  }

  lemma LiveStepIs(st: State, action: Action, s: IpAddr, t: AutoBanModel.Time)
    ensures Live(EntryOf(Next(st, action), s), t)
      <==> || InsertsPast(st, action, s, t) || SlidesPast(st, action, s, t)
           || (!Inserts(st, action, s) && !RemovesBan(st, action, s) && Live(EntryOf(st, s), t))
  {
  }

  /** A ban that was not live at `t` is exactly when one was armed past `t` since. */
  lemma {:induction false} LiveIff(actions: seq<Action>, s: IpAddr, k: nat, t: AutoBanModel.Time)
    requires k <= |actions| && !Live(EntryOf(After(actions, k), s), t)
    ensures Live(EntryOf(Run(INITIAL, actions), s), t) <==> ArmedSince(actions, s, k, t)
  {
    if k == |actions| {
      Whole(actions);
    } else {
      var init := actions[..|actions|-1];
      Shorter(actions, k);
      LiveIff(init, s, k, t);
      LiveStepIs(Run(INITIAL, init), actions[|actions|-1], s, t);
    }
  }

  // ----- what a call finds where it looked before -----

  /** Action `k` is the one by which the call `id` of `s`, not exempted, leaves the ban table behind to count. */
  predicate ComesToCount(actions: seq<Action>, id: nat, s: IpAddr, k: nat) {
    && k < |actions| && Moves(After(actions, k), actions[k], s) && actions[k].id == id
    && var phase := After(actions, k).agents[id].phase;
    && ((phase.Look? && !actions[k].trusted) || phase.Reap?)
    && Next(After(actions, k), actions[k]).agents[id].phase.Count?
  }

  lemma OneMore(actions: seq<Action>, k: nat)
    requires k < |actions|
    ensures After(actions, k + 1) == Next(After(actions, k), actions[k])
  {
    assert actions[..k + 1][..k] == actions[..k];
  }

  /** The call that is about to report a new ban reports one that another call has reported already exactly when
      that one was inserted, and not removed, after this call left the ban table behind. */
  lemma SecondReportIff(actions: seq<Action>, id: nat, s: IpAddr, k: nat)
    requires ComesToCount(actions, id, s, k)
    requires IsOf(Run(INITIAL, actions), id, s) && Run(INITIAL, actions).agents[id].phase.Insert?
    ensures
      var st := Run(INITIAL, actions);
      && (EntryOf(st, s).ban.Some? <==> InsertedSince(actions, s, k + 1))
      && (EntryOf(st, s).ban.Some? ==>
            var other := EntryOf(st, s).raisedBy;
            other != id && other in st.agents && st.agents[other].phase.Answered? && st.agents[other].phase.answer)
  {
    OneMore(actions, k);
    BanStandsIff(actions, s, k + 1);
    EveryBanIsBounded(actions, s);
  }

  /** The call that is about to count counts for a source that is banned, and so leaves it in both tables, exactly
      when the ban was inserted, and not removed, after this call left the ban table behind. */
  lemma CountsForABannedSourceIff(actions: seq<Action>, id: nat, s: IpAddr, k: nat)
    requires ComesToCount(actions, id, s, k)
    requires IsOf(Run(INITIAL, actions), id, s) && Run(INITIAL, actions).agents[id].phase.Count?
    ensures
      var after := EntryOf(Next(Run(INITIAL, actions), Advance(id, false)), s);
      after.row.Some? && (after.ban.Some? <==> InsertedSince(actions, s, k + 1))
  {
    OneMore(actions, k);
    BanStandsIff(actions, s, k + 1);
    RunKeepsInv(actions);
    assert AgentInv(Run(INITIAL, actions).agents, id);
  }

  /** Action `k` is the one by which the call `id` of `s` clears the failure row. */
  predicate Clears(actions: seq<Action>, id: nat, s: IpAddr, k: nat) {
    && k < |actions| && Moves(After(actions, k), actions[k], s) && actions[k].id == id
    && After(actions, k).agents[id].phase.Clear?
  }

  /** The call that is about to ban leaves the source in both tables exactly when another signal was counted, and
      its row not removed, after this call cleared the row. */
  lemma BansACountedSourceIff(actions: seq<Action>, id: nat, s: IpAddr, k: nat)
    requires Clears(actions, id, s, k)
    requires IsOf(Run(INITIAL, actions), id, s) && Run(INITIAL, actions).agents[id].phase.Insert?
    ensures
      var after := EntryOf(Next(Run(INITIAL, actions), Advance(id, false)), s);
      after.ban.Some? && (after.row.Some? <==> CountedSince(actions, s, k + 1))
  {
    OneMore(actions, k);
    RowStandsIff(actions, s, k + 1);
    RunKeepsInv(actions);
    assert AgentInv(Run(INITIAL, actions).agents, id);
  }

  /** Action `k` is the one by which the call `id` of `s`, made at `t`, sees that the ban has lapsed. */
  predicate SeesItLapsed(actions: seq<Action>, id: nat, s: IpAddr, k: nat, t: AutoBanModel.Time) {
    && k < |actions| && Moves(After(actions, k), actions[k], s) && actions[k].id == id
    && After(actions, k).agents[id].phase.Look? && After(actions, k).agents[id].now == t
    && Next(After(actions, k), actions[k]).agents[id].phase.Reap?
  }

  /** The call that is about to remove the ban it saw lapse removes one that is live at its own time exactly when
      that one was armed after it looked: inserted, or moved on by a signal from a call with an older clock. */
  lemma LiveBanIsLostIff(actions: seq<Action>, id: nat, s: IpAddr, k: nat, t: AutoBanModel.Time, trusted: bool)
    requires SeesItLapsed(actions, id, s, k, t)
    requires IsOf(Run(INITIAL, actions), id, s) && Run(INITIAL, actions).agents[id].phase.Reap?
    ensures
      var before := Run(INITIAL, actions);
      && EntryOf(Next(before, Advance(id, trusted)), s).ban.None?
      && (Live(EntryOf(before, s), t) <==> ArmedSince(actions, s, k + 1, t))
  {
    OneMore(actions, k);
    LiveIff(actions, s, k + 1, t);
  }

  /** Such a signal comes from a call made earlier. */
  lemma OnlyOlderClocksRevive(st: State, action: Action, s: IpAddr, t: AutoBanModel.Time)
    requires SlidesPast(st, action, s, t) && !Live(EntryOf(st, s), t)
    ensures st.agents[action.id].now < t
  {
  }

  // ----- both tables -----

  /** A source is in both tables exactly when the schedule has a count and an insertion for it, neither undone. */
  lemma InBothTablesIff(actions: seq<Action>, s: IpAddr)
    ensures EntryOf(Run(INITIAL, actions), s).row.Some? && EntryOf(Run(INITIAL, actions), s).ban.Some?
      <==> CountedSince(actions, s, 0) && InsertedSince(actions, s, 0)
  {
    RowStandsIff(actions, s, 0);
    BanStandsIff(actions, s, 0);
  }

  /** The first `n` actions have, for `s`, a count and an insertion that are not undone. */
  predicate BothMarked(actions: seq<Action>, n: nat, s: IpAddr)
    requires n <= |actions|
  {
    CountedSince(actions[..n], s, 0) && InsertedSince(actions[..n], s, 0)
  }

  ghost predicate AlwaysDisjoint(actions: seq<Action>) {
    forall n :: 0 <= n <= |actions| ==> Disjoint(After(actions, n))
  }

  /** The tables stay disjoint throughout a run exactly when no stretch of it from the start has, for one source,
      a count and an insertion that are not undone. */
  lemma AlwaysDisjointIff(actions: seq<Action>)
    ensures AlwaysDisjoint(actions) <==> forall n, s :: 0 <= n <= |actions| ==> !BothMarked(actions, n, s)
  {
    if n, s :| 0 <= n <= |actions| && BothMarked(actions, n, s) {
      InBothTablesIff(actions[..n], s);
      assert !Disjoint(After(actions, n));
    } else {
      forall n | 0 <= n <= |actions| ensures Disjoint(After(actions, n)) {
        forall s ensures EntryOf(After(actions, n), s).row.None? || EntryOf(After(actions, n), s).ban.None? {
          InBothTablesIff(actions[..n], s);
          assert !BothMarked(actions, n, s);
        }
      }
    }
  }

  // ----- schedules that do it -----

  lemma Do(actions: seq<Action>, action: Action) returns (more: seq<Action>)
    ensures more == actions + [action] && Run(INITIAL, more) == Next(Run(INITIAL, actions), action)
  {
    more := actions + [action];
    assert more[..|actions|] == actions;
  }

  /** A recording that reaches the threshold by itself. */
  function Heavy(p: AutoBanModel.Policy): Kind {
    Recording(p.threshold, p)
  }

  /** Two calls that both look before either counts both report a new ban. */
  lemma TwoReportsOfOneBan(p: AutoBanModel.Policy, s: IpAddr) returns (actions: seq<Action>)
    ensures
      var agents := Run(INITIAL, actions).agents;
      && 0 in agents && agents[0].phase.Answered? && agents[0].phase.answer
      && 1 in agents && agents[1].phase.Answered? && agents[1].phase.answer
      && agents[0] == agents[1].(phase := agents[0].phase)
  {
    actions := BothCounted(p, s);
    actions := Do(actions, Advance(0, false));
    actions := Do(actions, Advance(0, false));
    actions := Do(actions, Advance(1, false));
    actions := Do(actions, Advance(1, false));
  }

  lemma BothCounted(p: AutoBanModel.Policy, s: IpAddr) returns (actions: seq<Action>)
    ensures
      var agents := Run(INITIAL, actions).agents;
      && agents.Keys == {0, 1} && agents[0].phase.Clear? && agents[1].phase.Clear?
      && agents[0] == Agent(s, 0, Heavy(p), agents[0].phase) && agents[1] == Agent(s, 0, Heavy(p), agents[1].phase)
  {
    actions := BothLooked(s, Heavy(p), Heavy(p));
    actions := Do(actions, Advance(0, false));
    actions := Do(actions, Advance(1, false));
  }

  /** Two recordings that have both found no ban. */
  lemma BothLooked(s: IpAddr, first: Kind, second: Kind) returns (actions: seq<Action>)
    requires first.Recording? && second.Recording? && first.weight > 0 && second.weight > 0
    ensures
      var st := Run(INITIAL, actions);
      st.agents == map[0 := Agent(s, 0, first, Count), 1 := Agent(s, 0, second, Count)] && EntryOf(st, s) == ABSENT
  {
    actions := [];
    actions := Do(actions, Arrive(0, s, 0, first));
    actions := Do(actions, Arrive(1, s, 0, second));
    actions := Do(actions, Advance(0, false));
    actions := Do(actions, Advance(1, false));
  }

  /** A source counted between the removal of its row and the insertion of its ban ends in both tables. */
  lemma InBothTables(p: AutoBanModel.Policy, s: IpAddr) returns (actions: seq<Action>)
    requires p.threshold >= 2
    ensures EntryOf(Run(INITIAL, actions), s).row.Some? && EntryOf(Run(INITIAL, actions), s).ban.Some?
  {
    actions := BothLooked(s, Heavy(p), Recording(1, p));
    actions := Do(actions, Advance(0, false));
    actions := Do(actions, Advance(0, false));
    actions := Do(actions, Advance(1, false));
    actions := Do(actions, Advance(0, false));
  }

  /** A check that saw a lapsed ban can take away the one raised since, though its report stands. */
  lemma ReportedBanIsLost(p: AutoBanModel.Policy, s: IpAddr) returns (actions: seq<Action>)
    ensures
      var st := Run(INITIAL, actions);
      && 2 in st.agents && st.agents[2].phase.Answered? && st.agents[2].phase.answer
      && st.agents[2].now == p.banDuration
      && EntryOf(st, s) == ABSENT.(raisedBy := 2)
  {
    actions := BanLapses(p, s);
    actions := Do(actions, Advance(2, false));
    actions := Do(actions, Advance(2, false));
    actions := Do(actions, Advance(2, false));
    assert Live(EntryOf(Run(INITIAL, actions), s), p.banDuration);
    actions := Do(actions, Advance(1, false));
  }

  /** A check has seen the ban lapse, and a recording has reaped it and is about to count. */
  lemma BanLapses(p: AutoBanModel.Policy, s: IpAddr) returns (actions: seq<Action>)
    ensures
      var st, t := Run(INITIAL, actions), p.banDuration;
      && EntryOf(st, s) == ABSENT
      && 1 in st.agents && st.agents[1] == Agent(s, t, Checking, Reap)
      && 2 in st.agents && st.agents[2] == Agent(s, t, Heavy(p), Count)
  {
    actions := FirstBan(p, s);
    var t := p.banDuration;
    actions := Do(actions, Arrive(1, s, t, Checking));
    actions := Do(actions, Advance(1, false));
    actions := Do(actions, Arrive(2, s, t, Heavy(p)));
    actions := Do(actions, Advance(2, false));
    actions := Do(actions, Advance(2, false));
  }

  lemma FirstBan(p: AutoBanModel.Policy, s: IpAddr) returns (actions: seq<Action>)
    ensures
      var st := Run(INITIAL, actions);
      && st.agents.Keys == {0} && st.entries.Keys == {s}
      && st.entries[s] == Entry(None, Some(AutoBanModel.BanEntry(p.banDuration, p.maxBanDuration)), [], 0)
  {
    actions := [];
    actions := Do(actions, Arrive(0, s, 0, Heavy(p)));
    actions := Do(actions, Advance(0, false));
    actions := Do(actions, Advance(0, false));
    actions := Do(actions, Advance(0, false));
    actions := Do(actions, Advance(0, false));
  }
}
