/** The auto-ban store under concurrency: recording a signal and checking for a ban are several
    operations on two tables, each atomic for one source's entry, and those of different calls
    interleave in any order. What survives, and what does not.
 */
module AutoBanProtocol {
  import opened Common
  import opened AutoBanModel

  /** The two calls that take more than one operation. A recording has loaded its policy. */
  datatype Kind = Recording(weight: U32, policy: Policy) | Checking

  /** The operation a call runs next. The calls whose signals a row counted travel along as evidence. */
  datatype Phase =
    | Look                            // at the ban table
    | Reap                            // remove the ban that was seen to have lapsed
    | Count                           // into the failure table
    | Clear(evidence: seq<nat>)       // the failure row, the threshold having been reached
    | Insert(evidence: seq<nat>)      // the ban
    | Answered(answer: bool, evidence: seq<nat>)

  /** A call in progress. */
  datatype Agent = Agent(source: IpAddr, now: Time, kind: Kind, phase: Phase)

  /** What the two tables hold on one source; and, for the record, which calls the failure row counts and
      which call inserted the ban. */
  datatype Entry = Entry(row: Option<FailureWindow>, ban: Option<BanEntry>, counts: seq<nat>, raisedBy: nat)

  const ABSENT := Entry(None, None, [], 0)

  datatype State = State(entries: map<IpAddr, Entry>, agents: map<nat, Agent>)

  const INITIAL := State(map[], map[])

  function EntryOf(st: State, s: IpAddr): Entry {
    if s in st.entries then st.entries[s] else ABSENT
  }

  /** Successes, unbanning, disabling, lifting and pruning come down to removals of single rows, at any time. */
  datatype Action =
    | Arrive(id: nat, source: IpAddr, now: Time, kind: Kind)
    | Advance(id: nat, trusted: bool)
    | DropRow(source: IpAddr)
    | DropBan(source: IpAddr)

  function AfterLook(kind: Kind): Phase {
    if kind.Recording? then Count else Answered(false, [])
  }

  predicate Live(e: Entry, now: Time) {
    e.ban.Some? && e.ban.value.expiry > now
  }

  function LookStep(e: Entry, a: Agent, trusted: bool): (Entry, Phase) {
    if trusted || e.ban.None? then (e, AfterLook(a.kind))
    else if !Live(e, a.now) then (e, Reap)
    else if a.kind.Checking? then (e, Answered(true, []))
    else (e.(ban := Some(Slide(a.kind.policy, e.ban.value, a.now))), Answered(false, []))
  }

  /** The calls a row counts once `id` has counted: it joins an open window, or starts one. */
  function CountedBy(e: Entry, id: nat, a: Agent): seq<nat>
    requires a.kind.Recording?
  {
    if e.row.Some? && SinceStart(a.now, e.row.value.windowStart) <= a.kind.policy.window then e.counts + [id] else [id]
  }

  function CountStep(e: Entry, id: nat, a: Agent): (Entry, Phase)
    requires a.kind.Recording?
  {
    var row := CountSignal(a.kind.policy, e.row, a.kind.weight, a.now);
    var counts := CountedBy(e, id, a);
    (e.(row := Some(row), counts := counts),
     if row.count >= a.kind.policy.threshold then Clear(counts) else Answered(false, []))
  }

  /** One atomic operation of a call on its source's entry. */
  function Step(e: Entry, id: nat, a: Agent, trusted: bool): (Entry, Phase) {
    match a.phase
    case Look => LookStep(e, a, trusted)
    case Reap => (e.(ban := None), AfterLook(a.kind))
    case Count => if a.kind.Recording? then CountStep(e, id, a) else (e, a.phase)
    case Clear(evidence) => (e.(row := None, counts := []), Insert(evidence))
    case Insert(evidence) =>
      if a.kind.Checking? then (e, a.phase)
      else
        var ban := BanEntry(a.now + a.kind.policy.banDuration, a.now + a.kind.policy.maxBanDuration);
        (e.(ban := Some(ban), raisedBy := id), Answered(true, evidence))
    case Answered(_, _) => (e, a.phase)
  }

  /** The state after one action; an action nobody can take changes nothing. */
  function Next(st: State, action: Action): State {
    match action
    case Arrive(id, source, now, kind) =>
      if id in st.agents || (kind.Recording? && kind.weight == 0) then st
      else st.(agents := st.agents[id := Agent(source, now, kind, Look)])
    case Advance(id, trusted) =>
      if id !in st.agents then st
      else
        var a := st.agents[id];
        var (e, phase) := Step(EntryOf(st, a.source), id, a, trusted);
        State(st.entries[a.source := e], st.agents[id := a.(phase := phase)])
    case DropRow(s) => st.(entries := st.entries[s := EntryOf(st, s).(row := None, counts := [])])
    case DropBan(s) => st.(entries := st.entries[s := EntryOf(st, s).(ban := None)])
  }

  function Run(st: State, actions: seq<Action>): State {
    if actions == [] then st else Next(Run(st, actions[..|actions|-1]), actions[|actions|-1])
  }

  // ----- sources do not disturb each other -----

  /** Whether an action has to do with `s`. */
  predicate Concerns(st: State, action: Action, s: IpAddr) {
    match action
    case Arrive(id, source, _, _) => id !in st.agents && source == s
    case Advance(id, _) => IsOf(st, id, s)
    case DropRow(source) => source == s
    case DropBan(source) => source == s
  }

  /** The actions of a run that have to do with `s`. */
  function Only(st: State, actions: seq<Action>, s: IpAddr): seq<Action> {
    if actions == [] then []
    else
      var init, last := actions[..|actions|-1], actions[|actions|-1];
      if Concerns(Run(st, init), last, s) then Only(st, init, s) + [last] else Only(st, init, s)
  }

  predicate IsOf(st: State, id: nat, s: IpAddr) {
    id in st.agents && st.agents[id].source == s
  }

  /** Two states look the same to `s`; the second may lack calls of others. */
  ghost predicate SameFor(u: State, v: State, s: IpAddr) {
    && EntryOf(u, s) == EntryOf(v, s)
    && (forall id :: IsOf(u, id, s) ==> id in v.agents && u.agents[id] == v.agents[id])
    && (forall id :: id in v.agents ==> id in u.agents && u.agents[id].source == v.agents[id].source)
  }

  lemma OthersLeaveAlone(u: State, v: State, action: Action, s: IpAddr)
    requires SameFor(u, v, s) && !Concerns(u, action, s)
    ensures SameFor(Next(u, action), v, s)
  {
  }

  lemma OwnActsAlike(u: State, v: State, action: Action, s: IpAddr)
    requires SameFor(u, v, s) && Concerns(u, action, s)
    ensures SameFor(Next(u, action), Next(v, action), s)
  {
    if action.Advance? {
      assert IsOf(u, action.id, s);
    }
  }

  /** Whatever other sources do in between, a source's rows and calls are as if it had been alone. */
  lemma {:induction false} SourcesAreIndependent(st: State, actions: seq<Action>, s: IpAddr)
    ensures SameFor(Run(st, actions), Run(st, Only(st, actions, s)), s)
  {
    if actions != [] {
      var init, last := actions[..|actions|-1], actions[|actions|-1];
      SourcesAreIndependent(st, init, s);
      var own := Only(st, init, s);
      if Concerns(Run(st, init), last, s) {
        OwnActsAlike(Run(st, init), Run(st, own), last, s);
        assert (own + [last])[..|own|] == own;
      } else {
        OthersLeaveAlone(Run(st, init), Run(st, own), last, s);
      }
    }
  }

  // ----- a call that runs alone does what the value model says -----

  /** How many operations are left, at most. */
  function Rank(phase: Phase): nat {
    match phase
    case Look => 5 case Reap => 4 case Count => 3 case Clear(_) => 2 case Insert(_) => 1 case Answered(_, _) => 0
  }

  /** A call run to its end with nobody in between. */
  function Alone(e: Entry, id: nat, a: Agent): (Entry, Phase)
    decreases Rank(a.phase)
  {
    var (after, phase) := Step(e, id, a, false);
    if Rank(phase) < Rank(a.phase) then Alone(after, id, a.(phase := phase)) else (after, phase)
  }

  /** What the value model's tables hold on one source. */
  predicate Shows(st: Store, s: IpAddr, e: Entry) {
    Lookup(st.failures, s) == e.row && Lookup(st.bans, s) == e.ban
  }

  /** A recording that nobody comes between leaves and answers what `RecordSignal` does. */
  lemma RecordingAlone(st: Store, e: Entry, id: nat, source: IpAddr, now: Time, p: Policy, signal: Signal)
    requires st.policy == Some(p) && Shows(st, source, e) && Weight(p, signal) > 0
    ensures
      var (end, phase) := Alone(e, id, Agent(source, now, Recording(Weight(p, signal), p), Look));
      var (after, newly, _) := RecordSignal(st, source, signal, false, now);
      Shows(after, source, end) && phase.Answered? && phase.answer == newly
  {
    var a := Agent(source, now, Recording(Weight(p, signal), p), Look);
    if !Live(e, now) {
      CountedAlone(e.(ban := None), id, a.(phase := Count));
      if e.ban.Some? {
        assert Alone(e, id, a) == Alone(e, id, a.(phase := Reap)) == Alone(e.(ban := None), id, a.(phase := Count));
      } else {
        assert e.(ban := None) == e;
      }
    }
  }

  lemma CountedAlone(e: Entry, id: nat, a: Agent)
    requires a.kind.Recording? && a.phase.Count?
    ensures
      var p := a.kind.policy;
      var row := CountSignal(p, e.row, a.kind.weight, a.now);
      var (end, phase) := Alone(e, id, a);
      && phase.Answered? && phase.answer == (row.count >= p.threshold)
      && end.row == (if row.count >= p.threshold then None else Some(row))
      && end.ban == (if row.count >= p.threshold then
          Some(BanEntry(a.now + p.banDuration, a.now + p.maxBanDuration)) else e.ban)
  {
    var (e1, phase) := CountStep(e, id, a);
    assert Alone(e, id, a) == Alone(e1, id, a.(phase := phase));
    if phase.Clear? {
      var e2, b := e1.(row := None, counts := []), a.(phase := Insert(phase.evidence));
      assert Alone(e1, id, a.(phase := phase)) == Alone(e2, id, b);
      var (e3, last) := Step(e2, id, b, false);
      assert Alone(e2, id, b) == Alone(e3, id, b.(phase := last)) == (e3, last);
    } else {
      assert Alone(e1, id, a.(phase := phase)) == (e1, phase);
    }
  }

  /** So does a check. */
  lemma CheckingAlone(st: Store, e: Entry, id: nat, source: IpAddr, now: Time)
    requires Shows(st, source, e)
    ensures
      var (end, phase) := Alone(e, id, Agent(source, now, Checking, Look));
      var (after, banned) := CheckBanned(st, source, false, now);
      Shows(after, source, end) && phase.Answered? && phase.answer == banned
  {
    var a := Agent(source, now, Checking, Look);
    if e.ban.Some? && !Live(e, now) {
      assert Alone(e, id, a) == Alone(e, id, a.(phase := Reap));
    }
  }

  // ----- every ban is justified, in every interleaving -----

  /** The weight of the given calls together. */
  function Total(agents: map<nat, Agent>, ids: seq<nat>): nat {
    if ids == [] then 0
    else
      var id := ids[|ids|-1];
      Total(agents, ids[..|ids|-1]) + if id in agents && agents[id].kind.Recording? then agents[id].kind.weight else 0
  }

  /** Distinct recordings from `s` that have been counted. */
  predicate Signals(agents: map<nat, Agent>, ids: seq<nat>, s: IpAddr) {
    && ids != []
    && (forall i, j :: 0 <= i < j < |ids| ==> ids[i] != ids[j])
    && (forall id :: id in ids ==>
        id in agents && agents[id].source == s && agents[id].kind.Recording? && Rank(agents[id].phase) < 3)
  }

  /** The failure row counts exactly the signals of the calls on record, from the first one on. */
  predicate RowCounts(agents: map<nat, Agent>, e: Entry, s: IpAddr) {
    e.row.Some? ==>
      && Signals(agents, e.counts, s)
      && e.row.value.count == Min(Total(agents, e.counts), U32_MODULUS - 1)
      && e.row.value.windowStart == agents[e.counts[0]].now
  }

  /** The call reached the threshold with signals of its source, its own the last, within its window. */
  predicate Justified(agents: map<nat, Agent>, id: nat, evidence: seq<nat>) {
    && id in agents && agents[id].kind.Recording?
    && Signals(agents, evidence, agents[id].source) && evidence[|evidence|-1] == id
    && SinceStart(agents[id].now, agents[evidence[0]].now) <= agents[id].kind.policy.window
    && Total(agents, evidence) >= agents[id].kind.policy.threshold
  }

  predicate AgentInv(agents: map<nat, Agent>, id: nat)
    requires id in agents
  {
    var a := agents[id];
    && (a.kind.Recording? ==> a.kind.weight > 0)
    && (a.phase.Count? ==> a.kind.Recording?)
    && (a.phase.Clear? || a.phase.Insert? ==> Justified(agents, id, a.phase.evidence))
    && (a.phase.Answered? && a.phase.answer && a.kind.Recording? ==> Justified(agents, id, a.phase.evidence))
  }

  /** The ban was inserted by a call that reported it, and is where that call's policy allows it to be. */
  predicate BanInv(agents: map<nat, Agent>, e: Entry, s: IpAddr) {
    e.ban.Some? ==>
      && e.raisedBy in agents
      && var a := agents[e.raisedBy];
      && a.source == s && a.kind.Recording? && a.phase.Answered? && a.phase.answer
      && e.ban.value.hardDeadline == a.now + a.kind.policy.maxBanDuration
      && a.now + a.kind.policy.banDuration <= e.ban.value.expiry <= e.ban.value.hardDeadline
  }

  ghost predicate Inv(st: State) {
    && (forall id :: id in st.agents ==> AgentInv(st.agents, id))
    && (forall s :: RowCounts(st.agents, EntryOf(st, s), s) && BanInv(st.agents, EntryOf(st, s), s))
  }

  // ----- what calls do not lose as others go on -----

  /** Calls only ever move on, and an answer stands. */
  ghost predicate MovedOn(agents: map<nat, Agent>, later: map<nat, Agent>) {
    forall id :: id in agents ==>
                   && id in later
                   && later[id] == agents[id].(phase := later[id].phase)
                   && Rank(later[id].phase) <= Rank(agents[id].phase)
                   && (agents[id].phase.Answered? ==> later[id] == agents[id])
  }

  lemma NextMovesOn(st: State, action: Action)
    ensures MovedOn(st.agents, Next(st, action).agents)
  {
  }

  lemma {:induction false} TotalStays(agents: map<nat, Agent>, later: map<nat, Agent>, ids: seq<nat>)
    requires MovedOn(agents, later) && forall id :: id in ids ==> id in agents
    ensures Total(later, ids) == Total(agents, ids)
  {
    if ids != [] {
      TotalStays(agents, later, ids[..|ids|-1]);
      assert ids[|ids|-1] in ids;
    }
  }

  lemma SignalsStay(agents: map<nat, Agent>, later: map<nat, Agent>, ids: seq<nat>, s: IpAddr)
    requires MovedOn(agents, later) && Signals(agents, ids, s)
    ensures Signals(later, ids, s) && Total(later, ids) == Total(agents, ids) && later[ids[0]].now == agents[ids[0]].now
  {
    TotalStays(agents, later, ids);
    assert ids[0] in ids;
  }

  lemma AgentStays(agents: map<nat, Agent>, later: map<nat, Agent>, id: nat)
    requires MovedOn(agents, later) && id in agents && AgentInv(agents, id) && later[id] == agents[id]
    ensures AgentInv(later, id)
  {
    var phase := agents[id].phase;
    if (phase.Clear? || phase.Insert? || phase.Answered?) && Justified(agents, id, phase.evidence) {
      SignalsStay(agents, later, phase.evidence, agents[id].source);
    }
  }

  lemma EntryStays(agents: map<nat, Agent>, later: map<nat, Agent>, e: Entry, s: IpAddr)
    requires MovedOn(agents, later) && RowCounts(agents, e, s) && BanInv(agents, e, s)
    ensures RowCounts(later, e, s) && BanInv(later, e, s)
  {
    if e.row.Some? {
      SignalsStay(agents, later, e.counts, s);
    }
  }

  // ----- one operation -----

  /** The calls a row counts after `id` has counted are signals of the source, with their weights added up. */
  lemma CountedSignals(agents: map<nat, Agent>, later: map<nat, Agent>, e: Entry, id: nat)
    requires id in agents && AgentInv(agents, id) && agents[id].phase.Count? && RowCounts(agents, e, agents[id].source)
    requires MovedOn(agents, later) && Rank(later[id].phase) < 3
    ensures
      var a := agents[id];
      var row, ids := CountSignal(a.kind.policy, e.row, a.kind.weight, a.now), CountedBy(e, id, a);
      && Signals(later, ids, a.source) && ids[|ids|-1] == id
      && row.count == Min(Total(later, ids), U32_MODULUS - 1)
      && row.windowStart == later[ids[0]].now && SinceStart(a.now, row.windowStart) <= a.kind.policy.window
  {
    var a := agents[id];
    var ids := CountedBy(e, id, a);
    assert ids[..|ids|-1] == if ids == [id] then [] else e.counts;
    if ids != [id] {
      SignalsStay(agents, later, e.counts, a.source);
      assert id !in e.counts;
      assert ids == e.counts + [id];
    }
    assert Total(later, []) == 0;
  }

  /** What an operation has to keep of its own call and entry. */
  predicate OwnInv(agents: map<nat, Agent>, e: Entry, id: nat) {
    id in agents && AgentInv(agents, id) && RowCounts(agents, e, agents[id].source) &&
        BanInv(agents, e, agents[id].source)
  }

  /** The calls before and after an operation of `id` on the entry of its source. */
  ghost predicate Moves(agents: map<nat, Agent>, later: map<nat, Agent>, e: Entry, id: nat, trusted: bool) {
    && OwnInv(agents, e, id) && MovedOn(agents, later)
    && later[id] == agents[id].(phase := Step(e, id, agents[id], trusted).1)
  }

  lemma LookKeeps(agents: map<nat, Agent>, later: map<nat, Agent>, e: Entry, id: nat, trusted: bool)
    requires Moves(agents, later, e, id, trusted) &&
        (agents[id].phase.Look? || agents[id].phase.Reap? || agents[id].phase.Answered?)
    ensures OwnInv(later, Step(e, id, agents[id], trusted).0, id)
  {
    var a := agents[id];
    EntryStays(agents, later, e, a.source);
    if a.phase.Answered? {
      AgentStays(agents, later, id);
    }
  }

  lemma CountKeeps(agents: map<nat, Agent>, later: map<nat, Agent>, e: Entry, id: nat, trusted: bool)
    requires Moves(agents, later, e, id, trusted) && agents[id].phase.Count?
    ensures OwnInv(later, Step(e, id, agents[id], trusted).0, id)
  {
    EntryStays(agents, later, e, agents[id].source);
    CountedSignals(agents, later, e, id);
  }

  lemma BanKeeps(agents: map<nat, Agent>, later: map<nat, Agent>, e: Entry, id: nat, trusted: bool)
    requires Moves(agents, later, e, id, trusted) && (agents[id].phase.Clear? || agents[id].phase.Insert?)
    ensures OwnInv(later, Step(e, id, agents[id], trusted).0, id)
  {
    EntryStays(agents, later, e, agents[id].source);
    SignalsStay(agents, later, agents[id].phase.evidence, agents[id].source);
  }

  lemma AdvanceKeepsOwn(st: State, id: nat, trusted: bool)
    requires Inv(st) && id in st.agents
    ensures
      var later := Next(st, Advance(id, trusted));
      OwnInv(later.agents, EntryOf(later, st.agents[id].source), id)
  {
    var a := st.agents[id];
    var e, later := EntryOf(st, a.source), Next(st, Advance(id, trusted));
    NextMovesOn(st, Advance(id, trusted));
    assert AgentInv(st.agents, id) && RowCounts(st.agents, e, a.source) && BanInv(st.agents, e, a.source);
    assert Moves(st.agents, later.agents, e, id, trusted);
    match a.phase {
      case Count => CountKeeps(st.agents, later.agents, e, id, trusted);
      case Clear(_) => BanKeeps(st.agents, later.agents, e, id, trusted);
      case Insert(_) => BanKeeps(st.agents, later.agents, e, id, trusted);
      case _ => LookKeeps(st.agents, later.agents, e, id, trusted);
    }
  }

  lemma StepKeepsInv(st: State, action: Action)
    requires Inv(st)
    ensures Inv(Next(st, action))
  {
    var later := Next(st, action);
    NextMovesOn(st, action);
    if action.Advance? && action.id in st.agents {
      AdvanceKeepsOwn(st, action.id, action.trusted);
    }
    forall id | id in later.agents ensures AgentInv(later.agents, id) {
      if id in st.agents && later.agents[id] == st.agents[id] {
        AgentStays(st.agents, later.agents, id);
      }
    }
    forall s ensures RowCounts(later.agents, EntryOf(later, s), s) && BanInv(later.agents, EntryOf(later, s), s) {
      EntryStays(st.agents, later.agents, EntryOf(st, s), s);
    }
  }

  lemma {:induction false} RunKeepsInv(actions: seq<Action>)
    ensures Inv(Run(INITIAL, actions))
  {
    if actions != [] {
      RunKeepsInv(actions[..|actions|-1]);
      StepKeepsInv(Run(INITIAL, actions[..|actions|-1]), actions[|actions|-1]);
    }
  }

  /** In every interleaving, whoever reports a new ban reached the threshold with distinct signals of the
      source, its own the last, the first of them no more than a window earlier. */
  lemma EveryReportIsJustified(actions: seq<Action>, id: nat)
    requires
      var agents := Run(INITIAL, actions).agents;
      id in agents && agents[id].kind.Recording? && agents[id].phase.Answered? && agents[id].phase.answer
    ensures
      var agents := Run(INITIAL, actions).agents;
      Justified(agents, id, agents[id].phase.evidence)
  {
    RunKeepsInv(actions);
    assert AgentInv(Run(INITIAL, actions).agents, id);
  }

  /** In every interleaving, every ban was reported by the call that inserted it, and lies within the bounds
      of that call's policy. */
  lemma EveryBanIsBounded(actions: seq<Action>, s: IpAddr)
    ensures BanInv(Run(INITIAL, actions).agents, EntryOf(Run(INITIAL, actions), s), s)
    ensures RowCounts(Run(INITIAL, actions).agents, EntryOf(Run(INITIAL, actions), s), s)
  {
    RunKeepsInv(actions);
  }

  // ----- calls that take turns -----

  /** No source is in both tables. */
  ghost predicate Disjoint(st: State) {
    forall s :: EntryOf(st, s).row.None? || EntryOf(st, s).ban.None?
  }

  /** Between its look and its answer. */
  predicate Mid(phase: Phase) {
    phase.Reap? || phase.Count? || phase.Clear? || phase.Insert?
  }

  /** A call goes on only while no other call of its source is in the middle, and a recording is not trusted
      half-way. */
  ghost predicate TakesTurns(st: State, action: Action) {
    action.Advance? && action.id in st.agents ==>
      && (st.agents[action.id].kind.Recording? ==> !action.trusted)
      && forall other ::
           IsOf(st, other, st.agents[action.id].source) && other != action.id ==> !Mid(st.agents[other].phase)
  }

  ghost predicate AlwaysTakesTurns(st: State, actions: seq<Action>) {
    actions != [] ==>
      var init := actions[..|actions|-1];
      AlwaysTakesTurns(st, init) && TakesTurns(Run(st, init), actions[|actions|-1])
  }

  /** The operation finds what its call saw: no live ban to reap, no ban to count against, and neither a ban
      nor a row where it bans. */
  predicate FindsWhatItSaw(e: Entry, a: Agent) {
    && (a.phase.Reap? ==> !Live(e, a.now))
    && (a.phase.Count? || a.phase.Clear? || a.phase.Insert? ==> e.ban.None?)
    && (a.phase.Insert? ==> e.row.None?)
  }

  ghost predicate TurnsInv(st: State) {
    && Disjoint(st) && OneAtATime(st)
    && (forall id :: id in st.agents ==> FindsWhatItSaw(EntryOf(st, st.agents[id].source), st.agents[id]))
  }

  lemma StepFinds(e: Entry, id: nat, a: Agent, trusted: bool)
    requires FindsWhatItSaw(e, a) && (e.row.None? || e.ban.None?) && (a.kind.Recording? ==> !trusted)
    ensures
      var (after, phase) := Step(e, id, a, trusted);
      FindsWhatItSaw(after, a.(phase := phase)) && (after.row.None? || after.ban.None?)
  {
  }

  /** No two calls of one source are in the middle at once. */
  ghost predicate OneAtATime(st: State) {
    forall i, j :: i in st.agents && j in st.agents && i != j && st.agents[i].source == st.agents[j].source ==>
                     !(Mid(st.agents[i].phase) && Mid(st.agents[j].phase))
  }

  lemma TurnKeepsOneAtATime(st: State, action: Action)
    requires OneAtATime(st) && TakesTurns(st, action)
    ensures OneAtATime(Next(st, action))
  {
  }

  lemma TurnKeepsInv(st: State, action: Action)
    requires TurnsInv(st) && TakesTurns(st, action)
    ensures TurnsInv(Next(st, action))
  {
    var later := Next(st, action);
    TurnKeepsOneAtATime(st, action);
    if action.Advance? && action.id in st.agents {
      var a := st.agents[action.id];
      assert FindsWhatItSaw(EntryOf(st, a.source), a);
      StepFinds(EntryOf(st, a.source), action.id, a, action.trusted);
    }
    forall s ensures EntryOf(later, s).row.None? || EntryOf(later, s).ban.None? {
      assert EntryOf(st, s).row.None? || EntryOf(st, s).ban.None?;
    }
    forall id | id in later.agents ensures FindsWhatItSaw(EntryOf(later, later.agents[id].source), later.agents[id]) {
      if id in st.agents {
        assert FindsWhatItSaw(EntryOf(st, st.agents[id].source), st.agents[id]);
      }
    }
  }

  /** While the calls of each source take turns, whatever those of other sources do in between, every operation
      finds what its call saw: the tables stay disjoint, no live ban is lost, and every report is of a source
      that nobody had banned. */
  lemma {:induction false} TurnsKeepOrder(actions: seq<Action>)
    requires AlwaysTakesTurns(INITIAL, actions)
    ensures TurnsInv(Run(INITIAL, actions))
  {
    if actions != [] {
      TurnsKeepOrder(actions[..|actions|-1]);
      TurnKeepsInv(Run(INITIAL, actions[..|actions|-1]), actions[|actions|-1]);
    }
  }

  // ----- trust -----

  lemma {:induction false} AnswersStand(st: State, actions: seq<Action>, id: nat)
    requires id in st.agents && st.agents[id].phase.Answered?
    ensures id in Run(st, actions).agents && Run(st, actions).agents[id] == st.agents[id]
  {
    if actions != [] {
      AnswersStand(st, actions[..|actions|-1], id);
    }
  }

  /** A check whose lookup finds the source trusted answers no, in every interleaving and for good, and leaves both
      tables as they are, a lapsed ban included. A recording trusted only by its second lookup goes on to count. */
  lemma TrustedLook(st: State, id: nat, actions: seq<Action>, s: IpAddr)
    requires id in st.agents && st.agents[id].phase.Look?
    ensures
      var looked := Next(st, Advance(id, true));
      && EntryOf(looked, s) == EntryOf(st, s)
      && (st.agents[id].kind.Checking? ==>
            id in Run(looked, actions).agents && Run(looked, actions).agents[id].phase == Answered(false, []))
      && (st.agents[id].kind.Recording? ==> looked.agents[id].phase.Count?)
  {
    if st.agents[id].kind.Checking? {
      AnswersStand(Next(st, Advance(id, true)), actions, id);
    }
  }
}
