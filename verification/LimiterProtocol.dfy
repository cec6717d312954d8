/** The connection limiter as a concurrent protocol: any number of accepting and
    releasing threads, each counter operation one atomic step, in every interleaving.

    An agent is one accepted socket: first the attempt that runs `try_accept`, then
    the permit it was granted, then the release. A permit is owned by one task at a
    time, so the operations on one permit never overlap; those of different agents do.
 */
module LimiterProtocol {
  import opened Common
  import opened LimiterCounters

  /** The release operation an agent runs next. Reaping follows only a decrement that left zero. */
  datatype Give = GiveHandshakeRow | ReapHandshakeRow | GiveHandshakeTotal
                | GiveConnectionRow | ReapConnectionRow | GiveConnectionTotal

  /** What the agent becomes once its releases are through. */
  datatype After = KeepConnection | Refuse(reason: RefusedReason) | Gone

  datatype Phase =
    | Looking                                // before the trust lookup
    | TakeConnectionTotal
    | TakeConnectionRow
    | TakeHandshakeTotal
    | TakeHandshakeRow
    | Live(handshakeHeld: bool)              // a metered permit
    | Unmetered                              // a permit that counts against nothing
    | Giving(at: Give, after: After)         // rolling back, finishing a handshake, or dropping
    | Refused(reason: RefusedReason)
    | Dropped

  datatype Agent = Agent(source: IpAddr, phase: Phase)

  datatype State = State(counters: Counters, agents: map<nat, Agent>)

  const INITIAL := State(EMPTY, map[])

  /** One step of the system. `trusted` is what the trust lookup answers at that moment. */
  datatype Action =
    | Arrive(id: nat, source: IpAddr)
    | Advance(id: nat, trusted: bool)
    | HandshakeDone(id: nat)
    | Drop(id: nat)

  function Finish(after: After): Phase {
    match after
    case KeepConnection => Live(false)
    case Refuse(reason) => Refused(reason)
    case Gone => Dropped
  }

  /** One atomic operation of an agent that is in the middle of a call. */
  function StepAgent(limits: Limits, c: Counters, agent: Agent, trusted: bool): (Counters, Phase) {
    var source := agent.source;
    match agent.phase
    case Looking => (c, if trusted then Unmetered else TakeConnectionTotal)
    case TakeConnectionTotal =>
      var (total, ok) := TakeTotal(c.connectionsTotal, limits.maxConnections);
      (c.(connectionsTotal := total), if ok then TakeConnectionRow else Refused(Connections))
    case TakeConnectionRow =>
      var (rows, ok) := TakeRow(c.connections, source, limits.maxConnectionsPerSource);
      (c.(connections := rows),
       if ok then TakeHandshakeTotal else Giving(GiveConnectionTotal, Refuse(ConnectionsPerSource)))
    case TakeHandshakeTotal =>
      var (total, ok) := TakeTotal(c.handshakesTotal, limits.maxHandshakes);
      (c.(handshakesTotal := total),
       if ok then TakeHandshakeRow else Giving(GiveConnectionRow, Refuse(Handshakes)))
    case TakeHandshakeRow =>
      var (rows, ok) := TakeRow(c.handshakes, source, limits.maxHandshakesPerSource);
      (c.(handshakes := rows),
       if ok then Live(true) else Giving(GiveHandshakeTotal, Refuse(HandshakesPerSource)))
    case Giving(GiveHandshakeRow, after) =>
      var (rows, empty) := GiveRow(c.handshakes, source);
      (c.(handshakes := rows), Giving(if empty then ReapHandshakeRow else GiveHandshakeTotal, after))
    case Giving(ReapHandshakeRow, after) =>
      (c.(handshakes := ReapRow(c.handshakes, source)), Giving(GiveHandshakeTotal, after))
    case Giving(GiveHandshakeTotal, after) =>
      (c.(handshakesTotal := GiveTotal(c.handshakesTotal)),
       if after.KeepConnection? then Finish(after) else Giving(GiveConnectionRow, after))
    case Giving(GiveConnectionRow, after) =>
      var (rows, empty) := GiveRow(c.connections, source);
      (c.(connections := rows), Giving(if empty then ReapConnectionRow else GiveConnectionTotal, after))
    case Giving(ReapConnectionRow, after) =>
      (c.(connections := ReapRow(c.connections, source)), Giving(GiveConnectionTotal, after))
    case Giving(GiveConnectionTotal, after) =>
      (c.(connectionsTotal := GiveTotal(c.connectionsTotal)), Finish(after))
    case _ => (c, agent.phase)
  }

  /** `handshake_done` clears its flag and starts the release; a second call finds the flag clear. */
  function AfterHandshakeDone(phase: Phase): Phase {
    if phase == Live(true) then Giving(GiveHandshakeRow, KeepConnection) else phase
  }

  /** `drop` gives back whatever is still held. */
  function AfterDrop(phase: Phase): Phase {
    match phase
    case Live(held) => Giving(if held then GiveHandshakeRow else GiveConnectionRow, Gone)
    case Unmetered => Dropped
    case _ => phase
  }

  /** The state after one action; an action nobody can take changes nothing. */
  function Next(limits: Limits, s: State, action: Action): State {
    match action
    case Arrive(id, source) =>
      if id in s.agents then s else s.(agents := s.agents[id := Agent(source, Looking)])
    case Advance(id, trusted) =>
      if id !in s.agents then s
      else
        var (counters, phase) := StepAgent(limits, s.counters, s.agents[id], trusted);
        State(counters, s.agents[id := Agent(s.agents[id].source, phase)])
    case HandshakeDone(id) =>
      if id !in s.agents then s
      else s.(agents := s.agents[id := Agent(s.agents[id].source, AfterHandshakeDone(s.agents[id].phase))])
    case Drop(id) =>
      if id !in s.agents then s
      else s.(agents := s.agents[id := Agent(s.agents[id].source, AfterDrop(s.agents[id].phase))])
  }

  function Run(limits: Limits, s: State, actions: seq<Action>): State
    decreases |actions|
  {
    if actions == [] then s else Run(limits, Next(limits, s, actions[0]), actions[1..])
  }

  // ----- what a counter is supposed to say -----

  /** A counter: one of the two totals, or one source's row in one of the two maps. */
  datatype Cell = ConnectionsTotal | HandshakesTotal
                | ConnectionsOf(source: IpAddr) | HandshakesOf(source: IpAddr)

  function Value(c: Counters, cell: Cell): nat {
    match cell
    case ConnectionsTotal => c.connectionsTotal
    case HandshakesTotal => c.handshakesTotal
    case ConnectionsOf(source) => Row(c.connections, source)
    case HandshakesOf(source) => Row(c.handshakes, source)
  }

  function Ceiling(limits: Limits, cell: Cell): U32 {
    match cell
    case ConnectionsTotal => limits.maxConnections
    case HandshakesTotal => limits.maxHandshakes
    case ConnectionsOf(_) => limits.maxConnectionsPerSource
    case HandshakesOf(_) => limits.maxHandshakesPerSource
  }

  /** Totals always count; a row counts only while its ceiling is on. */
  predicate Counted(limits: Limits, cell: Cell) {
    cell.ConnectionsTotal? || cell.HandshakesTotal? || Ceiling(limits, cell) != 0
  }

  /** Whether a phase holds a connection slot of the totals, of the source's row, and so on. */
  predicate Holds(agent: Agent, cell: Cell) {
    var phase := agent.phase;
    match cell
    case ConnectionsTotal =>
      phase.TakeConnectionRow? || phase.TakeHandshakeTotal? || phase.TakeHandshakeRow? || phase.Live? || phase.Giving?
    case ConnectionsOf(source) =>
      && agent.source == source
      && (phase.TakeHandshakeTotal? || phase.TakeHandshakeRow? || phase.Live?
          || (phase.Giving? && !phase.at.ReapConnectionRow? && !phase.at.GiveConnectionTotal?))
    case HandshakesTotal =>
      || phase.TakeHandshakeRow? || phase == Live(true)
      || (phase.Giving? && (phase.at.GiveHandshakeRow? || phase.at.ReapHandshakeRow? || phase.at.GiveHandshakeTotal?))
    case HandshakesOf(source) =>
      && agent.source == source
      && (phase == Live(true) || (phase.Giving? && phase.at.GiveHandshakeRow?))
  }

  ghost function Holders(agents: map<nat, Agent>, cell: Cell): set<nat> {
    set id | id in agents && Holds(agents[id], cell)
  }

  /** The cell and map a reaping agent is about to look at. */
  predicate Reaping(agent: Agent, cell: Cell) {
    && agent.phase.Giving?
    && ((agent.phase.at.ReapConnectionRow? && cell == ConnectionsOf(agent.source))
        || (agent.phase.at.ReapHandshakeRow? && cell == HandshakesOf(agent.source)))
  }

  predicate Present(c: Counters, cell: Cell) {
    match cell
    case ConnectionsOf(source) => source in c.connections
    case HandshakesOf(source) => source in c.handshakes
    case _ => true
  }

  predicate WellFormed(agent: Agent) {
    agent.phase.Giving? && agent.phase.after.KeepConnection? ==>
      agent.phase.at in {GiveHandshakeRow, ReapHandshakeRow, GiveHandshakeTotal}
  }

  ghost predicate CellInv(limits: Limits, s: State, cell: Cell) {
    && Value(s.counters, cell) == (if Counted(limits, cell) then |Holders(s.agents, cell)| else 0)
    && (Ceiling(limits, cell) != 0 ==> Value(s.counters, cell) <= Ceiling(limits, cell))
    && (!Counted(limits, cell) ==> !Present(s.counters, cell))
    && ((cell.ConnectionsOf? || cell.HandshakesOf?) && Present(s.counters, cell) && Value(s.counters, cell) == 0 ==>
          exists id :: id in s.agents && Reaping(s.agents[id], cell))
  }

  ghost predicate Inv(limits: Limits, s: State) {
    && (forall id :: id in s.agents ==> WellFormed(s.agents[id]))
    && (forall cell :: CellInv(limits, s, cell))
  }

  /** The machine word is wide enough: a total without a ceiling has fewer than 2^32 slots out. */
  ghost predicate Fits(limits: Limits, s: State) {
    && (limits.maxConnections == 0 ==> |Holders(s.agents, ConnectionsTotal)| < U32_MODULUS)
    && (limits.maxHandshakes == 0 ==> |Holders(s.agents, HandshakesTotal)| < U32_MODULUS)
  }

  ghost predicate AlwaysFits(limits: Limits, s: State, actions: seq<Action>)
    decreases |actions|
  {
    Fits(limits, s) && (actions != [] ==> AlwaysFits(limits, Next(limits, s, actions[0]), actions[1..]))
  }

  // ----- preservation -----

  /** Two sets that differ in `x` at most. */
  lemma OneDifference<T>(before: set<T>, after: set<T>, x: T)
    requires forall y :: y != x ==> (y in after <==> y in before)
    ensures |after| == |before| - (if x in before then 1 else 0) + (if x in after then 1 else 0)
  {
    var others := before - {x};
    assert after - {x} == others;
    assert before == if x in before then others + {x} else others;
    assert after == if x in after then others + {x} else others;
  }

  lemma HoldersUpdate(agents: map<nat, Agent>, id: nat, agent: Agent, cell: Cell)
    ensures |Holders(agents[id := agent], cell)| ==
            |Holders(agents, cell)|
            - (if id in agents && Holds(agents[id], cell) then 1 else 0)
            + (if Holds(agent, cell) then 1 else 0)
  {
    OneDifference(Holders(agents, cell), Holders(agents[id := agent], cell), id);
  }

  /** A holder is counted, so a counter somebody has a slot of is not zero. */
  lemma HolderCounts(agents: map<nat, Agent>, id: nat, cell: Cell)
    requires id in agents && Holds(agents[id], cell)
    ensures |Holders(agents, cell)| > 0
  {
    assert id in Holders(agents, cell);
  }

  /** The cell a phase's next operation writes, if it writes one. */
  function Target(agent: Agent): Cell {
    match agent.phase
    case TakeConnectionRow => ConnectionsOf(agent.source)
    case TakeHandshakeTotal => HandshakesTotal
    case TakeHandshakeRow => HandshakesOf(agent.source)
    case Giving(GiveHandshakeRow, _) => HandshakesOf(agent.source)
    case Giving(ReapHandshakeRow, _) => HandshakesOf(agent.source)
    case Giving(GiveHandshakeTotal, _) => HandshakesTotal
    case Giving(GiveConnectionRow, _) => ConnectionsOf(agent.source)
    case Giving(ReapConnectionRow, _) => ConnectionsOf(agent.source)
    case _ => ConnectionsTotal
  }

  /** A step leaves every other counter alone, and every other agent's claim on it. */
  lemma OtherCells(limits: Limits, s: State, id: nat, trusted: bool, cell: Cell)
    requires id in s.agents && WellFormed(s.agents[id])
    requires cell != Target(s.agents[id])
    ensures
      var (c, phase) := StepAgent(limits, s.counters, s.agents[id], trusted);
      && Value(c, cell) == Value(s.counters, cell)
      && Present(c, cell) == Present(s.counters, cell)
      && Holds(s.agents[id], cell) == Holds(Agent(s.agents[id].source, phase), cell)
      && !Reaping(s.agents[id], cell)
  {
    match cell {
      case ConnectionsTotal =>
      case HandshakesTotal =>
      case ConnectionsOf(_) =>
      case HandshakesOf(_) =>
    }
  }

  /** A step on a total moves it exactly as it moves the agent's claim on it. */
  lemma TargetTotal(limits: Limits, s: State, id: nat, trusted: bool)
    requires id in s.agents && WellFormed(s.agents[id])
    requires
      var cell := Target(s.agents[id]);
      (cell.ConnectionsTotal? || cell.HandshakesTotal?) && CellInv(limits, s, cell)
    requires Fits(limits, Next(limits, s, Advance(id, trusted)))
    ensures CellInv(limits, Next(limits, s, Advance(id, trusted)), Target(s.agents[id]))
  {
    var agent := s.agents[id];
    var cell := Target(agent);
    var (c, phase) := StepAgent(limits, s.counters, agent, trusted);
    HoldersUpdate(s.agents, id, Agent(agent.source, phase), cell);
    if Holds(agent, cell) {
      HolderCounts(s.agents, id, cell);
    }
  }

  /** A step on a row does too, and leaves a zero row only to itself to reap. */
  lemma TargetRow(limits: Limits, s: State, id: nat, trusted: bool)
    requires id in s.agents && WellFormed(s.agents[id])
    requires var cell := Target(s.agents[id]); (cell.ConnectionsOf? || cell.HandshakesOf?) && CellInv(limits, s, cell)
    ensures CellInv(limits, Next(limits, s, Advance(id, trusted)), Target(s.agents[id]))
  {
    var agent := s.agents[id];
    var cell := Target(agent);
    var (c, phase) := StepAgent(limits, s.counters, agent, trusted);
    HoldersUpdate(s.agents, id, Agent(agent.source, phase), cell);
    if Holds(agent, cell) {
      HolderCounts(s.agents, id, cell);
    }
    var s' := Next(limits, s, Advance(id, trusted));
    assert s'.agents[id] == Agent(agent.source, phase) && s'.counters == c;
    if Present(c, cell) && Value(c, cell) == 0 {
      assert Reaping(s'.agents[id], cell);
    }
  }

  lemma AdvanceKeepsInv(limits: Limits, s: State, id: nat, trusted: bool)
    requires Inv(limits, s) && id in s.agents
    requires Fits(limits, Next(limits, s, Advance(id, trusted)))
    ensures Inv(limits, Next(limits, s, Advance(id, trusted)))
  {
    var s' := Next(limits, s, Advance(id, trusted));
    var agent := s.agents[id];
    forall cell ensures CellInv(limits, s', cell) {
      if cell == Target(agent) {
        assert CellInv(limits, s, cell);
        if cell.ConnectionsTotal? || cell.HandshakesTotal? {
          TargetTotal(limits, s, id, trusted);
        } else {
          TargetRow(limits, s, id, trusted);
        }
      } else {
        assert CellInv(limits, s, cell);
        OtherCells(limits, s, id, trusted, cell);
        HoldersUpdate(s.agents, id, s'.agents[id], cell);
        if Present(s'.counters, cell) && Value(s'.counters, cell) == 0 && (cell.ConnectionsOf? || cell.HandshakesOf?) {
          var r :| r in s.agents && Reaping(s.agents[r], cell);
          assert r != id && s'.agents[r] == s.agents[r];
        }
      }
    }
  }

  /** Arriving, finishing a handshake and dropping touch no counter and move no claim. */
  lemma PlainKeepsInv(limits: Limits, s: State, action: Action)
    requires Inv(limits, s) && !action.Advance?
    ensures Inv(limits, Next(limits, s, action))
  {
    var s' := Next(limits, s, action);
    if s' != s {
      forall cell ensures CellInv(limits, s', cell) {
        assert CellInv(limits, s, cell);
        HoldersUpdate(s.agents, action.id, s'.agents[action.id], cell);
        if (cell.ConnectionsOf? || cell.HandshakesOf?) && Present(s'.counters, cell) && Value(s'.counters, cell) == 0 {
          var r :| r in s.agents && Reaping(s.agents[r], cell);
          assert s'.agents[r] == s.agents[r];
        }
      }
    }
  }

  lemma StepKeepsInv(limits: Limits, s: State, action: Action)
    requires Inv(limits, s) && Fits(limits, Next(limits, s, action))
    ensures Inv(limits, Next(limits, s, action))
  {
    if action.Advance? && action.id in s.agents {
      AdvanceKeepsInv(limits, s, action.id, action.trusted);
    } else if !action.Advance? {
      PlainKeepsInv(limits, s, action);
    }
  }

  lemma InitialInv(limits: Limits)
    ensures Inv(limits, INITIAL) && Fits(limits, INITIAL)
  {
    forall cell ensures CellInv(limits, INITIAL, cell) {
      assert Holders(INITIAL.agents, cell) == {};
    }
    assert Holders(INITIAL.agents, ConnectionsTotal) == {} == Holders(INITIAL.agents, HandshakesTotal);
  }

  lemma {:induction false} RunKeepsInv(limits: Limits, s: State, actions: seq<Action>)
    requires Inv(limits, s) && AlwaysFits(limits, s, actions)
    ensures Inv(limits, Run(limits, s, actions))
    decreases |actions|
  {
    if actions != [] {
      var s' := Next(limits, s, actions[0]);
      assert AlwaysFits(limits, s', actions[1..]);
      StepKeepsInv(limits, s, actions[0]);
      RunKeepsInv(limits, s', actions[1..]);
    }
  }

  // ----- what holds over every run -----

  /** Every counter says exactly how many slots are out, and no ceiling is exceeded. */
  lemma CountersExact(limits: Limits, actions: seq<Action>, cell: Cell)
    requires AlwaysFits(limits, INITIAL, actions)
    ensures
      var s := Run(limits, INITIAL, actions);
      && (Counted(limits, cell) ==> Value(s.counters, cell) == |Holders(s.agents, cell)|)
      && (!Counted(limits, cell) ==> !Present(s.counters, cell))
      && (Ceiling(limits, cell) != 0 ==> |Holders(s.agents, cell)| <= Ceiling(limits, cell))
  {
    InitialInv(limits);
    RunKeepsInv(limits, INITIAL, actions);
    assert CellInv(limits, Run(limits, INITIAL, actions), cell);
  }

  ghost predicate TotalsExact(s: State) {
    && s.counters.connectionsTotal == |Holders(s.agents, ConnectionsTotal)|
    && s.counters.handshakesTotal == |Holders(s.agents, HandshakesTotal)|
  }

  ghost predicate AlwaysExact(limits: Limits, s: State, actions: seq<Action>)
    decreases |actions|
  {
    TotalsExact(s) && (actions != [] ==> AlwaysExact(limits, Next(limits, s, actions[0]), actions[1..]))
  }

  /** The totals are exact throughout a run if and only if the run stays within the machine word. */
  lemma ExactIffFits(limits: Limits, actions: seq<Action>)
    ensures AlwaysExact(limits, INITIAL, actions) <==> AlwaysFits(limits, INITIAL, actions)
    ensures limits.maxConnections != 0 && limits.maxHandshakes != 0 ==> AlwaysFits(limits, INITIAL, actions)
  {
    InitialInv(limits);
    ExactIffFitsFrom(limits, INITIAL, actions);
    if limits.maxConnections != 0 && limits.maxHandshakes != 0 {
      CeilingsFit(limits, INITIAL, actions);
    }
  }

  lemma {:induction false} ExactIffFitsFrom(limits: Limits, s: State, actions: seq<Action>)
    requires Inv(limits, s)
    ensures AlwaysExact(limits, s, actions) <==> AlwaysFits(limits, s, actions)
    decreases |actions|
  {
    assert CellInv(limits, s, ConnectionsTotal) && CellInv(limits, s, HandshakesTotal);
    if actions != [] {
      var s' := Next(limits, s, actions[0]);
      if Fits(limits, s') {
        StepKeepsInv(limits, s, actions[0]);
        ExactIffFitsFrom(limits, s', actions[1..]);
      } else {
        assert !TotalsExact(s');
      }
    }
  }

  lemma {:induction false} CeilingsFit(limits: Limits, s: State, actions: seq<Action>)
    requires limits.maxConnections != 0 && limits.maxHandshakes != 0
    ensures AlwaysFits(limits, s, actions)
    decreases |actions|
  {
    if actions != [] {
      CeilingsFit(limits, Next(limits, s, actions[0]), actions[1..]);
    }
  }

  /** `n` sockets arrive, and each gets as far as its slot of the connection total. */
  function Flood(source: IpAddr, n: nat): seq<Action> {
    if n == 0 then [] else Flood(source, n - 1) + OneMore(n - 1, source)
  }

  function OneMore(id: nat, source: IpAddr): seq<Action> {
    [Arrive(id, source), Advance(id, false), Advance(id, false)]
  }

  /** The agents a flood leaves behind, and the state. */
  function Flooders(source: IpAddr, n: nat): (agents: map<nat, Agent>)
    ensures forall id: nat :: id in agents <==> id < n
  {
    if n == 0 then map[] else Flooders(source, n - 1)[n - 1 := Agent(source, TakeConnectionRow)]
  }

  function Flooded(source: IpAddr, n: nat): State {
    State(EMPTY.(connectionsTotal := n % U32_MODULUS), Flooders(source, n))
  }

  lemma OneMoreFloods(limits: Limits, source: IpAddr, n: nat)
    requires limits.maxConnections == 0
    ensures Run(limits, Flooded(source, n), OneMore(n, source)) == Flooded(source, n + 1)
  {
    var s0 := Flooded(source, n);
    var s1 := Next(limits, s0, Arrive(n, source));
    var s2 := Next(limits, s1, Advance(n, false));
    var s3 := Next(limits, s2, Advance(n, false));
    assert s3.counters.connectionsTotal == (n + 1) % U32_MODULUS;
    assert s3.agents == Flooders(source, n + 1);
    var actions := OneMore(n, source);
    assert actions[1..] == [Advance(n, false), Advance(n, false)] && actions[1..][1..] == [Advance(n, false)];
    assert Run(limits, s2, [Advance(n, false)]) == Run(limits, s3, []) == s3;
    assert Run(limits, s1, actions[1..]) == s3;
  }

  lemma {:induction false} FloodFloods(limits: Limits, source: IpAddr, n: nat)
    requires limits.maxConnections == 0
    ensures Run(limits, INITIAL, Flood(source, n)) == Flooded(source, n)
  {
    if n == 0 {
      assert INITIAL == Flooded(source, 0);
    } else {
      FloodFloods(limits, source, n - 1);
      RunConcat(limits, INITIAL, Flood(source, n - 1), OneMore(n - 1, source));
      OneMoreFloods(limits, source, n - 1);
    }
  }

  lemma {:induction false} FloodHolds(source: IpAddr, n: nat)
    ensures |Holders(Flooders(source, n), ConnectionsTotal)| == n
  {
    if n == 0 {
      assert Holders(Flooders(source, n), ConnectionsTotal) == {};
    } else {
      FloodHolds(source, n - 1);
      HoldersUpdate(Flooders(source, n - 1), n - 1, Agent(source, TakeConnectionRow), ConnectionsTotal);
    }
  }

  /** Without a ceiling the total does leave the machine word: after 2^32 arrivals it is back at zero. */
  lemma TotalWraps(limits: Limits, source: IpAddr, n: nat)
    requires limits.maxConnections == 0
    ensures
      var s := Run(limits, INITIAL, Flood(source, n));
      && s.counters.connectionsTotal == n % U32_MODULUS
      && |Holders(s.agents, ConnectionsTotal)| == n
      && (n == U32_MODULUS ==> s.counters.connectionsTotal == 0)
  {
    FloodFloods(limits, source, n);
    FloodHolds(source, n);
  }

  /** No decrement ever finds its counter at zero: the saturation is never used. */
  lemma DecrementsNeverSaturate(limits: Limits, actions: seq<Action>, id: nat)
    requires AlwaysFits(limits, INITIAL, actions)
    requires var s := Run(limits, INITIAL, actions);
             id in s.agents && s.agents[id].phase.Giving? && !s.agents[id].phase.at.ReapConnectionRow? &&
                 !s.agents[id].phase.at.ReapHandshakeRow?
    ensures
      var s := Run(limits, INITIAL, actions);
      var cell := Target(s.agents[id]);
      if Counted(limits, cell) then Value(s.counters, cell) > 0 else !Present(s.counters, cell)
  {
    var s := Run(limits, INITIAL, actions);
    CountersExact(limits, actions, Target(s.agents[id]));
    HolderCounts(s.agents, id, Target(s.agents[id]));
  }

  /** A row at zero is there only while the agent that emptied it has still to reap it. */
  lemma ZeroRowIsBeingReaped(limits: Limits, actions: seq<Action>, cell: Cell)
    requires AlwaysFits(limits, INITIAL, actions)
    requires cell.ConnectionsOf? || cell.HandshakesOf?
    requires var c := Run(limits, INITIAL, actions).counters; Present(c, cell) && Value(c, cell) == 0
    ensures var s := Run(limits, INITIAL, actions); exists id :: id in s.agents && Reaping(s.agents[id], cell)
  {
    InitialInv(limits);
    RunKeepsInv(limits, INITIAL, actions);
    assert CellInv(limits, Run(limits, INITIAL, actions), cell);
  }

  /** Reaping after another agent took a slot of the same row leaves every counter alone. */
  lemma ReapSparesAReusedRow(limits: Limits, actions: seq<Action>, reaper: nat, other: nat, cell: Cell, trusted: bool)
    requires AlwaysFits(limits, INITIAL, actions)
    requires var s := Run(limits, INITIAL, actions);
             && reaper in s.agents && Reaping(s.agents[reaper], cell)
             && other in s.agents && Holds(s.agents[other], cell)
    ensures
      var s := Run(limits, INITIAL, actions);
      Next(limits, s, Advance(reaper, trusted)).counters == s.counters
  {
    var s := Run(limits, INITIAL, actions);
    CountersExact(limits, actions, cell);
    HolderCounts(s.agents, other, cell);
  }

  predicate Settled(phase: Phase) {
    phase.Refused? || phase.Dropped?
  }

  /** No attempt is under way and no metered permit is live. */
  ghost predicate Idle(s: State) {
    forall id :: id in s.agents ==> Settled(s.agents[id].phase) || s.agents[id].phase.Unmetered?
  }

  lemma IdleHoldsNothing(limits: Limits, s: State, cell: Cell)
    requires Idle(s) && CellInv(limits, s, cell)
    ensures Value(s.counters, cell) == 0
    ensures cell.ConnectionsOf? || cell.HandshakesOf? ==> !Present(s.counters, cell)
  {
    forall id | id in s.agents ensures !Holds(s.agents[id], cell) && !Reaping(s.agents[id], cell) {
      assert Settled(s.agents[id].phase) || s.agents[id].phase.Unmetered?;
    }
    assert Holders(s.agents, cell) == {};
  }

  /** Once every attempt is refused and every permit dropped, nothing is left behind. */
  lemma NothingLeaks(limits: Limits, actions: seq<Action>)
    requires AlwaysFits(limits, INITIAL, actions) && Idle(Run(limits, INITIAL, actions))
    ensures Run(limits, INITIAL, actions).counters == EMPTY
  {
    InitialInv(limits);
    RunKeepsInv(limits, INITIAL, actions);
    IdleIsEmpty(limits, Run(limits, INITIAL, actions));
  }

  lemma IdleIsEmpty(limits: Limits, s: State)
    requires Idle(s) && Inv(limits, s)
    ensures s.counters == EMPTY
  {
    forall cell ensures Value(s.counters, cell) == 0
                ensures cell.ConnectionsOf? || cell.HandshakesOf? ==> !Present(s.counters, cell)
    {
      assert CellInv(limits, s, cell);
      IdleHoldsNothing(limits, s, cell);
    }
    assert Value(s.counters, ConnectionsTotal) == 0 == Value(s.counters, HandshakesTotal);
    forall source ensures source !in s.counters.connections && source !in s.counters.handshakes {
      assert !Present(s.counters, ConnectionsOf(source)) && !Present(s.counters, HandshakesOf(source));
    }
    assert s.counters.connections == map[] && s.counters.handshakes == map[];
  }

  // ----- draining, and the attempt that runs alone -----

  /** How many more of its own steps an agent needs, at most, to settle when its permit is dropped. */
  function Rank(phase: Phase): nat {
    match phase
    case Looking => 12
    case TakeConnectionTotal => 11
    case TakeConnectionRow => 10
    case TakeHandshakeTotal => 9
    case TakeHandshakeRow => 8
    case Live(held) => if held then 7 else 4
    case Unmetered => 1
    case Giving(at, after) =>
      (match at
       case GiveHandshakeRow => 6 case ReapHandshakeRow => 5 case GiveHandshakeTotal => 4
       case GiveConnectionRow => 3 case ReapConnectionRow => 2 case GiveConnectionTotal => 1)
      + (if after.KeepConnection? then 1 else 0)
    case Refused(_) => 0
    case Dropped => 0
  }

  /** What an agent does to get closer to settling: drop the permit it has, or go on. */
  function Wind(id: nat, phase: Phase): Action {
    if phase.Live? || phase.Unmetered? then Drop(id) else Advance(id, false)
  }

  lemma WindingGetsCloser(limits: Limits, s: State, id: nat)
    requires id in s.agents && WellFormed(s.agents[id]) && !Settled(s.agents[id].phase)
    ensures
      var s' := Next(limits, s, Wind(id, s.agents[id].phase));
      && s'.agents == s.agents[id := s'.agents[id]]
      && WellFormed(s'.agents[id])
      && Rank(s'.agents[id].phase) < Rank(s.agents[id].phase)
  {
  }

  lemma RunConcat(limits: Limits, s: State, xs: seq<Action>, ys: seq<Action>)
    ensures Run(limits, s, xs + ys) == Run(limits, Run(limits, s, xs), ys)
    decreases |xs|
  {
    if xs == [] {
      assert xs + ys == ys;
    } else {
      assert (xs + ys)[1..] == xs[1..] + ys;
      RunConcat(limits, Next(limits, s, xs[0]), xs[1..], ys);
    }
  }

  ghost function Unsettled(s: State): set<nat> {
    set id | id in s.agents && !Settled(s.agents[id].phase)
  }

  /** With fewer than 2^32 agents yet to settle, no total can outgrow the machine word. */
  lemma FewUnsettledFit(limits: Limits, s: State)
    requires |Unsettled(s)| < U32_MODULUS
    ensures Fits(limits, s)
  {
    SubsetSize(Holders(s.agents, ConnectionsTotal), Unsettled(s));
    SubsetSize(Holders(s.agents, HandshakesTotal), Unsettled(s));
  }

  lemma SubsetSize(small: set<nat>, big: set<nat>)
    requires small <= big
    ensures |small| <= |big|
  {
    assert big == small + (big - small);
  }

  /** Winding up one agent after another, always the same way, ends with everyone settled. */
  lemma {:induction false} Drain(limits: Limits, s: State) returns (more: seq<Action>)
    requires Inv(limits, s) && |Unsettled(s)| < U32_MODULUS
    ensures Unsettled(Run(limits, s, more)) == {} && Inv(limits, Run(limits, s, more))
    decreases |Unsettled(s)|, 1
  {
    if Unsettled(s) == {} {
      more := [];
    } else {
      var id :| id in Unsettled(s);
      more := DrainFrom(limits, s, id);
    }
  }

  lemma {:induction false} DrainFrom(limits: Limits, s: State, id: nat) returns (more: seq<Action>)
    requires Inv(limits, s) && |Unsettled(s)| < U32_MODULUS && id in Unsettled(s)
    ensures Unsettled(Run(limits, s, more)) == {} && Inv(limits, Run(limits, s, more))
    decreases |Unsettled(s)|, 0, Rank(s.agents[id].phase)
  {
    var action := Wind(id, s.agents[id].phase);
    WindingGetsCloser(limits, s, id);
    var s' := Next(limits, s, action);
    SubsetSize(Unsettled(s'), Unsettled(s));
    FewUnsettledFit(limits, s');
    StepKeepsInv(limits, s, action);
    var rest;
    if Settled(s'.agents[id].phase) {
      assert Unsettled(s') == Unsettled(s) - {id};
      rest := Drain(limits, s');
    } else {
      assert Unsettled(s') == Unsettled(s);
      rest := DrainFrom(limits, s', id);
    }
    more := [action] + rest;
    assert more[1..] == rest;
  }

  lemma SettledIsEmpty(limits: Limits, s: State)
    requires Inv(limits, s) && Unsettled(s) == {}
    ensures s.counters == EMPTY
  {
    forall id | id in s.agents ensures Settled(s.agents[id].phase) {
      assert id !in Unsettled(s);
    }
    IdleIsEmpty(limits, s);
  }

  /** From every reachable state the agents present can finish, and then every counter is back at zero. */
  lemma EveryRunCanDrain(limits: Limits, actions: seq<Action>)
    requires AlwaysFits(limits, INITIAL, actions)
    requires |Unsettled(Run(limits, INITIAL, actions))| < U32_MODULUS
    ensures exists more :: Run(limits, INITIAL, actions + more).counters == EMPTY
  {
    InitialInv(limits);
    RunKeepsInv(limits, INITIAL, actions);
    var s := Run(limits, INITIAL, actions);
    var more := Drain(limits, s);
    RunConcat(limits, INITIAL, actions, more);
    SettledIsEmpty(limits, Run(limits, s, more));
  }

  // ----- every fair schedule drains -----

  predicate NoArrivals(actions: seq<Action>) {
    forall i :: 0 <= i < |actions| ==> !actions[i].Arrive?
  }

  /** How often an agent is told to drop and later gets to go on; `told` says whether a drop is waiting for that. */
  function Turns(id: nat, actions: seq<Action>, told: bool): nat {
    if actions == [] then 0
    else if !told && actions[0] == Drop(id) then Turns(id, actions[1..], true)
    else if told && actions[0].Advance? && actions[0].id == id then 1 + Turns(id, actions[1..], false)
    else Turns(id, actions[1..], told)
  }

  /** In the middle of a call, or through with everything: nothing left to drop. */
  predicate Busy(phase: Phase) {
    !phase.Live? && !phase.Unmetered?
  }

  /** No action but an arrival takes an agent further from settling, and going on takes a busy one closer. */
  lemma ActionGetsCloser(limits: Limits, s: State, action: Action, id: nat)
    requires id in s.agents && WellFormed(s.agents[id]) && !action.Arrive?
    ensures
      var phase, s' := s.agents[id].phase, Next(limits, s, action);
      && id in s'.agents && WellFormed(s'.agents[id])
      && Rank(s'.agents[id].phase) <= Rank(phase)
      && (action.id != id ==> s'.agents[id] == s.agents[id])
      && (action == Drop(id) ==> Busy(s'.agents[id].phase))
      && (Busy(phase) && !action.Advance? ==> s'.agents[id].phase == phase)
      && (Busy(phase) && action.Advance? && action.id == id && !Settled(phase) ==>
          Rank(s'.agents[id].phase) < Rank(phase))
  {
  }

  lemma {:induction false} TurnsSettle(limits: Limits, s: State, actions: seq<Action>, id: nat, told: bool)
    requires id in s.agents && WellFormed(s.agents[id]) && NoArrivals(actions)
    requires told ==> Busy(s.agents[id].phase)
    ensures id in Run(limits, s, actions).agents
    ensures
      var end := Run(limits, s, actions).agents[id].phase;
      Rank(end) == 0 || Rank(end) + Turns(id, actions, told) <= Rank(s.agents[id].phase)
    decreases |actions|
  {
    if actions != [] {
      var action, rest := actions[0], actions[1..];
      ActionGetsCloser(limits, s, action, id);
      var ready := if action == Drop(id) then true else if action.Advance? && action.id == id then false else told;
      TurnsSettle(limits, Next(limits, s, action), rest, id, ready);
    }
  }

  /** Without arrivals nobody becomes unsettled again, so the machine word stays wide enough. */
  lemma {:induction false} NoArrivalsFit(limits: Limits, s: State, actions: seq<Action>)
    requires (forall id :: id in s.agents ==> WellFormed(s.agents[id])) && NoArrivals(actions)
    requires |Unsettled(s)| < U32_MODULUS
    ensures AlwaysFits(limits, s, actions)
    ensures Run(limits, s, actions).agents.Keys == s.agents.Keys
    decreases |actions|
  {
    FewUnsettledFit(limits, s);
    if actions != [] {
      var s' := Next(limits, s, actions[0]);
      forall id | id in s.agents ensures WellFormed(s'.agents[id]) && (id in Unsettled(s') ==> id in Unsettled(s)) {
        ActionGetsCloser(limits, s, actions[0], id);
        RankZero(s.agents[id].phase);
        RankZero(s'.agents[id].phase);
      }
      SubsetSize(Unsettled(s'), Unsettled(s));
      NoArrivalsFit(limits, s', actions[1..]);
    }
  }

  lemma RankZero(phase: Phase)
    ensures Rank(phase) == 0 <==> Settled(phase)
    ensures Rank(phase) <= 12
  {
  }

  /** After any run, once nobody else arrives, every schedule that tells each agent to drop and lets it go on
      often enough, in any order and among anything else, ends with every counter back at zero. */
  lemma EveryFairScheduleDrains(limits: Limits, actions: seq<Action>, more: seq<Action>)
    requires AlwaysFits(limits, INITIAL, actions) && NoArrivals(more)
    requires
      var s := Run(limits, INITIAL, actions);
      |Unsettled(s)| < U32_MODULUS && forall id :: id in Unsettled(s) ==> Turns(id, more, false) >= 12
    ensures Run(limits, INITIAL, actions + more).counters == EMPTY
  {
    InitialInv(limits);
    RunKeepsInv(limits, INITIAL, actions);
    var s := Run(limits, INITIAL, actions);
    NoArrivalsFit(limits, s, more);
    RunKeepsInv(limits, s, more);
    RunConcat(limits, INITIAL, actions, more);
    var end := Run(limits, s, more);
    forall id | id in end.agents ensures id !in Unsettled(end) {
      TurnsSettle(limits, s, more, id, false);
      RankZero(s.agents[id].phase);
      RankZero(end.agents[id].phase);
    }
    SettledIsEmpty(limits, end);
  }

  /** The attempt of one agent, run from its first counter operation with nobody in between. */
  function Solo(limits: Limits, c: Counters, agent: Agent): (r: (Counters, Phase))
    decreases Rank(agent.phase)
  {
    if Settled(agent.phase) || agent.phase.Live? || agent.phase.Unmetered? || !WellFormed(agent) then (c, agent.phase)
    else
      var (c', phase) := StepAgent(limits, c, agent, false);
      Solo(limits, c', Agent(agent.source, phase))
  }

  lemma SoloReleasesConnection(limits: Limits, c: Counters, source: IpAddr, after: After)
    requires !after.KeepConnection?
    ensures Solo(limits, c, Agent(source, Giving(GiveConnectionTotal, after))) ==
            (GiveBackConnectionTotal(c), Finish(after))
    ensures Solo(limits, c, Agent(source, Giving(GiveConnectionRow, after))) ==
            (ReleaseConnection(c, source), Finish(after))
  {
    forall c ensures Solo(limits, c, Agent(source, Giving(GiveConnectionTotal, after))) ==
                     (GiveBackConnectionTotal(c), Finish(after))
    {
    }
    var (rows, empty) := GiveRow(c.connections, source);
    if empty {
      assert Solo(limits, c.(connections := rows), Agent(source, Giving(ReapConnectionRow, after))) ==
             Solo(limits, c.(connections := ReapRow(rows, source)), Agent(source, Giving(GiveConnectionTotal, after)));
    }
  }

  lemma SoloReleasesHandshake(limits: Limits, c: Counters, source: IpAddr, after: After)
    ensures
      var given := ReleaseHandshake(c, source);
      Solo(limits, c, Agent(source, Giving(GiveHandshakeRow, after))) ==
      if after.KeepConnection? then (given, Live(false))
      else Solo(limits, given, Agent(source, Giving(GiveConnectionRow, after)))
  {
    var (rows, empty) := GiveRow(c.handshakes, source);
    var released := c.(handshakes := ReleaseRow(c.handshakes, source));
    if empty {
      assert Solo(limits, c.(handshakes := rows), Agent(source, Giving(ReapHandshakeRow, after))) ==
             Solo(limits, released, Agent(source, Giving(GiveHandshakeTotal, after)));
    }
    assert Solo(limits, c, Agent(source, Giving(GiveHandshakeRow, after))) ==
           Solo(limits, released, Agent(source, Giving(GiveHandshakeTotal, after)));
    var given := released.(handshakesTotal := GiveTotal(released.handshakesTotal));
    var next := if after.KeepConnection? then Live(false) else Giving(GiveConnectionRow, after);
    assert given == ReleaseHandshake(c, source);
    assert Solo(limits, released, Agent(source, Giving(GiveHandshakeTotal, after))) ==
           Solo(limits, given, Agent(source, next));
  }

  /** An undisturbed attempt in the protocol does what the sequential `try_accept` does. */
  lemma SoloAttemptIsTryAccept(limits: Limits, c: Counters, source: IpAddr)
    ensures
      var (after, verdict) := TryAcceptAlone(limits, c, source);
      Solo(limits, c, Agent(source, TakeConnectionTotal)) ==
      (after, if verdict.Granted? then Live(true) else Refused(verdict.reason))
  {
    var (c1, p1) := StepAgent(limits, c, Agent(source, TakeConnectionTotal), false);
    if p1 == TakeConnectionRow {
      var (c2, p2) := StepAgent(limits, c1, Agent(source, p1), false);
      if p2 == TakeHandshakeTotal {
        var (c3, p3) := StepAgent(limits, c2, Agent(source, p2), false);
        if p3 == TakeHandshakeRow {
          var (c4, p4) := StepAgent(limits, c3, Agent(source, p3), false);
          var c5 := c4.(handshakesTotal := GiveTotal(c4.handshakesTotal));
          SoloReleasesConnection(limits, c5, source, Refuse(HandshakesPerSource));
          assert Solo(limits, c3, Agent(source, p3)) == Solo(limits, c4, Agent(source, p4));
        } else {
          SoloReleasesConnection(limits, c3, source, Refuse(Handshakes));
        }
        assert Solo(limits, c2, Agent(source, p2)) == Solo(limits, c3, Agent(source, p3));
      } else {
        SoloReleasesConnection(limits, c2, source, Refuse(ConnectionsPerSource));
      }
      assert Solo(limits, c1, Agent(source, p1)) == Solo(limits, c2, Agent(source, p2));
    }
    assert Solo(limits, c, Agent(source, TakeConnectionTotal)) == Solo(limits, c1, Agent(source, p1));
  }
}
