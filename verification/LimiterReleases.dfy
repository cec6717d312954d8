/** What the permits of the connection limiter give back, and what a trusted source never takes: undisturbed,
    as the sequential limiter does, and under every interleaving with other agents.
 */
module LimiterReleases {
  import opened Common
  import opened LimiterCounters
  import opened LimiterProtocol

  // ----- undisturbed -----

  /** `handshake_done`, undisturbed, gives back the handshake slot, row and total, and keeps the connection. */
  lemma SoloHandshakeDone(limits: Limits, c: Counters, source: IpAddr)
    ensures Solo(limits, c, Agent(source, AfterHandshakeDone(Live(true)))) ==
            (ReleaseHandshake(c, source), Live(false))
  {
    SoloReleasesHandshake(limits, c, source, KeepConnection);
  }

  /** Dropping a permit, undisturbed, gives back whatever it still holds. */
  lemma SoloDrop(limits: Limits, c: Counters, source: IpAddr, held: bool)
    ensures Solo(limits, c, Agent(source, AfterDrop(Live(held)))) ==
            (ReleaseConnection(if held then ReleaseHandshake(c, source) else c, source), Dropped)
  {
    SoloReleasesHandshake(limits, c, source, Gone);
    SoloReleasesConnection(limits, if held then ReleaseHandshake(c, source) else c, source, Gone);
  }

  /** A second `handshake_done` changes nothing at all. */
  lemma HandshakeDoneOnce(limits: Limits, s: State, id: nat)
    requires id in s.agents && s.agents[id].phase == Live(false)
    ensures Next(limits, s, HandshakeDone(id)) == s
  {
    assert s.agents[id := s.agents[id]] == s.agents;
  }

  // ----- among everybody else -----

  /** How many operations of the handshake release are still to come. */
  function HandshakeLeft(phase: Phase): nat {
    match phase
    case Giving(GiveHandshakeRow, _) => 3
    case Giving(ReapHandshakeRow, _) => 2
    case Giving(GiveHandshakeTotal, _) => 1
    case _ => 0
  }

  /** Where an agent can be once it was told that its handshake is done. */
  predicate HandshakeEnding(phase: Phase) {
    match phase
    case Live(held) => !held
    case Giving(at, after) => if HandshakeLeft(phase) > 0 then after.KeepConnection? else after.Gone?
    case Dropped => true
    case _ => false
  }

  function Advances(id: nat, actions: seq<Action>): nat {
    if actions == [] then 0
    else (if actions[0].Advance? && actions[0].id == id then 1 else 0) + Advances(id, actions[1..])
  }

  lemma EndingStep(limits: Limits, s: State, action: Action, id: nat)
    requires id in s.agents && HandshakeEnding(s.agents[id].phase)
    ensures
      var phase, s' := s.agents[id].phase, Next(limits, s, action);
      && id in s'.agents && s'.agents[id].source == s.agents[id].source && HandshakeEnding(s'.agents[id].phase)
      && HandshakeLeft(s'.agents[id].phase) <= HandshakeLeft(phase)
      && (action.Advance? && action.id == id && HandshakeLeft(phase) > 0 ==>
            HandshakeLeft(s'.agents[id].phase) < HandshakeLeft(phase))
      && (action != Drop(id) && (phase == Live(false) || HandshakeLeft(phase) > 0) ==>
            s'.agents[id].phase == Live(false) || HandshakeLeft(s'.agents[id].phase) > 0)
  {
  }

  lemma {:induction false} EndingRun(limits: Limits, s: State, actions: seq<Action>, id: nat)
    requires id in s.agents && HandshakeEnding(s.agents[id].phase)
    ensures
      var phase, end := s.agents[id].phase, Run(limits, s, actions);
      && id in end.agents && end.agents[id].source == s.agents[id].source && HandshakeEnding(end.agents[id].phase)
      && HandshakeLeft(end.agents[id].phase) <= Max(0, HandshakeLeft(phase) - Advances(id, actions))
      && (Drop(id) !in actions && (phase == Live(false) || HandshakeLeft(phase) > 0) ==>
            end.agents[id].phase == Live(false) || HandshakeLeft(end.agents[id].phase) > 0)
    decreases |actions|
  {
    if actions != [] {
      EndingStep(limits, s, actions[0], id);
      EndingRun(limits, Next(limits, s, actions[0]), actions[1..], id);
    }
  }

  /** In every interleaving, an agent told that its handshake is done has, three turns later, no handshake slot
      left in the total or in its source's row, and it keeps both its connection slots until it is dropped. */
  lemma HandshakeIsGivenBack(limits: Limits, s: State, actions: seq<Action>, id: nat)
    requires id in s.agents && s.agents[id].phase == Live(true)
    ensures
      var source, end := s.agents[id].source, Run(limits, Next(limits, s, HandshakeDone(id)), actions);
      && id in end.agents
      && (Advances(id, actions) >= 3 ==>
            !Holds(end.agents[id], HandshakesTotal) && !Holds(end.agents[id], HandshakesOf(source)))
      && (Drop(id) !in actions ==>
            Holds(end.agents[id], ConnectionsTotal) && Holds(end.agents[id], ConnectionsOf(source)))
  {
    EndingRun(limits, Next(limits, s, HandshakeDone(id)), actions, id);
  }

  // ----- trust -----

  lemma {:induction false} UnmeteredRun(limits: Limits, s: State, actions: seq<Action>, id: nat)
    requires id in s.agents && (s.agents[id].phase.Unmetered? || s.agents[id].phase.Dropped?)
    ensures
      var end := Run(limits, s, actions);
      id in end.agents && (end.agents[id].phase.Unmetered? || end.agents[id].phase.Dropped?)
    decreases |actions|
  {
    if actions != [] {
      UnmeteredRun(limits, Next(limits, s, actions[0]), actions[1..], id);
    }
  }

  /** An arrival the lookup calls trusted is never refused, holds no slot of any counter, and none of its own
      operations, then or later, touches one. */
  lemma TrustedIsNeverMetered(limits: Limits, s: State, actions: seq<Action>, id: nat, cell: Cell, action: Action)
    requires id in s.agents && s.agents[id].phase.Looking? && action.id == id
    ensures
      var entered := Next(limits, s, Advance(id, true));
      var end := Run(limits, entered, actions);
      && entered.counters == s.counters
      && id in end.agents && !end.agents[id].phase.Refused? && !Holds(end.agents[id], cell)
      && Next(limits, end, action).counters == end.counters
  {
    UnmeteredRun(limits, Next(limits, s, Advance(id, true)), actions, id);
  }
}
