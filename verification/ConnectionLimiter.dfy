/** The connection limiter as its callers see it: one call at a time, permits that
    give their slots back, and counters that always say how many permits are live.
 */
module ConnectionLimiter {
  import opened Common
  import opened LimiterCounters
  import opened LimiterProtocol

  // ----- the sequential meaning of an attempt, on counter values -----

  predicate Exhausted(limits: Limits, c: Counters, cell: Cell) {
    Ceiling(limits, cell) != 0 && Value(c, cell) >= Ceiling(limits, cell)
  }

  /** The first ceiling without room, in the order they are tried. */
  function FirstExhausted(limits: Limits, c: Counters, source: IpAddr): Option<RefusedReason> {
    if Exhausted(limits, c, ConnectionsTotal) then Some(Connections)
    else if Exhausted(limits, c, ConnectionsOf(source)) then Some(ConnectionsPerSource)
    else if Exhausted(limits, c, HandshakesTotal) then Some(Handshakes)
    else if Exhausted(limits, c, HandshakesOf(source)) then Some(HandshakesPerSource)
    else None
  }

  /** Counters between calls: no row at zero, no row under a switched-off ceiling, no total at the word's edge. */
  predicate Tidy(limits: Limits, c: Counters, source: IpAddr) {
    && (source in c.connections ==> c.connections[source] > 0 && limits.maxConnectionsPerSource != 0)
    && (source in c.handshakes ==> c.handshakes[source] > 0 && limits.maxHandshakesPerSource != 0)
    && c.connectionsTotal + 1 < U32_MODULUS
    && c.handshakesTotal + 1 < U32_MODULUS
  }

  /** Taking a row slot and releasing it at once is no change at all. */
  lemma RowRollback(rows: map<IpAddr, nat>, source: IpAddr, limit: U32)
    requires source in rows ==> rows[source] > 0 && limit != 0
    ensures var (taken, ok) := TakeRow(rows, source, limit);
            if ok then ReleaseRow(taken, source) == rows else taken == rows
  {
  }

  /** An attempt succeeds exactly when no ceiling is exhausted; a refusal names the first that is
      and leaves all four counters as they were. */
  lemma {:induction false} AttemptVerdict(limits: Limits, c: Counters, source: IpAddr)
    requires Tidy(limits, c, source)
    ensures
      var (after, verdict) := TryAcceptAlone(limits, c, source);
      match FirstExhausted(limits, c, source)
      case None => verdict == Granted
      case Some(reason) => verdict == Denied(reason) && after == c
  {
    RowRollback(c.connections, source, limits.maxConnectionsPerSource);
    RowRollback(c.handshakes, source, limits.maxHandshakesPerSource);
  }

  /** What a grant leaves: each counter after its own taking. */
  lemma GrantForm(limits: Limits, c: Counters, source: IpAddr)
    requires Tidy(limits, c, source) && FirstExhausted(limits, c, source) == None
    ensures TryAcceptAlone(limits, c, source).0 ==
            Counters(
              TakeRow(c.handshakes, source, limits.maxHandshakesPerSource).0,
              TakeRow(c.connections, source, limits.maxConnectionsPerSource).0,
              c.handshakesTotal + 1,
              c.connectionsTotal + 1)
  {
  }

  /** A grant raises exactly the four counters it is charged to. */
  lemma {:induction false} GrantCharges(limits: Limits, c: Counters, source: IpAddr, cell: Cell)
    requires Tidy(limits, c, source) && FirstExhausted(limits, c, source) == None
    ensures
      var after := TryAcceptAlone(limits, c, source).0;
      var charged := Counted(limits, cell) && cell in Charged(source);
      && Value(after, cell) == Value(c, cell) + (if charged then 1 else 0)
      && Present(after, cell) == (Present(c, cell) || charged)
  {
    GrantForm(limits, c, source);
    match cell {
      case ConnectionsTotal =>
      case HandshakesTotal =>
      case ConnectionsOf(_) =>
      case HandshakesOf(_) =>
    }
  }

  /** Releasing after a grant, in either order of handshake and connection, restores every counter. */
  lemma {:induction false} GrantThenRelease(limits: Limits, c: Counters, source: IpAddr)
    requires Tidy(limits, c, source) && FirstExhausted(limits, c, source) == None
    ensures
      var after := TryAcceptAlone(limits, c, source).0;
      && ReleaseConnection(ReleaseHandshake(after, source), source) == c
      && ReleaseHandshake(ReleaseConnection(after, source), source) == c
  {
    RowRollback(c.connections, source, limits.maxConnectionsPerSource);
    RowRollback(c.handshakes, source, limits.maxHandshakesPerSource);
  }

  // ----- permits and the counters that track them -----

  /** The live permits that still owe a slot of `cell`; `live` maps each to whether it still owes a handshake. */
  ghost function Owing(live: map<AcceptPermit, bool>, cell: Cell): set<AcceptPermit> {
    set p | p in live && Owes(p.source, live[p], cell)
  }

  ghost predicate Owes(source: IpAddr, handshake: bool, cell: Cell) {
    match cell
    case ConnectionsTotal => true
    case ConnectionsOf(s) => s == source
    case HandshakesTotal => handshake
    case HandshakesOf(s) => handshake && s == source
  }

  ghost predicate CellExact(limits: Limits, c: Counters, live: map<AcceptPermit, bool>, cell: Cell) {
    && Value(c, cell) == (if Counted(limits, cell) then |Owing(live, cell)| else 0)
    && (Ceiling(limits, cell) != 0 ==> Value(c, cell) <= Ceiling(limits, cell))
    && ((cell.ConnectionsOf? || cell.HandshakesOf?) && Present(c, cell) ==> Value(c, cell) > 0)
  }

  ghost predicate Exact(limits: Limits, c: Counters, live: map<AcceptPermit, bool>) {
    forall cell :: CellExact(limits, c, live, cell)
  }

  lemma OwingUpdate(live: map<AcceptPermit, bool>, p: AcceptPermit, handshake: bool, cell: Cell)
    ensures |Owing(live[p := handshake], cell)| ==
            |Owing(live, cell)|
            - (if p in live && Owes(p.source, live[p], cell) then 1 else 0)
            + (if Owes(p.source, handshake, cell) then 1 else 0)
  {
    OneDifference(Owing(live, cell), Owing(live[p := handshake], cell), p);
  }

  lemma OwingRemove(live: map<AcceptPermit, bool>, p: AcceptPermit, cell: Cell)
    requires p in live
    ensures |Owing(live - {p}, cell)| == |Owing(live, cell)| - (if Owes(p.source, live[p], cell) then 1 else 0)
    ensures Owes(p.source, live[p], cell) ==> |Owing(live, cell)| > 0
  {
    assert Owing(live - {p}, cell) == Owing(live, cell) - {p};
    if Owes(p.source, live[p], cell) {
      assert p in Owing(live, cell);
    }
  }

  lemma ExactIsTidy(limits: Limits, c: Counters, live: map<AcceptPermit, bool>, source: IpAddr)
    requires Exact(limits, c, live) && |live| + 1 < U32_MODULUS
    ensures Tidy(limits, c, source)
  {
    assert CellExact(limits, c, live, ConnectionsTotal) && CellExact(limits, c, live, HandshakesTotal);
    assert CellExact(limits, c, live, ConnectionsOf(source)) && CellExact(limits, c, live, HandshakesOf(source));
    assert Owing(live, ConnectionsTotal) == live.Keys;
    assert live.Keys == Owing(live, HandshakesTotal) + (live.Keys - Owing(live, HandshakesTotal));
  }

  /** The counters that a grant to `source` is charged to. */
  function Charged(source: IpAddr): set<Cell> {
    {ConnectionsTotal, ConnectionsOf(source), HandshakesTotal, HandshakesOf(source)}
  }

  /** Exact counters make "no ceiling is exhausted" a statement about live permits. */
  lemma RoomForOneMore(limits: Limits, c: Counters, live: map<AcceptPermit, bool>, source: IpAddr)
    requires Exact(limits, c, live)
    ensures FirstExhausted(limits, c, source) == None <==>
            forall cell :: cell in Charged(source) && Ceiling(limits, cell) != 0 ==>
                |Owing(live, cell)| < Ceiling(limits, cell)
  {
    forall cell | Ceiling(limits, cell) != 0 ensures Exhausted(limits, c, cell) <==>
        |Owing(live, cell)| >= Ceiling(limits, cell) {
      assert CellExact(limits, c, live, cell);
    }
    assert forall cell :: cell in Charged(source) && Exhausted(limits, c, cell) ==>
        FirstExhausted(limits, c, source) != None;
    if FirstExhausted(limits, c, source) != None {
      var cell :| cell in Charged(source) && Exhausted(limits, c, cell);
    }
  }

  lemma GrantKeepsExact(limits: Limits, c: Counters, live: map<AcceptPermit, bool>, p: AcceptPermit)
    requires Exact(limits, c, live) && |live| + 1 < U32_MODULUS && p !in live
    requires FirstExhausted(limits, c, p.source) == None
    ensures Exact(limits, TryAcceptAlone(limits, c, p.source).0, live[p := true])
  {
    ExactIsTidy(limits, c, live, p.source);
    var after, live' := TryAcceptAlone(limits, c, p.source).0, live[p := true];
    forall cell ensures CellExact(limits, after, live', cell) {
      assert CellExact(limits, c, live, cell);
      OwingUpdate(live, p, true, cell);
      GrantCharges(limits, c, p.source, cell);
    }
  }

  /** Releasing the handshake half pays exactly the two handshake counters. */
  lemma HandshakeKeepsExact(limits: Limits, c: Counters, live: map<AcceptPermit, bool>, p: AcceptPermit)
    requires Exact(limits, c, live) && p in live && live[p]
    ensures Exact(limits, ReleaseHandshake(c, p.source), live[p := false])
  {
    var after, live' := ReleaseHandshake(c, p.source), live[p := false];
    forall cell ensures CellExact(limits, after, live', cell) {
      assert CellExact(limits, c, live, cell);
      OwingUpdate(live, p, false, cell);
      OwingRemove(live, p, cell);
    }
  }

  /** Releasing the connection half pays exactly the two connection counters. */
  lemma ConnectionKeepsExact(limits: Limits, c: Counters, live: map<AcceptPermit, bool>, p: AcceptPermit)
    requires Exact(limits, c, live) && p in live && !live[p]
    ensures Exact(limits, ReleaseConnection(c, p.source), live - {p})
  {
    var after, live' := ReleaseConnection(c, p.source), live - {p};
    forall cell ensures CellExact(limits, after, live', cell) {
      assert CellExact(limits, c, live, cell);
      OwingRemove(live, p, cell);
    }
  }

  class AcceptPermit {
    const limiter: Limiter?
    const source: IpAddr
    var handshakeHeld: bool
    var connectionHeld: bool

    constructor (limiter: Limiter?, source: IpAddr)
      ensures this.limiter == limiter && this.source == source
      ensures handshakeHeld == connectionHeld == (limiter != null)
    {
      this.limiter := limiter;
      this.source := source;
      this.handshakeHeld := limiter != null;
      this.connectionHeld := limiter != null;
    }

    /** A permit that is still in use: metered ones are on their limiter's books, the rest hold nothing. */
    ghost predicate InUse()
      reads this, limiter, if limiter == null then {} else limiter.live.Keys
    {
      if limiter == null then !handshakeHeld && !connectionHeld
      else limiter.Valid() && this in limiter.live
    }

    /** Gives back the handshake slot the first time; every later call finds nothing to give. */
    method HandshakeDone()
      requires InUse()
      modifies this`handshakeHeld, limiter
      ensures InUse() && !handshakeHeld && connectionHeld == old(connectionHeld)
      ensures limiter != null ==> limiter.live == old(limiter.live)[this := false]
      ensures limiter != null ==>
                limiter.Counters() ==
                if old(handshakeHeld) then ReleaseHandshake(old(limiter.Counters()), source)
                else old(limiter.Counters())
    {
      if !handshakeHeld {
        if limiter != null {
          assert limiter.live[this := false] == limiter.live;
        }
        return;
      }
      handshakeHeld := false;
      if limiter != null {
        HandshakeKeepsExact(limiter.limits, limiter.Counters(), limiter.live, this);
        limiter.ReleaseHandshakeSlots(source);
        limiter.live := limiter.live[this := false];
      }
    }

    /** Gives back whatever is still held and takes the permit off the books. */
    method Drop()
      requires InUse()
      modifies this, limiter
      ensures !handshakeHeld && !connectionHeld
      ensures limiter != null ==> limiter.Valid() && limiter.live == old(limiter.live) - {this}
      ensures limiter != null ==>
                limiter.Counters() ==
                ReleaseConnection(
                  if old(handshakeHeld) then ReleaseHandshake(old(limiter.Counters()), source)
                  else old(limiter.Counters()),
                  source)
    {
      if limiter == null {
        return;
      }
      if handshakeHeld {
        HandshakeDone();
      }
      GiveBackConnection();
    }

    method GiveBackConnection()
      requires limiter != null && InUse() && !handshakeHeld
      modifies this`connectionHeld, limiter
      ensures !connectionHeld && limiter.Valid() && limiter.live == old(limiter.live) - {this}
      ensures limiter.Counters() == ReleaseConnection(old(limiter.Counters()), source)
    {
      ConnectionKeepsExact(limiter.limits, limiter.Counters(), limiter.live, this);
      limiter.ReleaseConnectionSlots(source);
      limiter.live := limiter.live - {this};
      connectionHeld := false;
    }
  }

  class Limiter {
    const limits: Limits
    var handshakes: map<IpAddr, nat>
    var connections: map<IpAddr, nat>
    var handshakesTotal: U32
    var connectionsTotal: U32
    /** Every granted, metered permit not yet dropped, and whether it still holds its handshake slot. */
    ghost var live: map<AcceptPermit, bool>

    function Counters(): (c: Counters)
      reads this
    {
      LimiterCounters.Counters(handshakes, connections, handshakesTotal, connectionsTotal)
    }

    ghost predicate Valid()
      reads this, live.Keys
    {
      && Exact(limits, Counters(), live)
      && |live| < U32_MODULUS
      && forall p :: p in live ==> p.limiter == this && p.connectionHeld && p.handshakeHeld == live[p]
    }

    constructor (limits: Limits)
      ensures Valid() && live == map[] && this.limits == limits && Counters() == EMPTY
    {
      this.limits := limits;
      handshakes, connections := map[], map[];
      handshakesTotal, connectionsTotal := 0, 0;
      live := map[];
      new;
      forall cell ensures CellExact(limits, Counters(), live, cell) {
        assert Owing(live, cell) == {};
      }
    }

    /** An untrusted attempt succeeds iff every ceiling that is on has room for one more live permit;
        a refusal names the first without room and changes nothing. A trusted source counts against nothing. */
    method TryAccept(source: IpAddr, trusted: bool) returns (permit: AcceptPermit?, verdict: Verdict)
      requires Valid() && |live| + 1 < U32_MODULUS
      modifies this
      ensures Valid()
      ensures verdict.Granted? <==> permit != null
      ensures permit != null ==> fresh(permit) && permit.InUse() && permit.source == source
      ensures permit != null ==> permit.limiter == (if trusted then null else this)
      ensures trusted ==> verdict.Granted?
      ensures !trusted ==>
                match FirstExhausted(limits, old(Counters()), source)
                case None => verdict == Granted
                case Some(reason) => verdict == Denied(reason)
      ensures !trusted ==>
                (verdict.Granted? <==>
                 forall cell :: cell in Charged(source) && Ceiling(limits, cell) != 0 ==>
                                  |Owing(old(live), cell)| < Ceiling(limits, cell))
      ensures if trusted || verdict.Denied? then Counters() == old(Counters()) && live == old(live)
              else Counters() == TryAcceptAlone(limits, old(Counters()), source).0 && live == old(live)[permit := true]
    {
      permit := null;
      if trusted {
        permit := new AcceptPermit(null, source);
        return permit, Granted;
      }
      ghost var before := Counters();
      ExactIsTidy(limits, before, live, source);
      AttemptVerdict(limits, before, source);
      RoomForOneMore(limits, before, live, source);
      verdict := TakeSlots(source);
      if verdict.Granted? {
        permit := new AcceptPermit(this, source);
        GrantKeepsExact(limits, before, live, permit);
        live := live[permit := true];
      }
    }

    /** Takes the four slots in turn; where one is refused, what was taken before it is given back. */
    method TakeSlots(source: IpAddr) returns (verdict: Verdict)
      modifies this`handshakes, this`connections, this`handshakesTotal, this`connectionsTotal
      ensures (Counters(), verdict) == TryAcceptAlone(limits, old(Counters()), source)
    {
      var (total, ok) := TakeTotal(connectionsTotal, limits.maxConnections);
      if !ok {
        return Denied(Connections);
      }
      connectionsTotal := total;
      var (rows, taken) := TakeRow(connections, source, limits.maxConnectionsPerSource);
      connections := rows;
      if !taken {
        connectionsTotal := GiveTotal(connectionsTotal);
        return Denied(ConnectionsPerSource);
      }
      var (total', ok') := TakeTotal(handshakesTotal, limits.maxHandshakes);
      if !ok' {
        ReleaseConnectionSlots(source);
        return Denied(Handshakes);
      }
      handshakesTotal := total';
      var (rows', taken') := TakeRow(handshakes, source, limits.maxHandshakesPerSource);
      handshakes := rows';
      if !taken' {
        handshakesTotal := GiveTotal(handshakesTotal);
        ReleaseConnectionSlots(source);
        return Denied(HandshakesPerSource);
      }
      return Granted;
    }

    method ReleaseHandshakeSlots(source: IpAddr)
      modifies this`handshakes, this`handshakesTotal
      ensures Counters() == ReleaseHandshake(old(Counters()), source)
    {
      handshakes := ReleaseRow(handshakes, source);
      handshakesTotal := GiveTotal(handshakesTotal);
    }

    method ReleaseConnectionSlots(source: IpAddr)
      modifies this`connections, this`connectionsTotal
      ensures Counters() == ReleaseConnection(old(Counters()), source)
    {
      connections := ReleaseRow(connections, source);
      connectionsTotal := GiveTotal(connectionsTotal);
    }
  }
}
