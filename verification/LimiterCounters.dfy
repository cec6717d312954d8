/** The four counters behind the inbound connection limiter and the atomic
    operations on them: one read-modify-write each, as the limiter issues them.
 */
module LimiterCounters {
  import opened Common

  /** Every field is a maximum; zero switches that ceiling off. */
  datatype Limits = Limits(
    maxHandshakesPerSource: U32,
    maxHandshakes: U32,
    maxConnectionsPerSource: U32,
    maxConnections: U32)

  datatype RefusedReason = HandshakesPerSource | Handshakes | ConnectionsPerSource | Connections

  datatype Counters = Counters(
    handshakes: map<IpAddr, nat>,
    connections: map<IpAddr, nat>,
    handshakesTotal: U32,
    connectionsTotal: U32)

  const EMPTY := Counters(map[], map[], 0, 0)

  /** `take_global`: a disabled ceiling still counts, with a wrapping add. */
  function TakeTotal(count: U32, limit: U32): (r: (U32, bool)) {
    if limit == 0 then ((count + 1) % U32_MODULUS, true)
    else if count < limit then (count + 1, true)
    else (count, false)
  }

  /** `release_global`: a saturating decrement. */
  function GiveTotal(count: U32): (r: U32) {
    if count == 0 then 0 else count - 1
  }

  function Row(rows: map<IpAddr, nat>, source: IpAddr): (r: nat) {
    if source in rows then rows[source] else 0
  }

  /** `take_per_source`: a disabled ceiling does not touch the map. */
  function TakeRow(rows: map<IpAddr, nat>, source: IpAddr, limit: U32): (r: (map<IpAddr, nat>, bool)) {
    if limit == 0 then (rows, true)
    else
      var present := if source in rows then rows else rows[source := 0];
      if present[source] >= limit then (present, false)
      else (present[source := present[source] + 1], true)
  }

  /** First half of `release_per_source`: the decrement, and whether it left zero. */
  function GiveRow(rows: map<IpAddr, nat>, source: IpAddr): (r: (map<IpAddr, nat>, bool)) {
    if source !in rows then (rows, false)
    else
      var left: nat := if rows[source] == 0 then 0 else rows[source] - 1;
      (rows[source := left], left == 0)
  }

  /** Second half of `release_per_source`: `remove_if` the row is zero. */
  function ReapRow(rows: map<IpAddr, nat>, source: IpAddr): (r: map<IpAddr, nat>) {
    if source in rows && rows[source] == 0 then rows - {source} else rows
  }

  /** Both halves back to back, with nothing in between. */
  function ReleaseRow(rows: map<IpAddr, nat>, source: IpAddr): (r: map<IpAddr, nat>) {
    var (given, empty) := GiveRow(rows, source);
    if empty then ReapRow(given, source) else given
  }

  datatype Verdict = Granted | Denied(reason: RefusedReason)

  /** `try_accept` for an untrusted source, run with nothing else going on. */
  function TryAcceptAlone(limits: Limits, c: Counters, source: IpAddr): (r: (Counters, Verdict)) {
    var (total, ok) := TakeTotal(c.connectionsTotal, limits.maxConnections);
    if !ok then (c, Denied(Connections))
    else
      var c1 := c.(connectionsTotal := total);
      var (rows, ok) := TakeRow(c1.connections, source, limits.maxConnectionsPerSource);
      var c2 := c1.(connections := rows);
      if !ok then (GiveBackConnectionTotal(c2), Denied(ConnectionsPerSource))
      else
        var (total, ok) := TakeTotal(c2.handshakesTotal, limits.maxHandshakes);
        if !ok then (ReleaseConnection(c2, source), Denied(Handshakes))
        else
          var c3 := c2.(handshakesTotal := total);
          var (rows, ok) := TakeRow(c3.handshakes, source, limits.maxHandshakesPerSource);
          var c4 := c3.(handshakes := rows);
          if !ok then
            (ReleaseConnection(c4.(handshakesTotal := GiveTotal(c4.handshakesTotal)), source),
                Denied(HandshakesPerSource))
          else (c4, Granted)
  }

  function GiveBackConnectionTotal(c: Counters): (r: Counters) {
    c.(connectionsTotal := GiveTotal(c.connectionsTotal))
  }

  function ReleaseConnection(c: Counters, source: IpAddr): (r: Counters) {
    GiveBackConnectionTotal(c.(connections := ReleaseRow(c.connections, source)))
  }

  function ReleaseHandshake(c: Counters, source: IpAddr): (r: Counters) {
    c.(handshakes := ReleaseRow(c.handshakes, source), handshakesTotal := GiveTotal(c.handshakesTotal))
  }
}
