/** The auto-ban store on values: the policy, the two tables, and what each public
    call does to them. Calls are serialized and carry the instant they are made at.
 */
module AutoBanModel {
  import opened Common

  /** Instants and durations, in nanoseconds. */
  type Time = nat

  const SECOND: Time := 1_000_000_000

  datatype BanPolicy = BanPolicy(
    threshold: U32,
    window: Time,
    banDuration: Time,
    maxBanDuration: Time,
    strongWeight: U32,
    missingCredentialsWeight: U32)

  /** A policy as the constructor leaves it. */
  predicate Clamped(p: BanPolicy) {
    && p.threshold >= 1
    && p.window >= SECOND
    && p.banDuration >= SECOND
    && p.maxBanDuration >= p.banDuration
    && p.strongWeight >= 1
    && p.missingCredentialsWeight <= p.threshold
  }

  type Policy = p: BanPolicy | Clamped(p) witness BanPolicy(1, SECOND, SECOND, SECOND, 1, 0)

  /** `BanPolicy::new`: a zero in the configuration cannot switch the feature off,
      and a configuration that already makes sense is taken as it is. */
  function NewPolicy(threshold: U32, windowSecs: U32, banSecs: U32, strong: U32, missing: U32,
      maxBanSecs: U32): (p: Policy)
    ensures threshold >= 1 && windowSecs >= 1 && 1 <= banSecs <= maxBanSecs && strong >= 1 && missing <= threshold ==>
              p == BanPolicy(threshold, windowSecs * SECOND, banSecs * SECOND, maxBanSecs * SECOND, strong, missing)
  {
    var clampedThreshold := Max(threshold, 1);
    var banDuration := Max(banSecs, 1) * SECOND;
    BanPolicy(
      clampedThreshold,
      Max(windowSecs, 1) * SECOND,
      banDuration,
      Max(maxBanSecs * SECOND, banDuration),
      Max(strong, 1),
      Min(missing, clampedThreshold))
  }

  function Distance(a: int, b: int): nat {
    if a < b then b - a else a - b
  }

  /** Each clamped field is the usable value nearest to the configured one: no usable policy comes closer,
      for the two dependent fields among those with the same threshold or ban duration. */
  lemma NewPolicyIsNearest(threshold: U32, windowSecs: U32, banSecs: U32, strong: U32, missing: U32, maxBanSecs: U32,
      q: Policy)
    ensures
      var p := NewPolicy(threshold, windowSecs, banSecs, strong, missing, maxBanSecs);
      && Distance(p.threshold, threshold) <= Distance(q.threshold, threshold)
      && Distance(p.window, windowSecs * SECOND) <= Distance(q.window, windowSecs * SECOND)
      && Distance(p.banDuration, banSecs * SECOND) <= Distance(q.banDuration, banSecs * SECOND)
      && Distance(p.strongWeight, strong) <= Distance(q.strongWeight, strong)
      && (q.threshold == p.threshold ==>
            Distance(p.missingCredentialsWeight, missing) <= Distance(q.missingCredentialsWeight, missing))
      && (q.banDuration == p.banDuration ==>
            Distance(p.maxBanDuration, maxBanSecs * SECOND) <= Distance(q.maxBanDuration, maxBanSecs * SECOND))
  {
  }

  /** The signals the `record_*` entry points report. */
  datatype Signal = Weak | MissingCredentials | Strong | UnwantedCall(verifiedSource: bool)

  function Weight(p: Policy, signal: Signal): U32 {
    match signal
    case Weak => 1
    case MissingCredentials => p.missingCredentialsWeight
    case Strong => p.strongWeight
    case UnwantedCall(verified) => if verified then p.strongWeight else 1
  }

  datatype FailureWindow = FailureWindow(count: U32, windowStart: Time)

  datatype BanEntry = BanEntry(expiry: Time, hardDeadline: Time)

  datatype Store = Store(
    failures: map<IpAddr, FailureWindow>,
    bans: map<IpAddr, BanEntry>,
    policy: Option<Policy>)

  function Fresh(policy: Policy): Store {
    Store(map[], map[], Some(policy))
  }

  /** What a call tells the kernel firewall: arm one element, or lift some. */
  datatype Effect = Quiet | Arm(source: IpAddr, ttl: Time) | Lift(sources: set<IpAddr>)

  function SinceStart(now: Time, start: Time): Time {
    if now < start then 0 else now - start
  }

  function SaturatingAdd(a: U32, b: U32): U32 {
    Min(a + b, U32_MODULUS - 1)
  }

  /** The failure row after one counted signal. */
  function CountSignal(p: Policy, row: Option<FailureWindow>, weight: U32, now: Time): FailureWindow {
    var open := if row.Some? then row.value else FailureWindow(0, now);
    var rolled := if SinceStart(now, open.windowStart) > p.window then FailureWindow(0, now) else open;
    FailureWindow(SaturatingAdd(rolled.count, weight), rolled.windowStart)
  }

  function Lookup<V>(rows: map<IpAddr, V>, source: IpAddr): Option<V> {
    if source in rows then Some(rows[source]) else None
  }

  predicate LiveBan(st: Store, source: IpAddr, now: Time) {
    source in st.bans && st.bans[source].expiry > now
  }

  /** Whether this signal, from this source, is acted on at all. */
  function CountedWeight(st: Store, signal: Signal, trusted: bool): U32 {
    if st.policy.None? || trusted then 0 else Weight(st.policy.value, signal)
  }

  /** A further signal against a live ban: the expiry moves out, up to the hard deadline and never back. */
  function Slide(p: Policy, ban: BanEntry, now: Time): BanEntry {
    ban.(expiry := Max(ban.expiry, Min(now + p.banDuration, ban.hardDeadline)))
  }

  /** `record_failure_weighted_at`: the new store, whether this call newly banned, and the kernel command. */
  function RecordSignal(st: Store, source: IpAddr, signal: Signal, trusted: bool, now: Time): (Store, bool, Effect) {
    var weight := CountedWeight(st, signal, trusted);
    if weight == 0 then (st, false, Quiet)
    else
      var p := st.policy.value;
      if LiveBan(st, source, now) then
        var ban := Slide(p, st.bans[source], now);
        (st.(bans := st.bans[source := ban]), false, Arm(source, ban.expiry - now))
      else
        var reaped := st.bans - {source};
        var row := CountSignal(p, Lookup(st.failures, source), weight, now);
        if row.count >= p.threshold then
          (st.(failures := st.failures - {source},
               bans := reaped[source := BanEntry(now + p.banDuration, now + p.maxBanDuration)]),
           true, Arm(source, p.banDuration))
        else
          (st.(failures := st.failures[source := row], bans := reaped), false, Quiet)
  }

  /** `is_banned_at`: trust wins and leaves the row; a lapsed row is removed. */
  function CheckBanned(st: Store, source: IpAddr, trusted: bool, now: Time): (Store, bool) {
    if source !in st.bans || trusted then (st, false)
    else if st.bans[source].expiry > now then (st, true)
    else (st.(bans := st.bans - {source}), false)
  }

  /** `prune_at`. */
  function Pruned(st: Store, now: Time): Store {
    Store(
      match st.policy
      case Some(p) => map s | s in st.failures &&
          SinceStart(now, st.failures[s].windowStart) <= p.window :: st.failures[s]
      case None => map[],
      map s | s in st.bans && st.bans[s].expiry > now :: st.bans[s],
      st.policy)
  }

  /** `live_bans_at`, as source to remaining time. */
  function LiveBansAt(st: Store, trusted: set<IpAddr>, now: Time): map<IpAddr, Time> {
    map s | s in st.bans && st.bans[s].expiry > now && s !in trusted :: st.bans[s].expiry - now
  }

  /** `banned_sources`, as source to remaining whole seconds. */
  function BannedSourcesAt(st: Store, now: Time): map<IpAddr, nat> {
    map s | s in st.bans && st.bans[s].expiry > now :: (st.bans[s].expiry - now) / SECOND
  }

  datatype Call =
    | Record(source: IpAddr, signal: Signal)
    | Success(source: IpAddr)
    | IsBanned(source: IpAddr)
    | Unban(source: IpAddr)
    | Prune
    | Disable
    | SetPolicy(policy: Policy)
    | LiftSources(sources: set<IpAddr>)   // newly trusted networks, or newly admitted gateways
    | LiveBans
    | BannedSources

  /** A call, the instant it is made at, and whom the trust lookup exempts at that instant. */
  datatype Event = Event(now: Time, trusted: set<IpAddr>, call: Call)

  datatype Output = Done | Answer(yes: bool) | Listing(rows: map<IpAddr, nat>) | Removed(count: nat)

  /** The store after a call. */
  function After(st: Store, e: Event): Store {
    match e.call
    case Record(source, signal) => RecordSignal(st, source, signal, source in e.trusted, e.now).0
    case Success(source) => st.(failures := st.failures - {source})
    case IsBanned(source) => CheckBanned(st, source, source in e.trusted, e.now).0
    case Unban(source) => st.(failures := st.failures - {source}, bans := st.bans - {source})
    case Prune => Pruned(st, e.now)
    case Disable => Store(map[], map[], None)
    case SetPolicy(policy) => st.(policy := Some(policy))
    case LiftSources(sources) => st.(failures := st.failures - sources, bans := st.bans - sources)
    case LiveBans => st
    case BannedSources => st
  }

  /** What a call returns. */
  function OutputOf(st: Store, e: Event): Output {
    match e.call
    case Record(source, signal) => Answer(RecordSignal(st, source, signal, source in e.trusted, e.now).1)
    case IsBanned(source) => Answer(CheckBanned(st, source, source in e.trusted, e.now).1)
    case Unban(source) => Removed(if source in st.bans then 1 else 0)
    case LiftSources(sources) => Removed(|st.bans.Keys * sources|)
    case LiveBans => Listing(LiveBansAt(st, e.trusted, e.now))
    case BannedSources => Listing(BannedSourcesAt(st, e.now))
    case _ => Done
  }

  /** What a call tells the kernel firewall. */
  function EffectOf(st: Store, e: Event): Effect {
    match e.call
    case Record(source, signal) => RecordSignal(st, source, signal, source in e.trusted, e.now).2
    case Unban(source) => Lift(st.bans.Keys * {source})
    case Disable => Lift(st.bans.Keys)
    case LiftSources(sources) => Lift(st.bans.Keys * sources)
    case _ => Quiet
  }

  /** The store after a sequence of calls. */
  function Run(st: Store, events: seq<Event>): Store {
    if events == [] then st
    else After(Run(st, events[..|events|-1]), events[|events|-1])
  }

  /** What the last call of a nonempty run answered. */
  function LastOutput(st: Store, events: seq<Event>): Output
    requires events != []
  {
    OutputOf(Run(st, events[..|events|-1]), events[|events|-1])
  }

  /** The instant of the last call, or `start` before the first. */
  function Clock(start: Time, events: seq<Event>): Time {
    if events == [] then start else events[|events|-1].now
  }

  /** Time never runs backwards from call to call, and starts no earlier than `start`. */
  predicate Timed(start: Time, events: seq<Event>) {
    events != [] ==>
      var init := events[..|events|-1];
      Timed(start, init) && Clock(start, init) <= Clock(start, events)
  }

  lemma {:induction false} ClockStartsAtStart(start: Time, events: seq<Event>)
    requires Timed(start, events)
    ensures start <= Clock(start, events)
  {
    if events != [] {
      ClockStartsAtStart(start, events[..|events|-1]);
    }
  }
}
