/** The auto-ban store as an object: its tables updated in place, its commands to the
    kernel firewall sent as it goes. Each method does what the value model says.
 */
module AutoBanStore {
  import opened Common
  import opened AutoBanModel
  import opened AutoBanRuns
  import opened AutoBanKernel

  /** One command handed to the kernel firewall. */
  datatype Command = BanElement(source: IpAddr, ttl: Time, at: Time) | UnbanElement(source: IpAddr)

  function Execute(k: Kernel, command: Command): Kernel {
    if command.BanElement? then k[command.source := Armed(command.at, command.ttl)] else k - {command.source}
  }

  /** The kernel set a sequence of commands leaves behind. */
  function Replay(sent: seq<Command>): Kernel {
    if sent == [] then map[] else Execute(Replay(sent[..|sent|-1]), sent[|sent|-1])
  }

  lemma ReplaySnoc(sent: seq<Command>, command: Command)
    ensures Replay(sent + [command]) == Execute(Replay(sent), command)
  {
    assert (sent + [command])[..|sent|] == sent;
  }

  /** The commands sent since `before` amount to `effect`; without a handle none were sent. */
  ghost predicate SentFor(wired: bool, before: seq<Command>, sent: seq<Command>, effect: Effect, now: Time) {
    if wired then Replay(sent) == Programmed(Replay(before), effect, now) else sent == before
  }

  /** Lifting the bans that are there is lifting them all. */
  lemma LiftIsModelled(st: AutoBanModel.Store, sources: set<IpAddr>, now: Time)
    ensures
      var e, inside := Event(now, {}, LiftSources(sources)), st.bans.Keys * sources;
      && After(st, e) == AutoBanModel.Store(st.failures - sources, st.bans - inside, st.policy)
      && EffectOf(st, e) == Lift(inside)
      && st.bans - inside == st.bans - sources
  {
  }

  class Store {
    var failures: map<IpAddr, FailureWindow>
    var bans: map<IpAddr, BanEntry>
    var policy: Option<Policy>
    /** Whether a firewall handle was attached at startup. */
    const wired: bool
    ghost var sent: seq<Command>
    /** No call has been made at a later instant than this. */
    ghost var clock: Time

    function State(): (st: AutoBanModel.Store)
      reads this
    {
      AutoBanModel.Store(failures, bans, policy)
    }

    /** The tables are in order, and the kernel drops exactly the banned. */
    ghost predicate Valid()
      reads this
    {
      && Rows(State(), clock)
      && (wired ==> forall s :: AgreeOn(State(), Replay(sent), clock, s))
    }

    constructor (policy: Policy, wired: bool)
      ensures Valid() && State() == Fresh(policy) && this.wired == wired && sent == [] && clock == 0
    {
      this.failures, this.bans := map[], map[];
      this.policy := Some(policy);
      this.wired := wired;
      this.sent, this.clock := [], 0;
    }

    /** Both invariants survive any call that does what the model says. */
    lemma StaysValid(st: AutoBanModel.Store, before: seq<Command>, since: Time, e: Event)
      requires Rows(st, since) && since <= e.now
      requires wired ==> forall s :: AgreeOn(st, Replay(before), since, s)
      requires State() == After(st, e) && clock == e.now
      requires SentFor(wired, before, sent, EffectOf(st, e), e.now)
      ensures Valid()
    {
      ApplyKeepsRows(st, e, since);
      if wired {
        forall s ensures AgreeOn(State(), Replay(sent), clock, s) {
          assert AgreeOn(st, Replay(before), since, s);
          AgreeOnStep(st, Replay(before), since, e, s);
        }
      }
    }

    method SendBan(source: IpAddr, ttl: Time, now: Time)
      modifies this`sent
      ensures SentFor(wired, old(sent), sent, Arm(source, ttl), now)
    {
      if wired {
        ReplaySnoc(sent, BanElement(source, ttl, now));
        sent := sent + [BanElement(source, ttl, now)];
      }
    }

    /** Records one signal; true exactly when this call newly banned the source. */
    method RecordFailureWeightedAt(source: IpAddr, signal: Signal, now: Time, trusted: bool) returns (newlyBanned: bool)
      requires Valid() && clock <= now
      modifies this
      ensures Valid() && clock == now
      ensures
        var e := Event(now, if trusted then {source} else {}, Record(source, signal));
        && State() == After(old(State()), e)
        && Answer(newlyBanned) == OutputOf(old(State()), e)
        && SentFor(wired, old(sent), sent, EffectOf(old(State()), e), now)
    {
      ghost var e := Event(now, if trusted then {source} else {}, Record(source, signal));
      ghost var st0, sent0, clock0 := State(), sent, clock;
      clock := now;
      newlyBanned := CountOrExtend(source, signal, now, trusted);
      StaysValid(st0, sent0, clock0, e);
    }

    method CountOrExtend(source: IpAddr, signal: Signal, now: Time, trusted: bool) returns (newlyBanned: bool)
      modifies this`failures, this`bans, this`sent
      ensures
        var (st, newly, effect) := RecordSignal(old(State()), source, signal, trusted, now);
        && State() == st && newlyBanned == newly
        && SentFor(wired, old(sent), sent, effect, now)
    {
      if policy.None? {
        return false;
      }
      var p := policy.value;
      var weight := Weight(p, signal);
      if weight == 0 {
        return false;
      }
      if trusted {
        return false;
      }
      var extended := ExtendBanAt(source, now, trusted, p);
      if extended {
        return false;
      }
      newlyBanned := Count(source, weight, now, p);
    }

    /** Adds a signal to the source's window, rolled over if it had run out, and bans at the threshold. */
    method Count(source: IpAddr, weight: U32, now: Time, p: Policy) returns (newlyBanned: bool)
      modifies this`failures, this`bans, this`sent
      ensures
        var row := CountSignal(p, Lookup(old(failures), source), weight, now);
        && newlyBanned == (row.count >= p.threshold)
        && (if newlyBanned then
              && failures == old(failures) - {source}
              && bans == old(bans)[source := BanEntry(now + p.banDuration, now + p.maxBanDuration)]
              && SentFor(wired, old(sent), sent, Arm(source, p.banDuration), now)
            else failures == old(failures)[source := row] && bans == old(bans) && sent == old(sent))
    {
      var entry := if source in failures then failures[source] else FailureWindow(0, now);
      if SinceStart(now, entry.windowStart) > p.window {
        entry := FailureWindow(0, now);
      }
      entry := FailureWindow(SaturatingAdd(entry.count, weight), entry.windowStart);
      failures := failures[source := entry];
      newlyBanned := entry.count >= p.threshold;
      if newlyBanned {
        failures := failures - {source};
        bans := bans[source := BanEntry(now + p.banDuration, now + p.maxBanDuration)];
        SendBan(source, p.banDuration, now);
        assert failures == old(failures) - {source};
      }
    }

    /** True when the source is banned, its expiry pushed out up to the hard deadline; a lapsed row is reaped. */
    method ExtendBanAt(source: IpAddr, now: Time, trusted: bool, p: Policy) returns (extended: bool)
      modifies this`bans, this`sent
      ensures extended <==> !trusted && LiveBan(old(State()), source, now)
      ensures extended ==> bans == old(bans)[source := Slide(p, old(bans)[source], now)]
      ensures extended ==> SentFor(wired, old(sent), sent, Arm(source, bans[source].expiry - now), now)
      ensures !extended ==> sent == old(sent) && bans == (if trusted then old(bans) else old(bans) - {source})
    {
      if trusted {
        return false;
      }
      if source in bans && bans[source].expiry > now {
        var entry := bans[source];
        var pushed := Min(now + p.banDuration, entry.hardDeadline);
        if pushed > entry.expiry {
          entry := entry.(expiry := pushed);
        }
        bans := bans[source := entry];
        SendBan(source, entry.expiry - now, now);
        return true;
      }
      bans := bans - {source};
      return false;
    }

    method RecordSuccess(source: IpAddr)
      requires Valid()
      modifies this`failures
      ensures Valid() && State() == After(old(State()), Event(clock, {}, Success(source)))
    {
      ghost var st0 := State();
      failures := failures - {source};
      StaysValid(st0, sent, clock, Event(clock, {}, Success(source)));
    }

    method IsBannedAt(source: IpAddr, now: Time, trusted: bool) returns (banned: bool)
      requires Valid() && clock <= now
      modifies this`bans, this`clock
      ensures Valid() && clock == now
      ensures
        var e := Event(now, if trusted then {source} else {}, IsBanned(source));
        State() == After(old(State()), e) && Answer(banned) == OutputOf(old(State()), e)
      ensures banned <==> !trusted && LiveBan(old(State()), source, now)
    {
      ghost var st0, clock0 := State(), clock;
      clock := now;
      banned := false;
      if source in bans && !trusted {
        if bans[source].expiry > now {
          banned := true;
        } else {
          bans := bans - {source};
        }
      }
      StaysValid(st0, sent, clock0, Event(now, if trusted then {source} else {}, IsBanned(source)));
    }

    method PruneAt(now: Time)
      requires Valid() && clock <= now
      modifies this`failures, this`bans, this`clock
      ensures Valid() && clock == now && State() == Pruned(old(State()), now)
    {
      ghost var st0, clock0 := State(), clock;
      clock := now;
      bans := map s | s in bans && bans[s].expiry > now :: bans[s];
      match policy {
        case Some(p) =>
          failures := map s | s in failures && SinceStart(now, failures[s].windowStart) <= p.window :: failures[s];
        case None =>
          failures := map[];
      }
      StaysValid(st0, sent, clock0, Event(now, {}, Prune));
    }

    method SetPolicy(policy: Policy)
      requires Valid()
      modifies this`policy
      ensures Valid() && State() == After(old(State()), Event(clock, {}, Call.SetPolicy(policy)))
    {
      ghost var st0 := State();
      this.policy := Some(policy);
      StaysValid(st0, sent, clock, Event(clock, {}, Call.SetPolicy(policy)));
    }

    /** Lifts the bans on `sources`, one by one, from the table and from the kernel. */
    method LiftBans(sources: set<IpAddr>)
      requires sources <= bans.Keys
      modifies this`bans, this`sent
      ensures bans == old(bans) - sources
      ensures SentFor(wired, old(sent), sent, Lift(sources), clock)
    {
      var left := sources;
      while left != {}
        invariant left <= sources
        invariant bans == old(bans) - (sources - left)
        invariant SentFor(wired, old(sent), sent, Lift(sources - left), clock)
        decreases left
      {
        var source :| source in left;
        left := left - {source};
        bans := bans - {source};
        if wired {
          ReplaySnoc(sent, UnbanElement(source));
          sent := sent + [UnbanElement(source)];
        }
        assert sources - left == (sources - (left + {source})) + {source};
      }
      assert sources - left == sources;
    }

    /** Lifts the ban on `source`, the failure window too; true if there was a ban. */
    method Unban(source: IpAddr) returns (wasBanned: bool)
      requires Valid()
      modifies this`failures, this`bans, this`sent
      ensures Valid() && wasBanned == (source in old(bans))
      ensures State() == After(old(State()), Event(clock, {}, Call.Unban(source)))
      ensures SentFor(wired, old(sent), sent, EffectOf(old(State()), Event(clock, {}, Call.Unban(source))), clock)
    {
      ghost var st0, sent0 := State(), sent;
      wasBanned := source in bans;
      if wasBanned {
        LiftBans({source});
      }
      failures := failures - {source};
      assert st0.bans.Keys * {source} == if wasBanned then {source} else {};
      StaysValid(st0, sent0, clock, Event(clock, {}, Call.Unban(source)));
    }

    /** Stops counting and lifts everything. */
    method Disable()
      requires Valid()
      modifies this`policy, this`failures, this`bans, this`sent
      ensures Valid() && State() == AutoBanModel.Store(map[], map[], None)
      ensures SentFor(wired, old(sent), sent, Lift(old(bans).Keys), clock)
    {
      ghost var st0, sent0 := State(), sent;
      policy := None;
      failures := map[];
      LiftBans(bans.Keys);
      assert bans == map[];
      StaysValid(st0, sent0, clock, Event(clock, {}, Call.Disable));
    }

    /** Lifts bans and failure windows on every source now trusted; returns how many bans that was. */
    method LiftTrusted(sources: set<IpAddr>) returns (lifted: nat)
      requires Valid()
      modifies this`failures, this`bans, this`sent
      ensures Valid() && lifted == |old(bans).Keys * sources|
      ensures State() == old(State()).(failures := old(failures) - sources, bans := old(bans) - sources)
      ensures SentFor(wired, old(sent), sent, Lift(old(bans).Keys * sources), clock)
    {
      ghost var st0, sent0, e := State(), sent, Event(clock, {}, LiftSources(sources));
      LiftIsModelled(st0, sources, clock);
      var inside := bans.Keys * sources;
      failures := failures - sources;
      LiftBans(inside);
      lifted := |inside|;
      assert State() == After(st0, e);
      StaysValid(st0, sent0, clock, e);
    }
  }
}
