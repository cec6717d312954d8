/** The kernel firewall set that mirrors the bans: a table of elements with a timeout,
    driven only by the commands the store sends.
 */
module AutoBanKernel {
  import opened Common
  import opened AutoBanModel

  /** An element of the kernel set: dropped until its timeout runs out, or for good. */
  datatype Element = Until(end: Time) | Forever

  type Kernel = map<IpAddr, Element>

  /** An element armed at `now`; a timeout of zero is none at all. */
  function Armed(now: Time, ttl: Time): Element {
    if ttl == 0 then Forever else Until(now + ttl)
  }

  const MILLISECOND: Time := 1_000_000

  predicate KernelDrops(k: Kernel, source: IpAddr, t: Time) {
    source in k && (k[source].Forever? || k[source].end > t)
  }

  /** The kernel after the commands of one call made at `now`; re-adding an element refreshes its timeout. */
  function Programmed(k: Kernel, effect: Effect, now: Time): Kernel {
    match effect
    case Quiet => k
    case Arm(source, ttl) => k[source := Armed(now, ttl)]
    case Lift(sources) => k - sources
  }

  /** The kernel after a run in which no command was lost. */
  function KernelAfter(st: Store, k: Kernel, events: seq<Event>): Kernel {
    if events == [] then k
    else
      var init, e := events[..|events|-1], events[|events|-1];
      Programmed(KernelAfter(st, k, init), EffectOf(Run(st, init), e), e.now)
  }

  /** For `s`, the kernel and the store agree on whether it is banned at `now`, and until when. */
  predicate AgreeOn(st: Store, k: Kernel, now: Time, s: IpAddr) {
    && (KernelDrops(k, s, now) <==> LiveBan(st, s, now))
    && (LiveBan(st, s, now) ==> k[s] == Until(st.bans[s].expiry))
  }

  lemma AgreeOnRecord(st: Store, k: Kernel, before: Time, e: Event, s: IpAddr)
    requires AgreeOn(st, k, before, s) && before <= e.now && e.call.Record?
    ensures AgreeOn(After(st, e), Programmed(k, EffectOf(st, e), e.now), e.now, s)
  {
    var source := e.call.source;
    if s == source {
      assert EffectOf(st, e).Arm? ==> EffectOf(st, e).ttl > 0;
    } else {
      assert Lookup(After(st, e).bans, s) == Lookup(st.bans, s);
    }
  }

  lemma AgreeOnStep(st: Store, k: Kernel, before: Time, e: Event, s: IpAddr)
    requires AgreeOn(st, k, before, s) && before <= e.now
    ensures AgreeOn(After(st, e), Programmed(k, EffectOf(st, e), e.now), e.now, s)
  {
    match e.call {
      case Record(source, _) => AgreeOnRecord(st, k, before, e, s);
      case Prune =>
      case Disable =>
      case LiftSources(_) =>
      case _ =>
    }
  }

  lemma {:induction false} RunKeepsAgreement(st: Store, k: Kernel, start: Time, events: seq<Event>, s: IpAddr)
    requires AgreeOn(st, k, start, s) && Timed(start, events)
    ensures AgreeOn(Run(st, events), KernelAfter(st, k, events), Clock(start, events), s)
  {
    if events != [] {
      var init, e := events[..|events|-1], events[|events|-1];
      RunKeepsAgreement(st, k, start, init, s);
      AgreeOnStep(Run(st, init), KernelAfter(st, k, init), Clock(start, init), e, s);
    }
  }

  /** From an empty store and set on, the kernel drops exactly the sources with a live ban, at the
      instant of the last call and at every later one until the next. */
  lemma {:induction false} KernelInLockstep(p: Policy, events: seq<Event>, t: Time, source: IpAddr)
    requires Timed(0, events) && Clock(0, events) <= t
    ensures KernelDrops(KernelAfter(Fresh(p), map[], events), source, t) <==> LiveBan(Run(Fresh(p), events), source, t)
  {
    RunKeepsAgreement(Fresh(p), map[], 0, events, source);
  }

  // ----- the set recreated empty, and refilled -----

  /** What the set is refilled with: the live bans, each for the time it has left. */
  function Refilled(st: Store, trusted: set<IpAddr>, now: Time): Kernel {
    map s | s in LiveBansAt(st, trusted, now) :: Armed(now, LiveBansAt(st, trusted, now)[s])
  }

  /** A refilled set spares every trusted source and agrees with the store on all others, and every
      run from there on keeps that agreement. */
  lemma {:induction false} RefillRestoresAgreement(st: Store, trusted: set<IpAddr>, now: Time, events: seq<Event>)
    requires Timed(now, events)
    ensures forall s :: s !in trusted ==>
        AgreeOn(Run(st, events), KernelAfter(st, Refilled(st, trusted, now), events), Clock(now, events), s)
    ensures forall s :: s in trusted ==> s !in Refilled(st, trusted, now)
  {
    forall s | s !in trusted
      ensures AgreeOn(Run(st, events), KernelAfter(st, Refilled(st, trusted, now), events), Clock(now, events), s)
    {
      assert AgreeOn(st, Refilled(st, trusted, now), now, s);
      RunKeepsAgreement(st, Refilled(st, trusted, now), now, events, s);
    }
  }

  // ----- timeouts in whole milliseconds -----

  /** The timeout the firewall handle programs: whole milliseconds, and never the zero that would ban for good. */
  function RoundedTtl(ttl: Time): Time {
    Max(ttl / MILLISECOND, 1) * MILLISECOND
  }

  function RoundedEffect(effect: Effect): Effect {
    if effect.Arm? then Arm(effect.source, RoundedTtl(effect.ttl)) else effect
  }

  function RoundedKernelAfter(st: Store, k: Kernel, events: seq<Event>): Kernel {
    if events == [] then k
    else
      var init, e := events[..|events|-1], events[|events|-1];
      Programmed(RoundedKernelAfter(st, k, init), RoundedEffect(EffectOf(Run(st, init), e)), e.now)
  }

  /** For `s`, the rounded set is less than a millisecond off the store, one way or the other. */
  predicate CloseOn(st: Store, k: Kernel, now: Time, s: IpAddr) {
    && (s in k ==> k[s].Until?)
    && (LiveBan(st, s, now) ==>
        s in k && st.bans[s].expiry < k[s].end + MILLISECOND && k[s].end < st.bans[s].expiry + MILLISECOND)
    && (s in k && !LiveBan(st, s, now) ==> k[s].end < now + MILLISECOND)
  }

  lemma RoundingIsClose(ttl: Time)
    requires ttl > 0
    ensures ttl < RoundedTtl(ttl) + MILLISECOND && 0 < RoundedTtl(ttl) < ttl + MILLISECOND
  {
  }

  lemma CloseOnStep(st: Store, k: Kernel, before: Time, e: Event, s: IpAddr)
    requires CloseOn(st, k, before, s) && before <= e.now
    ensures CloseOn(After(st, e), Programmed(k, RoundedEffect(EffectOf(st, e)), e.now), e.now, s)
  {
    var effect := EffectOf(st, e);
    if effect.Arm? {
      assert effect.ttl > 0;
      RoundingIsClose(effect.ttl);
    }
    match e.call {
      case Record(source, _) =>
      case Prune =>
      case Disable =>
      case LiftSources(_) =>
      case _ =>
    }
  }

  lemma {:induction false} RunKeepsClose(st: Store, k: Kernel, start: Time, events: seq<Event>, s: IpAddr)
    requires CloseOn(st, k, start, s) && Timed(start, events)
    ensures CloseOn(Run(st, events), RoundedKernelAfter(st, k, events), Clock(start, events), s)
  {
    if events != [] {
      var init, e := events[..|events|-1], events[|events|-1];
      RunKeepsClose(st, k, start, init, s);
      CloseOnStep(Run(st, init), RoundedKernelAfter(st, k, init), Clock(start, init), e, s);
    }
  }

  /** The kernel lets `source` in, or out, less than a millisecond away from when the store does. */
  predicate WithinAMillisecond(st: Store, k: Kernel, source: IpAddr, t: Time) {
    && (LiveBan(st, source, t + MILLISECOND) ==> KernelDrops(k, source, t))
    && (KernelDrops(k, source, t + MILLISECOND) ==> LiveBan(st, source, t))
  }

  /** With timeouts rounded to milliseconds, kernel and store are less than one apart over every run. */
  lemma {:induction false} KernelWithinAMillisecond(p: Policy, events: seq<Event>, t: Time, source: IpAddr)
    requires Timed(0, events) && Clock(0, events) <= t
    ensures WithinAMillisecond(Run(Fresh(p), events), RoundedKernelAfter(Fresh(p), map[], events), source, t)
  {
    RunKeepsClose(Fresh(p), map[], 0, events, source);
  }

  /** The refill as the firewall takes it, in whole milliseconds. */
  function RoundedRefill(st: Store, trusted: set<IpAddr>, now: Time): Kernel {
    map s | s in LiveBansAt(st, trusted, now) :: Armed(now, RoundedTtl(LiveBansAt(st, trusted, now)[s]))
  }

  /** So are they after a rounded refill, which spares every trusted source, and over every run from there. */
  lemma {:induction false} RefillWithinAMillisecond(st: Store, trusted: set<IpAddr>, now: Time, events: seq<Event>,
      t: Time, source: IpAddr)
    requires Timed(now, events) && Clock(now, events) <= t
    ensures source in trusted ==> source !in RoundedRefill(st, trusted, now)
    ensures source !in trusted ==>
              WithinAMillisecond(Run(st, events), RoundedKernelAfter(st, RoundedRefill(st, trusted, now), events),
                  source, t)
  {
    if source !in trusted {
      if LiveBan(st, source, now) {
        RoundingIsClose(st.bans[source].expiry - now);
      }
      RunKeepsClose(st, RoundedRefill(st, trusted, now), now, events, source);
    }
  }
}
