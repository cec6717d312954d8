/** What each kind of signal is worth: a source is banned exactly when its signals add up, each at the
    configured weight of its kind.
 */
module AutoBanSignals {
  import opened Common
  import opened AutoBanModel
  import opened AutoBanRuns
  import opened AutoBanEvidence
  import opened AutoBanDetection

  /** How many calls reported this kind of signal from `source`. */
  function Number(events: seq<Event>, source: IpAddr, signal: Signal): nat {
    if events == [] then 0
    else
      Number(events[..|events|-1], source, signal)
      + (if events[|events|-1].call == Record(source, signal) then 1 else 0)
  }

  /** What the signals of `source` come to under a policy, straight from its fields. */
  function Score(p: Policy, events: seq<Event>, source: IpAddr): nat {
    Number(events, source, Weak) + Number(events, source, UnwantedCall(false))
    + (Number(events, source, Strong) + Number(events, source, UnwantedCall(true))) * p.strongWeight
    + Number(events, source, MissingCredentials) * p.missingCredentialsWeight
  }

  /** The last call of the run reported a new ban of `source`. */
  predicate ReportsBan(st: Store, events: seq<Event>, source: IpAddr)
    requires events != []
  {
    RaisedBy(Run(st, events[..|events|-1]), events[|events|-1], source)
  }

  /** Some call of the run did. */
  ghost predicate HasBeenBanned(st: Store, events: seq<Event>, source: IpAddr) {
    exists n :: 0 < n <= |events| && ReportsBan(st, events[..n], source)
  }

  /** The store knows nothing of `source` but its score, in a window opened no earlier than `start`. */
  predicate Tallies(p: Policy, st: Store, source: IpAddr, start: Time, now: Time, score: nat) {
    && st.policy == Some(p) && source !in st.bans
    && if score == 0 then source !in st.failures
       else source in st.failures && st.failures[source].count == score
            && start <= st.failures[source].windowStart <= now
  }

  /** What one more call adds to the score. */
  function Worth(p: Policy, e: Event, source: IpAddr): nat {
    if e.call == Record(source, Weak) || e.call == Record(source, UnwantedCall(false)) then 1
    else if e.call == Record(source, Strong) || e.call == Record(source, UnwantedCall(true)) then p.strongWeight
    else if e.call == Record(source, MissingCredentials) then p.missingCredentialsWeight
    else 0
  }

  lemma ScoreSnoc(p: Policy, events: seq<Event>, source: IpAddr)
    requires events != []
    ensures Score(p, events, source) == Score(p, events[..|events|-1], source) + Worth(p, events[|events|-1], source)
  {
  }

  lemma OwnSignal(p: Policy, st: Store, e: Event, source: IpAddr, start: Time, before: Time, score: nat)
    requires Tallies(p, st, source, start, before, score) && score < p.threshold
    requires start <= before <= e.now <= start + p.window
    requires source !in e.trusted && e.call.Record? && e.call.source == source
    ensures RaisedBy(st, e, source) <==> score + Worth(p, e, source) >= p.threshold
    ensures !RaisedBy(st, e, source) ==>
              Tallies(p, After(st, e), source, start, e.now, score + Worth(p, e, source))
  {
    match e.call.signal {
      case Weak =>
      case MissingCredentials =>
      case Strong =>
      case UnwantedCall(_) =>
    }
  }

  lemma TallyStep(p: Policy, st: Store, e: Event, source: IpAddr, start: Time, before: Time, score: nat)
    requires Tallies(p, st, source, start, before, score) && score < p.threshold
    requires start <= before <= e.now <= start + p.window
    requires source !in e.trusted && !Clears(e, source) && !e.call.SetPolicy?
    ensures RaisedBy(st, e, source) <==> score + Worth(p, e, source) >= p.threshold
    ensures !RaisedBy(st, e, source) ==>
              Tallies(p, After(st, e), source, start, e.now, score + Worth(p, e, source))
  {
    if e.call.Record? && e.call.source == source {
      OwnSignal(p, st, e, source, start, before, score);
    } else {
      assert Worth(p, e, source) == 0;
    }
  }

  /** From a fresh store, over any calls within one window that leave the policy and the record of an untrusted
      source alone: the source has been banned if and only if its weak signals and unverified unwanted calls, its
      strong signals and verified unwanted calls at the strong weight, and its missing credentials at theirs come to
      the threshold. Until then its failure row counts exactly that sum, and there is none while the sum is zero. */
  lemma {:induction false} BannedIffSignalsAddUp(p: Policy, events: seq<Event>, source: IpAddr, start: Time)
    requires Timed(start, events) && Clock(start, events) <= start + p.window && Undisturbed(events, source)
    ensures HasBeenBanned(Fresh(p), events, source) <==> Score(p, events, source) >= p.threshold
    ensures Score(p, events, source) < p.threshold ==>
              Tallies(p, Run(Fresh(p), events), source, start, Clock(start, events), Score(p, events, source))
  {
    if events != [] {
      var init, e := events[..|events|-1], events[|events|-1];
      ClockStartsAtStart(start, init);
      BannedIffSignalsAddUp(p, init, source, start);
      BannedSnoc(Fresh(p), events, source);
      ScoreSnoc(p, events, source);
      if Score(p, init, source) < p.threshold {
        TallyStep(p, Run(Fresh(p), init), e, source, start, Clock(start, init), Score(p, init, source));
      }
    }
  }

  lemma BannedSnoc(st: Store, events: seq<Event>, source: IpAddr)
    requires events != []
    ensures HasBeenBanned(st, events, source) <==>
            HasBeenBanned(st, events[..|events|-1], source) || ReportsBan(st, events, source)
  {
    var init := events[..|events|-1];
    assert events[..|events|] == events;
    if n :| 0 < n <= |events| && ReportsBan(st, events[..n], source) {
      assert n < |events| ==> init[..n] == events[..n];
    }
    if n :| 0 < n <= |init| && ReportsBan(st, init[..n], source) {
      assert init[..n] == events[..n];
    }
  }
}
