/**
 * Polling a provisioning source: the delay between failed polls, and which
 * failures reach the log. Times are nanoseconds.
 */
module PollHealth {
  import opened Common

  const FIRST_RETRY := 250_000_000
  const ERROR_LOG_INTERVAL := 60_000_000_000
  const U64_MAX := 0xffff_ffff_ffff_ffff

  // ----- backoff -----

  function Pow2(k: nat): nat {
    if k == 0 then 1 else 2 * Pow2(k - 1)
  }

  /** The delay after `k` failures in a row: doubling from the first retry up to the ceiling. */
  function Delay(ceiling: nat, k: nat): nat {
    Min(ceiling, FIRST_RETRY * Pow2(k))
  }

  lemma {:induction false} Pow2Grows(j: nat, k: nat)
    requires j <= k
    ensures 1 <= Pow2(j) <= Pow2(k)
    decreases k - j, j
  {
    if j < k {
      Pow2Grows(j, k - 1);
    } else if j > 0 {
      Pow2Grows(j - 1, j - 1);
    }
  }

  /** Delays never shrink, and stay at the ceiling once they are there. */
  lemma DelaysGrow(ceiling: nat, j: nat, k: nat)
    requires j <= k
    ensures Delay(ceiling, j) <= Delay(ceiling, k) <= ceiling
    ensures Delay(ceiling, j) == ceiling ==> Delay(ceiling, k) == ceiling
  {
    Pow2Grows(j, k);
  }

  /** The delay doubles until the ceiling stops it. */
  lemma DelayDoubles(ceiling: nat, k: nat)
    ensures Min(2 * Delay(ceiling, k), ceiling) == Delay(ceiling, k + 1)
  {
    assert FIRST_RETRY * Pow2(k + 1) == 2 * (FIRST_RETRY * Pow2(k));
  }

  /** What a caller does with a backoff. */
  datatype Op = Ask | Reset

  /** The stored delay after a run of operations on a fresh backoff. */
  function Next(ceiling: nat, ops: seq<Op>): nat {
    if ops == [] || ops[|ops|-1] == Reset then Min(FIRST_RETRY, ceiling)
    else Min(2 * Next(ceiling, ops[..|ops|-1]), ceiling)
  }

  /** How often the delay was asked for since the last reset. */
  function Asked(ops: seq<Op>): nat {
    if ops == [] || ops[|ops|-1] == Reset then 0 else Asked(ops[..|ops|-1]) + 1
  }

  /** Over any run, the delay handed out next is the closed form in the asks since the last reset. */
  lemma {:induction false} BackoffClosedForm(ceiling: nat, ops: seq<Op>)
    ensures Min(Next(ceiling, ops), ceiling) == Next(ceiling, ops) == Delay(ceiling, Asked(ops))
    ensures Next(ceiling, ops) == Min(ceiling, 250_000_000 * Pow2(Asked(ops)))
  {
    if ops != [] && ops[|ops|-1] == Ask {
      BackoffClosedForm(ceiling, ops[..|ops|-1]);
      DelayDoubles(ceiling, Asked(ops[..|ops|-1]));
    }
  }

  class Backoff {
    const ceiling: nat
    var next: nat
    ghost var ops: seq<Op>

    ghost predicate Valid()
      reads this
    {
      next == Next(ceiling, ops)
    }

    constructor (ceiling: nat)
      ensures Valid() && this.ceiling == ceiling && ops == []
    {
      this.ceiling := ceiling;
      next := Min(FIRST_RETRY, ceiling);
      ops := [];
    }

    method NextDelay() returns (delay: nat)
      requires Valid()
      modifies this
      ensures Valid() && ops == old(ops) + [Ask]
      ensures delay == Delay(ceiling, Asked(old(ops)))
    {
      BackoffClosedForm(ceiling, ops);
      delay := Min(next, ceiling);
      next := Min(next * 2, ceiling);
      ops := ops + [Ask];
    }

    method Reset()
      requires Valid()
      modifies this
      ensures Valid() && ops == old(ops) + [Op.Reset]
    {
      next := Min(FIRST_RETRY, ceiling);
      ops := ops + [Op.Reset];
    }
  }

  // ----- the log of a failing source -----

  /** A line in the log: when, at which failure of the streak, and how many failures it reports as passed over. */
  datatype Line = Line(at: nat, failure: nat, suppressed: nat)

  datatype Health = Health(consecutive: nat, suppressed: nat, lastLogged: Option<nat>)

  const HEALTHY := Health(0, 0, None)

  function SaturatingInc(n: nat): nat {
    if n < U64_MAX then n + 1 else U64_MAX
  }

  /** Whether the failure that makes the count `consecutive` is logged. */
  predicate Due(h: Health, consecutive: nat, now: nat) {
    consecutive == 2 || h.lastLogged.None? || now - h.lastLogged.value >= ERROR_LOG_INTERVAL
  }

  /** A failed poll: the clock when the interval is checked, and again when the line is written. */
  datatype Failure = Failure(checked: nat, logged: nat)

  function AfterFailure(h: Health, f: Failure): Health {
    var consecutive := SaturatingInc(h.consecutive);
    if consecutive == 1 then Health(1, h.suppressed, Some(f.logged))
    else if Due(h, consecutive, f.checked) then Health(consecutive, 0, Some(f.logged))
    else Health(consecutive, SaturatingInc(h.suppressed), h.lastLogged)
  }

  /** The line a failure writes, if it writes one. */
  function LinesOf(h: Health, f: Failure): seq<Line> {
    var consecutive := SaturatingInc(h.consecutive);
    if consecutive == 1 then [Line(f.logged, 1, 0)]
    else if Due(h, consecutive, f.checked) then [Line(f.logged, consecutive, h.suppressed)]
    else []
  }

  /** A streak: the source after the given failures, and what was logged. */
  function Streak(failures: seq<Failure>): Health {
    if failures == [] then HEALTHY else AfterFailure(Streak(failures[..|failures|-1]), failures[|failures|-1])
  }

  function Log(failures: seq<Failure>): seq<Line> {
    if failures == [] then []
    else Log(failures[..|failures|-1]) + LinesOf(Streak(failures[..|failures|-1]), failures[|failures|-1])
  }

  /** The clock never runs backwards. */
  predicate Ordered(failures: seq<Failure>) {
    && (forall i :: 0 <= i < |failures| ==> failures[i].checked <= failures[i].logged)
    && (forall i, j :: 0 <= i < j < |failures| ==> failures[i].logged <= failures[j].checked)
  }

  /** What the lines report as passed over, together. */
  function Reported(lines: seq<Line>): nat {
    if lines == [] then 0 else Reported(lines[..|lines|-1]) + lines[|lines|-1].suppressed
  }

  lemma ReportedSnoc(lines: seq<Line>, line: Line)
    ensures Reported(lines + [line]) == Reported(lines) + line.suppressed
  {
    assert (lines + [line])[..|lines|] == lines;
  }

  /** The line counts on from the one before it, past the failures it reports as passed over. */
  predicate CountsOn(lines: seq<Line>, i: nat)
    requires 1 <= i < |lines|
  {
    lines[i].failure == lines[i-1].failure + lines[i].suppressed + 1
  }

  predicate Numbered(lines: seq<Line>) {
    && (lines != [] ==> lines[0].failure == 1 && lines[0].suppressed == 0)
    && forall i :: 1 <= i < |lines| ==> CountsOn(lines, i)
  }

  lemma NumberedSnoc(lines: seq<Line>, line: Line)
    requires Numbered(lines)
    requires if lines == [] then line.failure == 1 && line.suppressed == 0
             else line.failure == lines[|lines|-1].failure + line.suppressed + 1
    ensures Numbered(lines + [line])
  {
    forall i | 1 <= i < |lines| + 1 ensures CountsOn(lines + [line], i) {
      if i < |lines| {
        assert CountsOn(lines, i);
      }
    }
  }

  /** The bookkeeping of a streak. */
  predicate Accounted(h: Health, lines: seq<Line>, count: nat) {
    && h.consecutive == count
    && |lines| + Reported(lines) + h.suppressed == count
    && (count <= 2 ==> h.suppressed == 0)
    && (count == 0 <==> lines == [])
    && (lines != [] ==> h.lastLogged == Some(lines[|lines|-1].at))
  }

  lemma AccountedStep(h: Health, lines: seq<Line>, count: nat, f: Failure)
    requires Accounted(h, lines, count) && count < U64_MAX
    ensures Accounted(AfterFailure(h, f), lines + LinesOf(h, f), count + 1)
  {
    var more := LinesOf(h, f);
    if more == [] {
      assert lines + more == lines;
    } else {
      assert lines + more == lines + [more[0]];
      ReportedSnoc(lines, more[0]);
    }
  }

  /**
   * No failure is lost: the lines of a streak, the failures they report as
   * passed over and the ones still to be reported add up to all of them.
   */
  lemma {:induction false} NoFailureIsLost(failures: seq<Failure>)
    requires |failures| <= U64_MAX
    ensures Streak(failures).consecutive == |failures|
    ensures |Log(failures)| + Reported(Log(failures)) + Streak(failures).suppressed == |failures|
    ensures Accounted(Streak(failures), Log(failures), |failures|)
  {
    if failures != [] {
      var before := failures[..|failures|-1];
      NoFailureIsLost(before);
      AccountedStep(Streak(before), Log(before), |before|, failures[|failures|-1]);
    }
  }

  /** The lines are numbered, and the pending failures are those behind the last of them. */
  predicate NumberedTo(h: Health, lines: seq<Line>, count: nat) {
    Numbered(lines) && (lines != [] ==> lines[|lines|-1].failure + h.suppressed == count)
  }

  lemma NumberedStep(h: Health, lines: seq<Line>, count: nat, f: Failure)
    requires NumberedTo(h, lines, count) && h.consecutive == count < U64_MAX
    requires (count == 0 <==> lines == []) && (count == 0 ==> h.suppressed == 0)
    ensures NumberedTo(AfterFailure(h, f), lines + LinesOf(h, f), count + 1)
  {
    var more := LinesOf(h, f);
    if more == [] {
      assert lines + more == lines;
    } else {
      assert more == [more[0]];
      NumberedSnoc(lines, more[0]);
    }
  }

  lemma {:induction false} LinesAreNumbered(failures: seq<Failure>)
    requires |failures| <= U64_MAX
    ensures NumberedTo(Streak(failures), Log(failures), |failures|)
  {
    if failures != [] {
      var before := failures[..|failures|-1];
      LinesAreNumbered(before);
      NoFailureIsLost(before);
      NumberedStep(Streak(before), Log(before), |before|, failures[|before|]);
    }
  }

  /** The line carries the time of the failure it names. */
  predicate NamesItsFailure(line: Line, failures: seq<Failure>) {
    1 <= line.failure <= |failures| && line.at == failures[line.failure-1].logged
  }

  lemma {:induction false} LinesNameTheirFailures(failures: seq<Failure>)
    requires |failures| <= U64_MAX
    ensures forall line :: line in Log(failures) ==> NamesItsFailure(line, failures)
  {
    if failures != [] {
      var before := failures[..|failures|-1];
      LinesNameTheirFailures(before);
      assert Streak(before).consecutive == |before| by {
        NoFailureIsLost(before);
      }
      forall line | line in Log(failures) ensures NamesItsFailure(line, failures) {
        if line in Log(before) {
          assert NamesItsFailure(line, before);
        } else {
          assert line in LinesOf(Streak(before), failures[|before|]);
        }
      }
    }
  }

  /** Every line gives its own place in the streak: the failures between it and the line before it are the ones
      it reports as passed over, and those behind the last line are still to be reported. */
  lemma LinesSayWhatWasPassedOver(failures: seq<Failure>)
    requires failures != [] && |failures| <= U64_MAX
    ensures
      var log := Log(failures);
      && log != [] && log[0].failure == 1 && log[0].suppressed == 0
      && (forall i :: 1 <= i < |log| ==> CountsOn(log, i))
      && log[|log|-1].failure + Streak(failures).suppressed == |failures|
      && (forall line :: line in log ==> NamesItsFailure(line, failures))
  {
    NoFailureIsLost(failures);
    LinesAreNumbered(failures);
    LinesNameTheirFailures(failures);
  }

  // ----- how often a streak is logged -----

  /** In nanoseconds. */
  const MINUTE := 60 * 1_000_000_000

  /** The lines of a streak that began at `start`, after its latest failure. */
  predicate Paced(lines: seq<Line>, start: nat, latest: Failure) {
    && lines != []
    && start <= lines[|lines|-1].at <= latest.logged && latest.checked < lines[|lines|-1].at + MINUTE
    && (forall i :: 2 <= i < |lines| ==> lines[i].at - lines[i-1].at >= MINUTE)
    && (forall i :: 0 <= i < |lines| && i < 2 ==> lines[i].failure == i + 1)
    && (|lines| >= 2 ==> start + (|lines| - 2) * MINUTE <= lines[|lines|-1].at)
  }

  lemma PacedStep(h: Health, lines: seq<Line>, count: nat, start: nat, before: Failure, f: Failure)
    requires Accounted(h, lines, count) && Paced(lines, start, before) && 1 <= count < U64_MAX
    requires before.logged <= f.checked <= f.logged
    requires count >= 2 ==> |lines| >= 2
    ensures Paced(lines + LinesOf(h, f), start, f) && |lines + LinesOf(h, f)| >= 2
  {
    var more := LinesOf(h, f);
    if more == [] {
      assert lines + more == lines;
    } else {
      assert more[0].at == f.logged && (count == 1 ==> |lines| == 1 && more[0].failure == 2);
      Spread(|lines|, start, lines[|lines|-1].at, f.logged);
    }
  }

  lemma Spread(lines: nat, start: nat, last: nat, now: nat)
    requires lines >= 1 && start <= last <= now
    requires lines >= 2 ==> start + (lines - 2) * ERROR_LOG_INTERVAL <= last && now - last >= ERROR_LOG_INTERVAL
    ensures start + (lines - 1) * ERROR_LOG_INTERVAL <= now || lines == 1
  {
  }

  /**
   * The pace of the log over a streak: its first two failures are logged, a
   * minute lies between any two later lines, and no failure comes a minute or
   * more after the latest line.
   */
  lemma {:induction false} LogIsPaced(failures: seq<Failure>)
    requires failures != [] && Ordered(failures) && |failures| <= U64_MAX
    ensures Paced(Log(failures), failures[0].checked, failures[|failures|-1])
    ensures |failures| >= 2 ==> |Log(failures)| >= 2
  {
    var before := failures[..|failures|-1];
    if before != [] {
      LogIsPaced(before);
      NoFailureIsLost(before);
      PacedStep(Streak(before), Log(before), |before|, failures[0].checked, before[|before|-1], failures[|failures|-1]);
    } else {
      assert Log(failures) == [] + [Line(failures[0].logged, 1, 0)];
    }
  }

  /** A streak of a given duration writes at most two lines and one for each full minute. */
  lemma AtMostOneLineAMinute(failures: seq<Failure>)
    requires failures != [] && Ordered(failures) && |failures| <= U64_MAX
    ensures |Log(failures)| <= 2 + (failures[|failures|-1].logged - failures[0].checked) / MINUTE
  {
    LogIsPaced(failures);
    var lines, duration := |Log(failures)|, failures[|failures|-1].logged - failures[0].checked;
    if lines >= 2 {
      assert (lines - 2) * ERROR_LOG_INTERVAL <= duration;
    }
  }

  class SourceHealth {
    var consecutive: nat
    var suppressed: nat
    var lastLogged: Option<nat>
    /** The failures since the last success, and what they wrote. */
    ghost var failures: seq<Failure>
    ghost var lines: seq<Line>

    ghost predicate Valid()
      reads this
    {
      Health(consecutive, suppressed, lastLogged) == Streak(failures) && lines == Log(failures)
    }

    constructor ()
      ensures Valid() && failures == []
    {
      consecutive, suppressed, lastLogged := 0, 0, None;
      failures, lines := [], [];
    }

    method RecordSuccess()
      requires Valid()
      modifies this
      ensures Valid() && failures == [] && consecutive == 0
    {
      consecutive, suppressed, lastLogged := 0, 0, None;
      failures, lines := [], [];
    }

    /** Counts a failure; the line is what the operator gets to see. */
    method RecordFailure(f: Failure) returns (line: Option<Line>)
      requires Valid()
      modifies this
      ensures Valid() && failures == old(failures) + [f]
      ensures lines == old(lines) + if line.Some? then [line.value] else []
    {
      assert (failures + [f])[..|failures|] == failures;
      consecutive := SaturatingInc(consecutive);
      if consecutive == 1 {
        lastLogged := Some(f.logged);
        line := Some(Line(f.logged, 1, 0));
      } else if consecutive == 2 || lastLogged.None? || f.checked - lastLogged.value >= ERROR_LOG_INTERVAL {
        line := Some(Line(f.logged, consecutive, suppressed));
        suppressed := 0;
        lastLogged := Some(f.logged);
      } else {
        line := None;
        suppressed := SaturatingInc(suppressed);
      }
      failures := failures + [f];
      lines := lines + if line.Some? then [line.value] else [];
    }
  }
}
