/**
 * When the parser ends. It is a loop over indices that may go back, so nothing
 * says it does; but what it does at an index depends on the index alone, and
 * there are only so many that read differently.
 */
module BencodeEnding {
  import opened Bencode
  import opened BencodeSource
  import opened Common

  // ----- indices that read alike -----

  /** Every index before the data reads like the last of them, and every index behind it like the first. */
  function Kept(data: seq<Byte>, index: int): int {
    Max(-|data| - 1, Min(index, |data|))
  }

  predicate InRange(data: seq<Byte>, index: int) {
    -|data| - 1 <= index <= |data|
  }

  lemma NothingThere(data: seq<Byte>, index: int)
    requires index < -|data| || index >= |data|
    ensures Slice(data, index, index + 1) == []
  {
  }

  lemma ReadsAlike(steps: nat, data: seq<Byte>, index: int)
    ensures Exec(steps, data, index) == Exec(steps, data, Kept(data, index))
  {
    if index != Kept(data, index) {
      NothingThere(data, index);
      NothingThere(data, Kept(data, index));
      assert Clamp(|data|, index) == Clamp(|data|, Kept(data, index));
    }
  }

  lemma ItemsReadAlike(steps: nat, data: seq<Byte>, index: int, out: seq<Parsed>)
    ensures ExecItems(steps, data, index, out) == ExecItems(steps, data, Kept(data, index), out)
  {
    if index != Kept(data, index) {
      NothingThere(data, index);
      NothingThere(data, Kept(data, index));
      if steps > 0 {
        ReadsAlike(steps - 1, data, index);
      }
      assert ExecItem(steps, data, index, out) == ExecItem(steps, data, Kept(data, index), out);
    }
  }

  lemma EntriesReadAlike(steps: nat, data: seq<Byte>, index: int, out: map<Key, Parsed>)
    ensures ExecEntries(steps, data, index, out) == ExecEntries(steps, data, Kept(data, index), out)
  {
    if index != Kept(data, index) {
      NothingThere(data, index);
      NothingThere(data, Kept(data, index));
      if steps > 0 {
        ReadsAlike(steps - 1, data, index);
      }
      assert ExecEntry(steps, data, index, out) == ExecEntry(steps, data, Kept(data, index), out);
    }
  }

  // ----- more steps change nothing that is finished -----

  lemma {:induction false} OneStepMore(steps: nat, data: seq<Byte>, index: int)
    requires Exec(steps, data, index) != Unfinished
    ensures Exec(steps + 1, data, index) == Exec(steps, data, index)
    decreases steps, 0
  {
    var kind := Slice(data, index, index + 1);
    if kind == [LETTER_D] {
      EntriesOneStepMore(steps - 1, data, index + 1, map[]);
    } else if kind == [LETTER_L] {
      ItemsOneStepMore(steps - 1, data, index + 1, []);
    }
  }

  lemma {:induction false} ItemOneStepMore(steps: nat, data: seq<Byte>, index: int, out: seq<Parsed>)
    requires ExecItem(steps, data, index, out) != Halt(Unfinished)
    ensures ExecItem(steps + 1, data, index, out) == ExecItem(steps, data, index, out)
    decreases steps, 1
  {
    if Slice(data, index, index + 1) != [LETTER_E] {
      OneStepMore(steps - 1, data, index);
    }
  }

  lemma {:induction false} ItemsOneStepMore(steps: nat, data: seq<Byte>, index: int, out: seq<Parsed>)
    requires ExecItems(steps, data, index, out) != Unfinished
    ensures ExecItems(steps + 1, data, index, out) == ExecItems(steps, data, index, out)
    decreases steps, 2
  {
    ItemOneStepMore(steps, data, index, out);
    var turn := ExecItem(steps, data, index, out);
    if turn.GoOn? {
      ItemsOneStepMore(steps - 1, data, turn.next, turn.out);
    }
  }

  lemma {:induction false} EntryOneStepMore(steps: nat, data: seq<Byte>, index: int, out: map<Key, Parsed>)
    requires ExecEntry(steps, data, index, out) != Halt(Unfinished)
    ensures ExecEntry(steps + 1, data, index, out) == ExecEntry(steps, data, index, out)
    decreases steps, 1
  {
    if Slice(data, index, index + 1) != [LETTER_E] {
      var key := Exec(steps - 1, data, index);
      assert Exec(steps, data, index) == key by {
        OneStepMore(steps - 1, data, index);
      }
      if key.Returns? {
        assert Exec(steps, data, key.next) == Exec(steps - 1, data, key.next) by {
          OneStepMore(steps - 1, data, key.next);
        }
      }
    }
  }

  lemma {:induction false} EntriesOneStepMore(steps: nat, data: seq<Byte>, index: int, out: map<Key, Parsed>)
    requires ExecEntries(steps, data, index, out) != Unfinished
    ensures ExecEntries(steps + 1, data, index, out) == ExecEntries(steps, data, index, out)
    decreases steps, 2
  {
    EntryOneStepMore(steps, data, index, out);
    var turn := ExecEntry(steps, data, index, out);
    if turn.GoOn? {
      EntriesOneStepMore(steps - 1, data, turn.next, turn.out);
    }
  }

  /** The outcome, once there is one, is the same for every larger number of steps. */
  lemma {:induction false} MoreSteps(steps: nat, more: nat, data: seq<Byte>, index: int)
    requires steps <= more && Exec(steps, data, index) != Unfinished
    ensures Exec(more, data, index) == Exec(steps, data, index)
    decreases more
  {
    if steps < more {
      MoreSteps(steps, more - 1, data, index);
      OneStepMore(more - 1, data, index);
    }
  }

  // ----- what was read before does not matter -----

  lemma {:induction false} ItemsAnyOut(steps: nat, data: seq<Byte>, index: int, a: seq<Parsed>, b: seq<Parsed>)
    ensures ExecItems(steps, data, index, a) == Unfinished <==> ExecItems(steps, data, index, b) == Unfinished
  {
    var s, t := ExecItem(steps, data, index, a), ExecItem(steps, data, index, b);
    if s.GoOn? {
      ItemsAnyOut(steps - 1, data, s.next, s.out, t.out);
    }
  }

  lemma {:induction false} EntriesAnyOut(
      steps: nat, data: seq<Byte>, index: int, a: map<Key, Parsed>, b: map<Key, Parsed>)
    ensures ExecEntries(steps, data, index, a) == Unfinished <==> ExecEntries(steps, data, index, b) == Unfinished
  {
    var s, t := ExecEntry(steps, data, index, a), ExecEntry(steps, data, index, b);
    if s.GoOn? {
      EntriesAnyOut(steps - 1, data, s.next, s.out, t.out);
    }
  }

  // ----- what ends by when -----

  /** A read at `index` ends within so many steps. */
  predicate Ends(steps: nat, data: seq<Byte>, index: int) {
    Exec(steps, data, index) != Unfinished
  }

  predicate ItemsEnd(steps: nat, data: seq<Byte>, index: int) {
    ExecItems(steps, data, index, []) != Unfinished
  }

  predicate EntriesEnd(steps: nat, data: seq<Byte>, index: int) {
    ExecEntries(steps, data, index, map[]) != Unfinished
  }

  /** At this index one more step ends nothing new. */
  predicate SettledAt(steps: nat, data: seq<Byte>, index: int) {
    && (Ends(steps + 1, data, index) ==> Ends(steps, data, index))
    && (ItemsEnd(steps + 1, data, index) ==> ItemsEnd(steps, data, index))
    && (EntriesEnd(steps + 1, data, index) ==> EntriesEnd(steps, data, index))
  }

  ghost predicate Settled(steps: nat, data: seq<Byte>) {
    forall index :: InRange(data, index) ==> SettledAt(steps, data, index)
  }

  /** Once settled, settled everywhere, not only where indices are kept. */
  lemma SettledReads(steps: nat, data: seq<Byte>, index: int)
    requires Settled(steps, data) && Ends(steps + 1, data, index)
    ensures Exec(steps, data, index) == Exec(steps + 1, data, index) != Unfinished
  {
    ReadsAlike(steps, data, index);
    ReadsAlike(steps + 1, data, index);
    assert SettledAt(steps, data, Kept(data, index));
    OneStepMore(steps, data, index);
  }

  lemma SettledItems(steps: nat, data: seq<Byte>, index: int, out: seq<Parsed>)
    requires Settled(steps, data) && ExecItems(steps + 1, data, index, out) != Unfinished
    ensures ExecItems(steps, data, index, out) != Unfinished
  {
    var kept := Kept(data, index);
    ItemsReadAlike(steps, data, index, []);
    ItemsReadAlike(steps + 1, data, index, []);
    ItemsAnyOut(steps, data, index, out, []);
    ItemsAnyOut(steps + 1, data, index, out, []);
    assert SettledAt(steps, data, kept);
    assert ItemsEnd(steps + 1, data, kept) && ItemsEnd(steps, data, kept);
  }

  lemma SettledEntries(steps: nat, data: seq<Byte>, index: int, out: map<Key, Parsed>)
    requires Settled(steps, data) && ExecEntries(steps + 1, data, index, out) != Unfinished
    ensures ExecEntries(steps, data, index, out) != Unfinished
  {
    var kept := Kept(data, index);
    EntriesReadAlike(steps, data, index, map[]);
    EntriesReadAlike(steps + 1, data, index, map[]);
    EntriesAnyOut(steps, data, index, out, map[]);
    EntriesAnyOut(steps + 1, data, index, out, map[]);
    assert SettledAt(steps, data, kept);
    assert EntriesEnd(steps + 1, data, kept) && EntriesEnd(steps, data, kept);
  }

  // ----- settled once is settled for good -----

  lemma ReadStaysSettled(steps: nat, data: seq<Byte>, index: int)
    requires Settled(steps, data) && Ends(steps + 2, data, index)
    ensures Ends(steps + 1, data, index)
  {
    var kind := Slice(data, index, index + 1);
    assert Exec(steps + 2, data, index) == ExecKind(steps + 2, data, index, kind);
    assert Exec(steps + 1, data, index) == ExecKind(steps + 1, data, index, kind);
    if kind == [LETTER_D] {
      SettledEntries(steps, data, index + 1, map[]);
    } else if kind == [LETTER_L] {
      SettledItems(steps, data, index + 1, []);
    }
  }

  /** A turn whose read has settled is the same turn. */
  lemma ItemStaysSettled(steps: nat, data: seq<Byte>, index: int, out: seq<Parsed>)
    requires Settled(steps, data) && ExecItem(steps + 2, data, index, out) != Halt(Unfinished)
    ensures ExecItem(steps + 1, data, index, out) == ExecItem(steps + 2, data, index, out)
  {
    if Slice(data, index, index + 1) != [LETTER_E] {
      SettledReads(steps, data, index);
    }
  }

  lemma ItemsStaySettled(steps: nat, data: seq<Byte>, index: int)
    requires Settled(steps, data) && ItemsEnd(steps + 2, data, index)
    ensures ItemsEnd(steps + 1, data, index)
  {
    ItemStaysSettled(steps, data, index, []);
    var turn := ExecItem(steps + 2, data, index, []);
    if turn.GoOn? {
      SettledItems(steps, data, turn.next, turn.out);
    }
  }

  lemma EntryStaysSettled(steps: nat, data: seq<Byte>, index: int, out: map<Key, Parsed>)
    requires Settled(steps, data) && ExecEntry(steps + 2, data, index, out) != Halt(Unfinished)
    ensures ExecEntry(steps + 1, data, index, out) == ExecEntry(steps + 2, data, index, out)
  {
    if Slice(data, index, index + 1) != [LETTER_E] {
      var key := Exec(steps + 1, data, index);
      assert Exec(steps, data, index) == key by {
        SettledReads(steps, data, index);
      }
      if key.Returns? {
        assert Exec(steps, data, key.next) == Exec(steps + 1, data, key.next) by {
          SettledReads(steps, data, key.next);
        }
      }
    }
  }

  lemma EntriesStaySettled(steps: nat, data: seq<Byte>, index: int)
    requires Settled(steps, data) && EntriesEnd(steps + 2, data, index)
    ensures EntriesEnd(steps + 1, data, index)
  {
    EntryStaysSettled(steps, data, index, map[]);
    var turn := ExecEntry(steps + 2, data, index, map[]);
    if turn.GoOn? {
      SettledEntries(steps, data, turn.next, turn.out);
    }
  }

  lemma StaysSettled(steps: nat, data: seq<Byte>)
    requires Settled(steps, data)
    ensures Settled(steps + 1, data)
  {
    forall index | InRange(data, index) ensures SettledAt(steps + 1, data, index) {
      if Ends(steps + 2, data, index) {
        ReadStaysSettled(steps, data, index);
      }
      if ItemsEnd(steps + 2, data, index) {
        ItemsStaySettled(steps, data, index);
      }
      if EntriesEnd(steps + 2, data, index) {
        EntriesStaySettled(steps, data, index);
      }
    }
  }

  lemma {:induction false} SettledForGood(steps: nat, more: nat, data: seq<Byte>, index: int)
    requires Settled(steps, data) && steps <= more && Ends(more, data, index)
    ensures Ends(steps, data, index)
    decreases more - steps
  {
    if steps < more {
      StaysSettled(steps, data);
      SettledForGood(steps + 1, more, data, index);
      SettledReads(steps, data, index);
    }
  }

  // ----- it settles before long -----

  /** How many of the three kinds of reading at an index end. */
  function Score(steps: nat, data: seq<Byte>, index: int): nat {
    (if Ends(steps, data, index) then 1 else 0)
    + (if ItemsEnd(steps, data, index) then 1 else 0)
    + (if EntriesEnd(steps, data, index) then 1 else 0)
  }

  /** The same over the first `n` indices that are kept apart. */
  function Total(steps: nat, data: seq<Byte>, n: nat): nat {
    if n == 0 then 0 else Total(steps, data, n - 1) + Score(steps, data, n - 2 - |data|)
  }

  lemma ScoreGrows(steps: nat, data: seq<Byte>, index: int)
    ensures Score(steps, data, index) <= Score(steps + 1, data, index) <= 3
    ensures Score(steps, data, index) == Score(steps + 1, data, index) ==> SettledAt(steps, data, index)
  {
    if Ends(steps, data, index) {
      OneStepMore(steps, data, index);
    }
    if ItemsEnd(steps, data, index) {
      ItemsOneStepMore(steps, data, index, []);
    }
    if EntriesEnd(steps, data, index) {
      EntriesOneStepMore(steps, data, index, map[]);
    }
  }

  lemma {:induction false} TotalGrows(steps: nat, data: seq<Byte>, n: nat)
    ensures Total(steps, data, n) <= Total(steps + 1, data, n) <= 3 * n
    ensures Total(steps, data, n) == Total(steps + 1, data, n) ==>
              forall index :: -|data| - 1 <= index < n - 1 - |data| ==> SettledAt(steps, data, index)
  {
    if n > 0 {
      TotalGrows(steps, data, n - 1);
      ScoreGrows(steps, data, n - 2 - |data|);
    }
  }

  /** Six steps for every byte, and six more. */
  function Bound(data: seq<Byte>): nat {
    6 * |data| + 6
  }

  /** Until it settles, every step ends something new, and there is only so much to end. */
  lemma {:induction false} Climb(data: seq<Byte>, steps: nat) returns (settled: Option<nat>)
    ensures settled.Some? ==> settled.value < steps && Settled(settled.value, data)
    ensures settled.None? ==> Total(steps, data, 2 * |data| + 2) >= steps
  {
    settled := None;
    if steps > 0 {
      settled := Climb(data, steps - 1);
      if settled.None? {
        var n := 2 * |data| + 2;
        TotalGrows(steps - 1, data, n);
        if Total(steps - 1, data, n) == Total(steps, data, n) {
          assert Settled(steps - 1, data);
          settled := Some(steps - 1);
        }
      }
    }
  }

  /** If the source ends on some bytes from some index at all, it ends within six steps for every byte and six
      more, with the same outcome. */
  lemma EndsWithinBound(steps: nat, data: seq<Byte>, index: int)
    requires Ends(steps, data, index)
    ensures Exec(Bound(data), data, index) == Exec(steps, data, index)
  {
    if steps <= Bound(data) {
      MoreSteps(steps, Bound(data), data, index);
    } else {
      var settled := Climb(data, Bound(data) + 1);
      TotalGrows(Bound(data), data, 2 * |data| + 2);
      SettledForGood(settled.value, steps, data, index);
      MoreSteps(settled.value, steps, data, index);
      MoreSteps(settled.value, Bound(data), data, index);
    }
  }

  /** So it ends exactly when it ends within the bound. */
  lemma EndsIff(data: seq<Byte>, index: int)
    ensures (exists steps :: Ends(steps, data, index)) <==> Ends(Bound(data), data, index)
  {
    if steps :| Ends(steps, data, index) {
      EndsWithinBound(steps, data, index);
    }
  }

  // ----- loops that come back -----

  /** Where the next turn of a list loop at `index` leads, if there is one. */
  function ListNext(data: seq<Byte>, index: int): Option<int> {
    match ExecItem(Bound(data) + 1, data, index, [])
    case Halt(_) => None
    case GoOn(next, _) => Some(next)
  }

  /** Where it is after so many turns, if it takes them. */
  function ListPosition(data: seq<Byte>, index: int, turns: nat): Option<int>
    decreases turns
  {
    if turns == 0 then Some(index)
    else
      match ListNext(data, index)
      case None => None
      case Some(next) => ListPosition(data, next, turns - 1)
  }

  /** A turn that ends is the turn the position counts on. */
  lemma ListTurn(steps: nat, data: seq<Byte>, index: int)
    requires ExecItem(steps, data, index, []) != Halt(Unfinished)
    ensures ExecItem(steps, data, index, []) == ExecItem(Bound(data) + 1, data, index, [])
  {
    if Slice(data, index, index + 1) != [LETTER_E] {
      EndsWithinBound(steps - 1, data, index);
    }
  }

  lemma ListMoves(steps: nat, data: seq<Byte>, index: int)
    requires ItemsEnd(steps, data, index) && ListNext(data, index).Some?
    ensures steps > 0 && ItemsEnd(steps - 1, data, ListNext(data, index).value)
  {
    ListTurn(steps, data, index);
    var turn := ExecItem(steps, data, index, []);
    ItemsAnyOut(steps - 1, data, turn.next, turn.out, []);
  }

  lemma {:induction false} ListFollows(steps: nat, data: seq<Byte>, index: int, turns: nat)
    requires ItemsEnd(steps, data, index) && ListPosition(data, index, turns).Some?
    ensures steps >= turns && ItemsEnd(steps - turns, data, ListPosition(data, index, turns).value)
    decreases turns
  {
    if turns > 0 {
      ListMoves(steps, data, index);
      ListFollows(steps - 1, data, ListNext(data, index).value, turns - 1);
    }
  }

  lemma {:induction false} ListGoesRound(steps: nat, data: seq<Byte>, index: int, turns: nat)
    requires turns > 0 && ListPosition(data, index, turns) == Some(index)
    ensures !ItemsEnd(steps, data, index)
  {
    if ItemsEnd(steps, data, index) {
      ListFollows(steps, data, index, turns);
      ListGoesRound(steps - turns, data, index, turns);
    }
  }

  /** A list loop that comes to a position it has been at before never ends, whatever it had read. */
  lemma ListComingBackNeverEnds(steps: nat, data: seq<Byte>, index: int, first: nat, again: nat, out: seq<Parsed>)
    requires first < again && ListPosition(data, index, first).Some?
    requires ListPosition(data, ListPosition(data, index, first).value, again - first)
      == ListPosition(data, index, first)
    ensures ExecItems(steps, data, index, out) == Unfinished
  {
    ItemsAnyOut(steps, data, index, out, []);
    if ItemsEnd(steps, data, index) {
      ListFollows(steps, data, index, first);
      ListGoesRound(steps - first, data, ListPosition(data, index, first).value, again - first);
    }
  }

  /** Where the next turn of a dictionary loop at `index` leads, if there is one. */
  function DictionaryNext(data: seq<Byte>, index: int): Option<int> {
    match ExecEntry(Bound(data) + 1, data, index, map[])
    case Halt(_) => None
    case GoOn(next, _) => Some(next)
  }

  /** Where it is after so many turns, if it takes them. */
  function DictionaryPosition(data: seq<Byte>, index: int, turns: nat): Option<int>
    decreases turns
  {
    if turns == 0 then Some(index)
    else
      match DictionaryNext(data, index)
      case None => None
      case Some(next) => DictionaryPosition(data, next, turns - 1)
  }

  lemma DictionaryTurn(steps: nat, data: seq<Byte>, index: int)
    requires ExecEntry(steps, data, index, map[]) != Halt(Unfinished)
    ensures ExecEntry(steps, data, index, map[]) == ExecEntry(Bound(data) + 1, data, index, map[])
  {
    if Slice(data, index, index + 1) != [LETTER_E] {
      var key := Exec(steps - 1, data, index);
      assert Exec(Bound(data), data, index) == key by {
        EndsWithinBound(steps - 1, data, index);
      }
      if key.Returns? {
        assert Exec(Bound(data), data, key.next) == Exec(steps - 1, data, key.next) by {
          EndsWithinBound(steps - 1, data, key.next);
        }
      }
    }
  }

  lemma DictionaryMoves(steps: nat, data: seq<Byte>, index: int)
    requires EntriesEnd(steps, data, index) && DictionaryNext(data, index).Some?
    ensures steps > 0 && EntriesEnd(steps - 1, data, DictionaryNext(data, index).value)
  {
    DictionaryTurn(steps, data, index);
    var turn := ExecEntry(steps, data, index, map[]);
    EntriesAnyOut(steps - 1, data, turn.next, turn.out, map[]);
  }

  lemma {:induction false} DictionaryFollows(steps: nat, data: seq<Byte>, index: int, turns: nat)
    requires EntriesEnd(steps, data, index) && DictionaryPosition(data, index, turns).Some?
    ensures steps >= turns && EntriesEnd(steps - turns, data, DictionaryPosition(data, index, turns).value)
    decreases turns
  {
    if turns > 0 {
      DictionaryMoves(steps, data, index);
      DictionaryFollows(steps - 1, data, DictionaryNext(data, index).value, turns - 1);
    }
  }

  lemma {:induction false} DictionaryGoesRound(steps: nat, data: seq<Byte>, index: int, turns: nat)
    requires turns > 0 && DictionaryPosition(data, index, turns) == Some(index)
    ensures !EntriesEnd(steps, data, index)
  {
    if EntriesEnd(steps, data, index) {
      DictionaryFollows(steps, data, index, turns);
      DictionaryGoesRound(steps - turns, data, index, turns);
    }
  }

  /** A dictionary loop that comes to a position it has been at before never ends, whatever it had read. */
  lemma DictionaryComingBackNeverEnds(
      steps: nat, data: seq<Byte>, index: int, first: nat, again: nat, out: map<Key, Parsed>)
    requires first < again && DictionaryPosition(data, index, first).Some?
    requires DictionaryPosition(data, DictionaryPosition(data, index, first).value, again - first)
      == DictionaryPosition(data, index, first)
    ensures ExecEntries(steps, data, index, out) == Unfinished
  {
    EntriesAnyOut(steps, data, index, out, map[]);
    if EntriesEnd(steps, data, index) {
      DictionaryFollows(steps, data, index, first);
      DictionaryGoesRound(steps - first, data, DictionaryPosition(data, index, first).value, again - first);
    }
  }

  /** The bytes `-3:`. */
  const BACKWARD: seq<Byte> := [MINUS, 51, COLON]

  /** A step back is not the end by itself: alone, the source returns from it, with an index no further on. */
  lemma StepBackCanReturn()
    ensures DecodeAt(BACKWARD, 0) == Err(StepsBack) && Exec(1, BACKWARD, 0) == Returns(Raw([]), 0)
  {
    OneByte(BACKWARD, 0);
    assert Find(BACKWARD, COLON, 0) == Some(2) by {
      assert Find(BACKWARD, COLON, 1) == Some(2);
    }
    assert ParseInt(BACKWARD, 0, 2) == Some(-3) by {
      assert SkipSpaces(BACKWARD, 0, 2) == 0 && TrimSpaces(BACKWARD, 0, 2) == 2;
      assert ParseDigits(BACKWARD, 1, 2) == Some(3);
    }
  }

  /** Indices below zero count from the end: a string or a number is read there as it is further up. */
  lemma ReadsFromTheEnd(steps: nat, data: seq<Byte>, index: int)
    requires steps > 0 && -|data| <= index <= -2
    requires data[|data| + index] != LETTER_D && data[|data| + index] != LETTER_L
    ensures Exec(steps, data, index) == Exec(steps, data, |data| + index)
  {
    OneByte(data, |data| + index);
    assert Slice(data, index, index + 1) == [data[|data| + index]];
  }

  /** But the slice of the last byte, from minus one to zero, is empty, and a read there always fails. */
  lemma NothingAtMinusOne(steps: nat, data: seq<Byte>)
    requires steps > 0
    ensures Exec(steps, data, -1) ==
            Raises(if data != [] && data[|data| - 1] == COLON then BadInteger else NoDelimiter)
  {
    if data != [] {
      assert Find(data, COLON, |data| - 1) ==
             if data[|data| - 1] == COLON then Some(|data| - 1) else Find(data, COLON, |data|);
    }
  }
}
