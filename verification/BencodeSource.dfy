/**
 * The parser as Python runs it: indices may be negative, slices are clamped, and
 * nothing guarantees progress. A run has a number of steps to spend; where it
 * needs more, whatever the number, the source does not end.
 */
module BencodeSource {
  import opened Bencode
  import opened Common

  /** Where a slice bound falls. */
  function Clamp(n: nat, i: int): (r: nat)
    ensures r <= n
  {
    if i < 0 then Max(n + i, 0) else Min(i, n)
  }

  function Slice(data: seq<Byte>, a: int, b: int): seq<Byte> {
    var lo, hi := Clamp(|data|, a), Clamp(|data|, b);
    if lo <= hi then data[lo..hi] else []
  }

  /** `int` of a slice. */
  function IntOf(data: seq<Byte>, a: int, b: int): Option<int> {
    var lo, hi := Clamp(|data|, a), Clamp(|data|, b);
    if lo <= hi then ParseInt(data, lo, hi) else None
  }

  datatype Outcome = Returns(value: Parsed, next: int) | Raises(error: Error) | Unfinished

  function ExecNumber(data: seq<Byte>, index: int): Outcome {
    match Find(data, LETTER_E, Clamp(|data|, index))
    case None => Raises(NoDelimiter)
    case Some(end) =>
      match IntOf(data, index + 1, end)
      case None => Raises(BadInteger)
      case Some(n) => Returns(Number(n), end + 1)
  }

  function ExecString(data: seq<Byte>, index: int): Outcome {
    match Find(data, COLON, Clamp(|data|, index))
    case None => Raises(NoDelimiter)
    case Some(colon) => ExecBytes(data, colon + 1, IntOf(data, index, colon))
  }

  function ExecBytes(data: seq<Byte>, start: int, length: Option<int>): Outcome {
    match length
    case None => Raises(BadInteger)
    case Some(n) => Returns(Raw(Slice(data, start, start + n)), start + n)
  }

  function Exec(steps: nat, data: seq<Byte>, index: int): Outcome
    decreases steps, 1
  {
    if steps == 0 then Unfinished else ExecKind(steps, data, index, Slice(data, index, index + 1))
  }

  /** One byte, or none, decides what is read. */
  function ExecKind(steps: nat, data: seq<Byte>, index: int, kind: seq<Byte>): Outcome
    requires steps > 0
    decreases steps, 0
  {
    if kind == [LETTER_D] then ExecEntries(steps - 1, data, index + 1, map[])
    else if kind == [LETTER_L] then ExecItems(steps - 1, data, index + 1, [])
    else if kind == [LETTER_I] then ExecNumber(data, index)
    else ExecString(data, index)
  }

  /** One turn of a loop, as the source takes it. */
  datatype ExecTurn<T> = Halt(outcome: Outcome) | GoOn(next: int, out: T)

  function ExecEntry(steps: nat, data: seq<Byte>, index: int, out: map<Key, Parsed>): ExecTurn<map<Key, Parsed>>
    decreases steps, 2
  {
    if steps == 0 then Halt(Unfinished)
    else if Slice(data, index, index + 1) == [LETTER_E] then Halt(Returns(Mapping(out), index + 1))
    else
      var key := Exec(steps - 1, data, index);
      PutEntry(key, if key.Returns? then Exec(steps - 1, data, key.next) else Unfinished, out)
  }

  /** What a turn makes of its two reads; the second is not made where the first fails. */
  function PutEntry(key: Outcome, value: Outcome, out: map<Key, Parsed>): ExecTurn<map<Key, Parsed>> {
    if !key.Returns? then Halt(key)
    else if !value.Returns? then Halt(value)
    else if ToKey(key.value).None? then Halt(Raises(KeyError(key.value)))
    else GoOn(value.next, out[ToKey(key.value).value := value.value])
  }

  function ExecEntries(steps: nat, data: seq<Byte>, index: int, out: map<Key, Parsed>): Outcome
    decreases steps, 3
  {
    match ExecEntry(steps, data, index, out)
    case Halt(outcome) => outcome
    case GoOn(next, more) => if steps == 0 then Unfinished else ExecEntries(steps - 1, data, next, more)
  }

  function ExecItem(steps: nat, data: seq<Byte>, index: int, out: seq<Parsed>): ExecTurn<seq<Parsed>>
    decreases steps, 2
  {
    if steps == 0 then Halt(Unfinished)
    else if Slice(data, index, index + 1) == [LETTER_E] then Halt(Returns(Items(out), index + 1))
    else
      var item := Exec(steps - 1, data, index);
      if !item.Returns? then Halt(item) else GoOn(item.next, out + [item.value])
  }

  function ExecItems(steps: nat, data: seq<Byte>, index: int, out: seq<Parsed>): Outcome
    decreases steps, 3
  {
    match ExecItem(steps, data, index, out)
    case Halt(outcome) => outcome
    case GoOn(next, more) => if steps == 0 then Unfinished else ExecItems(steps - 1, data, next, more)
  }

  // ----- where the decoder ends, the source ends the same way -----

  function AsOutcome(r: Result): Outcome {
    match r
    case Ok(value, next) => Returns(value, next)
    case Err(e) => Raises(e)
  }

  lemma OneByte(data: seq<Byte>, index: nat)
    ensures Slice(data, index, index + 1) == if index < |data| then [data[index]] else []
  {
  }

  lemma BytesAgree(data: seq<Byte>, index: nat, start: nat, length: Option<int>)
    requires index < start <= |data| && ReadString(data, index, start, length) != Err(StepsBack)
    ensures ExecBytes(data, start, length) == AsOutcome(ReadString(data, index, start, length))
  {
    assert data[start..|data|] == data[start..];
  }

  lemma StringAgrees(data: seq<Byte>, index: nat)
    requires DecodeString(data, index) != Err(StepsBack)
    ensures ExecString(data, index) == AsOutcome(DecodeString(data, index))
  {
    if index >= |data| {
      assert Find(data, COLON, |data|) == None == Find(data, COLON, index);
    } else {
      match Find(data, COLON, index) {
        case None =>
        case Some(colon) => BytesAgree(data, index, colon + 1, IntOf(data, index, colon));
      }
    }
  }

  lemma NumberAgrees(data: seq<Byte>, index: nat)
    requires index < |data| && data[index] == LETTER_I
    ensures ExecNumber(data, index) == AsOutcome(DecodeNumber(data, index))
  {
    var end := Find(data, LETTER_E, index);
    if end.Some? {
      assert index < end.value;
    }
  }

  function AsTurn<T>(turn: Turn<T>): ExecTurn<T> {
    match turn
    case Stop(r) => Halt(AsOutcome(r))
    case Again(next, out) => GoOn(next, out)
  }

  /** With two steps for every byte left, and one more, the source finishes as the decoder does. */
  lemma {:induction false} Agrees(steps: nat, data: seq<Byte>, index: nat)
    requires DecodeAt(data, index) != Err(StepsBack) && steps > 2 * Left(data, index)
    ensures Exec(steps, data, index) == AsOutcome(DecodeAt(data, index))
    decreases steps, 0
  {
    OneByte(data, index);
    if index < |data| && data[index] == LETTER_D {
      EntriesAgree(steps - 1, data, index + 1, map[]);
    } else if index < |data| && data[index] == LETTER_L {
      ItemsAgree(steps - 1, data, index + 1, []);
    } else if index < |data| && data[index] == LETTER_I {
      NumberAgrees(data, index);
    } else {
      StringAgrees(data, index);
    }
  }

  /** One turn of the dictionary loop, given its two reads. */
  lemma EntryFrom(steps: nat, data: seq<Byte>, index: nat, out: map<Key, Parsed>, key: Result, value: Result)
    requires steps > 0 && !StopsAt(data, index) && DecodeAt(data, index) == key &&
        Exec(steps - 1, data, index) == AsOutcome(key)
    requires key.Ok? ==> DecodeAt(data, key.next) == value && Exec(steps - 1, data, key.next) == AsOutcome(value)
    ensures ExecEntry(steps, data, index, out) == AsTurn(EntryTurn(data, index, out))
  {
    OneByte(data, index);
  }

  lemma {:induction false} EntryAgrees(steps: nat, data: seq<Byte>, index: nat, out: map<Key, Parsed>)
    requires steps > 2 * Left(data, index) + 1
    ensures EntryTurn(data, index, out) == Stop(Err(StepsBack)) ||
        ExecEntry(steps, data, index, out) == AsTurn(EntryTurn(data, index, out))
    decreases steps, 1
  {
    if EntryTurn(data, index, out) == Stop(Err(StepsBack)) {
    } else if StopsAt(data, index) {
      OneByte(data, index);
    } else {
      var key := DecodeAt(data, index);
      var value := if key.Ok? then DecodeAt(data, key.next) else key;
      assert Exec(steps - 1, data, index) == AsOutcome(key) by {
        Agrees(steps - 1, data, index);
      }
      if key.Ok? {
        assert Exec(steps - 1, data, key.next) == AsOutcome(value) by {
          Agrees(steps - 1, data, key.next);
        }
      }
      EntryFrom(steps, data, index, out, key, value);
    }
  }

  /** One turn of both: they stop alike, or go on to the same place. */
  lemma EntriesMove(steps: nat, data: seq<Byte>, index: nat, out: map<Key, Parsed>)
    returns (turn: Turn<map<Key, Parsed>>)
    requires steps > 2 * Left(data, index) + 1 && DecodeEntries(data, index, out) != Err(StepsBack)
    ensures turn.Stop? ==> ExecEntries(steps, data, index, out) == AsOutcome(DecodeEntries(data, index, out))
    ensures turn.Again? ==>
              && index < turn.next && index < |data|
              && DecodeEntries(data, index, out) == DecodeEntries(data, turn.next, turn.out)
              && ExecEntries(steps, data, index, out) == ExecEntries(steps - 1, data, turn.next, turn.out)
    decreases steps, 2
  {
    turn := EntryTurn(data, index, out);
    EntryAgrees(steps, data, index, out);
  }

  lemma {:induction false} EntriesAgree(steps: nat, data: seq<Byte>, index: nat, out: map<Key, Parsed>)
    requires DecodeEntries(data, index, out) != Err(StepsBack) && steps > 2 * Left(data, index) + 1
    ensures ExecEntries(steps, data, index, out) == AsOutcome(DecodeEntries(data, index, out))
    decreases steps, 3
  {
    var turn := EntriesMove(steps, data, index, out);
    if turn.Again? {
      EntriesAgree(steps - 1, data, turn.next, turn.out);
    }
  }

  lemma {:induction false} ItemAgrees(steps: nat, data: seq<Byte>, index: nat, out: seq<Parsed>)
    requires steps > 2 * Left(data, index) + 1
    ensures ItemTurn(data, index, out) == Stop(Err(StepsBack)) ||
        ExecItem(steps, data, index, out) == AsTurn(ItemTurn(data, index, out))
    decreases steps, 1
  {
    OneByte(data, index);
    if !StopsAt(data, index) && DecodeAt(data, index) != Err(StepsBack) {
      Agrees(steps - 1, data, index);
    }
  }

  /** One turn of both: they stop alike, or go on to the same place. */
  lemma ItemsMove(steps: nat, data: seq<Byte>, index: nat, out: seq<Parsed>) returns (turn: Turn<seq<Parsed>>)
    requires steps > 2 * Left(data, index) + 1 && DecodeItems(data, index, out) != Err(StepsBack)
    ensures turn.Stop? ==> ExecItems(steps, data, index, out) == AsOutcome(DecodeItems(data, index, out))
    ensures turn.Again? ==>
              && index < turn.next && index < |data|
              && DecodeItems(data, index, out) == DecodeItems(data, turn.next, turn.out)
              && ExecItems(steps, data, index, out) == ExecItems(steps - 1, data, turn.next, turn.out)
    decreases steps, 2
  {
    turn := ItemTurn(data, index, out);
    ItemAgrees(steps, data, index, out);
  }

  lemma {:induction false} ItemsAgree(steps: nat, data: seq<Byte>, index: nat, out: seq<Parsed>)
    requires DecodeItems(data, index, out) != Err(StepsBack) && steps > 2 * Left(data, index) + 1
    ensures ExecItems(steps, data, index, out) == AsOutcome(DecodeItems(data, index, out))
    decreases steps, 3
  {
    var turn := ItemsMove(steps, data, index, out);
    if turn.Again? {
      ItemsAgree(steps - 1, data, turn.next, turn.out);
    }
  }

  /** The source raises nothing of the kind. */
  lemma {:induction false} NeverRaisesStepsBack(steps: nat, data: seq<Byte>, index: int)
    ensures Exec(steps, data, index) != Raises(StepsBack)
    decreases steps, 0
  {
    if steps > 0 {
      EntriesNeverRaise(steps - 1, data, index + 1, map[]);
      ItemsNeverRaise(steps - 1, data, index + 1, []);
    }
  }

  lemma {:induction false} EntryNeverRaises(steps: nat, data: seq<Byte>, index: int, out: map<Key, Parsed>)
    ensures ExecEntry(steps, data, index, out) != Halt(Raises(StepsBack))
    decreases steps, 1
  {
    if steps > 0 {
      var key := Exec(steps - 1, data, index);
      assert key != Raises(StepsBack) by {
        NeverRaisesStepsBack(steps - 1, data, index);
      }
      if key.Returns? {
        assert Exec(steps - 1, data, key.next) != Raises(StepsBack) by {
          NeverRaisesStepsBack(steps - 1, data, key.next);
        }
      }
    }
  }

  lemma {:induction false} EntriesNeverRaise(steps: nat, data: seq<Byte>, index: int, out: map<Key, Parsed>)
    ensures ExecEntries(steps, data, index, out) != Raises(StepsBack)
    decreases steps, 2
  {
    EntryNeverRaises(steps, data, index, out);
    var turn := ExecEntry(steps, data, index, out);
    if turn.GoOn? && steps > 0 {
      EntriesNeverRaise(steps - 1, data, turn.next, turn.out);
    }
  }

  lemma {:induction false} ItemNeverRaises(steps: nat, data: seq<Byte>, index: int, out: seq<Parsed>)
    ensures ExecItem(steps, data, index, out) != Halt(Raises(StepsBack))
    decreases steps, 1
  {
    if steps > 0 {
      NeverRaisesStepsBack(steps - 1, data, index);
    }
  }

  lemma {:induction false} ItemsNeverRaise(steps: nat, data: seq<Byte>, index: int, out: seq<Parsed>)
    ensures ExecItems(steps, data, index, out) != Raises(StepsBack)
    decreases steps, 2
  {
    ItemNeverRaises(steps, data, index, out);
    var turn := ExecItem(steps, data, index, out);
    if turn.GoOn? && steps > 0 {
      ItemsNeverRaise(steps - 1, data, turn.next, turn.out);
    }
  }

  ghost predicate Finishes(data: seq<Byte>, index: int, outcome: Outcome) {
    exists steps :: Exec(steps, data, index) == outcome
  }

  /** On any bytes, from any index, the source finishes with the decoder's result exactly when the decoder
      meets no length that steps back. */
  lemma SourceAgreesIff(data: seq<Byte>, index: nat)
    ensures Finishes(data, index, AsOutcome(DecodeAt(data, index))) <==> DecodeAt(data, index) != Err(StepsBack)
  {
    if DecodeAt(data, index) != Err(StepsBack) {
      Agrees(2 * Left(data, index) + 1, data, index);
    } else if Finishes(data, index, Raises(StepsBack)) {
      var steps :| Exec(steps, data, index) == Raises(StepsBack);
      NeverRaisesStepsBack(steps, data, index);
    }
  }

  // ----- when a length steps back -----

  /** A string leads on exactly when its length is more than minus what was read of it. */
  lemma StringStepsBackIff(data: seq<Byte>, index: nat, colon: nat, n: int)
    requires Find(data, COLON, index) == Some(colon) && ParseInt(data, index, colon) == Some(n)
    ensures ExecString(data, index).Returns? && ExecString(data, index).next == colon + 1 + n
    ensures DecodeString(data, index) == Err(StepsBack) <==> n <= index - (colon + 1)
  {
  }

  predicate NoMinusFrom(data: seq<Byte>, index: nat) {
    forall i :: index <= i < |data| ==> data[i] != MINUS
  }

  lemma {:induction false} NoMinusNoStepBack(data: seq<Byte>, index: nat)
    requires NoMinusFrom(data, index)
    ensures DecodeAt(data, index) != Err(StepsBack)
    decreases Left(data, index), 1
  {
    if index < |data| && data[index] == LETTER_D {
      NoMinusInEntries(data, index + 1, map[]);
    } else if index < |data| && data[index] == LETTER_L {
      NoMinusInItems(data, index + 1, []);
    }
  }

  lemma {:induction false} NoMinusInEntry(data: seq<Byte>, index: nat, out: map<Key, Parsed>)
    requires NoMinusFrom(data, index)
    ensures EntryTurn(data, index, out) != Stop(Err(StepsBack))
    decreases Left(data, index), 2
  {
    if !StopsAt(data, index) {
      var key := DecodeAt(data, index);
      assert key != Err(StepsBack) by {
        NoMinusNoStepBack(data, index);
      }
      if key.Ok? {
        assert DecodeAt(data, key.next) != Err(StepsBack) by {
          NoMinusNoStepBack(data, key.next);
        }
      }
    }
  }

  lemma {:induction false} NoMinusInEntries(data: seq<Byte>, index: nat, out: map<Key, Parsed>)
    requires NoMinusFrom(data, index)
    ensures DecodeEntries(data, index, out) != Err(StepsBack)
    decreases Left(data, index), 3
  {
    NoMinusInEntry(data, index, out);
    var turn := EntryTurn(data, index, out);
    if turn.Again? {
      NoMinusInEntries(data, turn.next, turn.out);
    }
  }

  lemma {:induction false} NoMinusInItems(data: seq<Byte>, index: nat, out: seq<Parsed>)
    requires NoMinusFrom(data, index)
    ensures DecodeItems(data, index, out) != Err(StepsBack)
    decreases Left(data, index), 3
  {
    var turn := ItemTurn(data, index, out);
    if !StopsAt(data, index) {
      NoMinusNoStepBack(data, index);
      if turn.Again? {
        NoMinusInItems(data, turn.next, turn.out);
      }
    }
  }

  // ----- the loop that never ends -----

  /** A string at `index` whose length leads back to `index`. */
  predicate ReadsItself(data: seq<Byte>, index: nat) {
    && index < |data| && data[index] !in {LETTER_D, LETTER_L, LETTER_I, LETTER_E}
    && var colon := Find(data, COLON, index);
    && colon.Some? && ParseInt(data, index, colon.value) == Some(index - (colon.value + 1))
  }

  lemma ReadsItselfReturns(steps: nat, data: seq<Byte>, index: nat)
    requires ReadsItself(data, index) && steps > 0
    ensures Exec(steps, data, index) == Returns(Raw([]), index)
  {
    OneByte(data, index);
  }

  /** A list that comes to such a string goes round for ever, whatever it has read before. */
  lemma {:induction false} ListNeverEnds(steps: nat, data: seq<Byte>, index: nat, out: seq<Parsed>)
    requires ReadsItself(data, index)
    ensures ExecItems(steps, data, index, out) == Unfinished
  {
    if steps > 0 {
      OneByte(data, index);
      assert Exec(0, data, index) == Unfinished;
      if steps > 1 {
        ReadsItselfReturns(steps - 1, data, index);
        assert ExecItem(steps, data, index, out) == GoOn(index, out + [Raw([])]);
        ListNeverEnds(steps - 1, data, index, out + [Raw([])]);
      }
    }
  }

  /** So does a dictionary. */
  lemma {:induction false} DictionaryNeverEnds(steps: nat, data: seq<Byte>, index: nat, out: map<Key, Parsed>)
    requires ReadsItself(data, index)
    ensures ExecEntries(steps, data, index, out) == Unfinished
  {
    if steps > 0 {
      OneByte(data, index);
      assert Exec(0, data, index) == Unfinished;
      if steps > 1 {
        ReadsItselfReturns(steps - 1, data, index);
        assert ExecEntry(steps, data, index, out) == GoOn(index, out[TextKey("") := Raw([])]);
        DictionaryNeverEnds(steps - 1, data, index, out[TextKey("") := Raw([])]);
      }
    }
  }

  /** The bytes `l-3:`. */
  const ENDLESS: seq<Byte> := [LETTER_L, MINUS, 51, COLON]

  /** The source does not end on `l-3:`. */
  lemma EndlessList(steps: nat)
    ensures Exec(steps, ENDLESS, 0) == Unfinished
  {
    if steps > 0 {
      OneByte(ENDLESS, 0);
      assert Find(ENDLESS, COLON, 1) == Some(3) by {
        assert Find(ENDLESS, COLON, 2) == Some(3);
      }
      assert ParseInt(ENDLESS, 1, 3) == Some(-3) by {
        assert SkipSpaces(ENDLESS, 1, 3) == 1 && TrimSpaces(ENDLESS, 1, 3) == 3;
        assert ParseDigits(ENDLESS, 2, 3) == Some(3);
      }
      ListNeverEnds(steps - 1, ENDLESS, 1, []);
    }
  }
}
