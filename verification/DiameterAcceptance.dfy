/**
 * Which bytes the Diameter parser takes and which it refuses, told from the
 * positions of the attributes alone: where each one starts, whether it is
 * framed there, and the first one, in reading order, that is not.
 */
module DiameterAcceptance {
  import opened Common
  import opened WireBytes
  import opened Diameter
  import opened DiameterMessages

  // ----- positions -----

  /** Where attribute `n` starts: the first at the beginning, every other behind the padding of the one before.
      Behind the last one there is none, and the position stays. */
  function Start(data: seq<Byte>, n: nat): nat {
    if n == 0 then 0
    else
      var before := Start(data, n - 1);
      if before + 8 <= |data| then before + Padded(Read24(data, before + 5)) else before
  }

  /** There is room for the header of an attribute `n`. */
  predicate Has(data: seq<Byte>, n: nat) {
    Start(data, n) + 8 <= |data|
  }

  lemma {:induction false} NoneBehindTheLast(data: seq<Byte>, n: nat, k: nat)
    requires !Has(data, n) && n <= k
    ensures !Has(data, k)
    decreases k
  {
    if n < k {
      NoneBehindTheLast(data, n, k - 1);
    }
  }

  predicate InDictionary(groups: Groups, data: seq<Byte>, pos: nat)
    requires Framed(data, pos)
  {
    (Read32(data, pos), VendorAt(data, pos)) in groups
  }

  // ----- acceptance -----

  /** The bytes are tiled by attributes: each is framed where it starts, and so, if the dictionary calls it a group,
      are the ones inside it. Fewer than eight bytes may be left over. */
  ghost predicate Tiled(groups: Groups, data: seq<Byte>)
    decreases |data|, 1
  {
    forall n: nat :: Has(data, n) ==> Sits(groups, data, Start(data, n))
  }

  ghost predicate Sits(groups: Groups, data: seq<Byte>, pos: nat)
    decreases |data|, 0
  {
    Framed(data, pos) && (InDictionary(groups, data, pos) ==> Tiled(groups, SliceAt(data, pos)))
  }

  ghost predicate TiledFrom(groups: Groups, data: seq<Byte>, n: nat) {
    forall k: nat :: n <= k && Has(data, k) ==> Sits(groups, data, Start(data, k))
  }

  lemma {:induction false} StepAccepts(groups: Groups, data: seq<Byte>, pos: nat)
    requires pos + 8 <= |data|
    ensures StepAt(groups, data, pos).Ok? <==> Sits(groups, data, pos)
    decreases |data|, 0
  {
    if Framed(data, pos) && InDictionary(groups, data, pos) {
      AcceptsFrom(groups, SliceAt(data, pos), 0);
    }
  }

  lemma {:induction false} AcceptsFrom(groups: Groups, data: seq<Byte>, n: nat)
    ensures ParseAt(groups, data, Start(data, n)).Ok? <==> TiledFrom(groups, data, n)
    ensures n == 0 ==> (TiledFrom(groups, data, n) <==> Tiled(groups, data))
    decreases |data|, 1, Max(0, |data| - Start(data, n))
  {
    if Has(data, n) {
      StepAccepts(groups, data, Start(data, n));
      if StepAt(groups, data, Start(data, n)).Ok? {
        StepMeans(groups, data, Start(data, n));
        AcceptsFrom(groups, data, n + 1);
      }
    } else {
      forall k: nat | n <= k ensures !Has(data, k) {
        NoneBehindTheLast(data, n, k);
      }
    }
  }

  /** A list of attributes is accepted exactly when the bytes are tiled by them, at every depth. */
  lemma ParsesIff(groups: Groups, data: seq<Byte>)
    ensures Parse(groups, data).Ok? <==> Tiled(groups, data)
  {
    AcceptsFrom(groups, data, 0);
  }

  // ----- refusal -----

  /** What is wrong with the attribute at `pos`, with its numbers: a length that is no room for its own header, one
      that runs past the end, or what is wrong inside the group. */
  ghost predicate Faulty(groups: Groups, data: seq<Byte>, pos: nat, e: DecodeError)
    requires pos + 8 <= |data|
    decreases |data|, 0
  {
    var length, header := Read24(data, pos + 5), HeaderSize(data[pos + 4]);
    if length < header then e == InvalidAvpLength(pos, length, header)
    else if pos + length > |data| then e == Truncated(pos, length, |data| - pos)
    else InDictionary(groups, data, pos) && Fails(groups, SliceAt(data, pos), 0, e)
  }

  /** From attribute `n` on, `k` is the first that does not sit where it starts, and `e` says why. */
  ghost predicate FirstFault(groups: Groups, data: seq<Byte>, n: nat, k: nat, e: DecodeError)
    decreases |data|, 1
  {
    && n <= k && Has(data, k) && Faulty(groups, data, Start(data, k), e)
    && forall j: nat :: n <= j < k ==> Has(data, j) && Sits(groups, data, Start(data, j))
  }

  ghost predicate Fails(groups: Groups, data: seq<Byte>, n: nat, e: DecodeError)
    decreases |data|, 2
  {
    exists k :: FirstFault(groups, data, n, k, e)
  }

  /** The error of one attribute, exactly. */
  lemma {:induction false} StepFailsIff(groups: Groups, data: seq<Byte>, pos: nat, e: DecodeError)
    requires pos + 8 <= |data|
    ensures StepAt(groups, data, pos) == Err(e) <==> Faulty(groups, data, pos, e)
    decreases |data|, 0
  {
    if Framed(data, pos) && InDictionary(groups, data, pos) {
      FailsFrom(groups, SliceAt(data, pos), 0, e);
      assert Start(SliceAt(data, pos), 0) == 0;
    }
  }

  lemma {:induction false} FailsFrom(groups: Groups, data: seq<Byte>, n: nat, e: DecodeError)
    ensures ParseAt(groups, data, Start(data, n)) == Err(e) <==> Fails(groups, data, n, e)
    decreases |data|, 1, Max(0, |data| - Start(data, n))
  {
    if Has(data, n) {
      var pos := Start(data, n);
      StepAccepts(groups, data, pos);
      StepFailsIff(groups, data, pos, e);
      if StepAt(groups, data, pos).Ok? {
        StepMeans(groups, data, pos);
        FailsFrom(groups, data, n + 1, e);
        FaultMovesOn(groups, data, n, e);
      } else {
        FaultIsHere(groups, data, n, e);
      }
    } else {
      forall k: nat | n <= k ensures !Has(data, k) {
        NoneBehindTheLast(data, n, k);
      }
    }
  }

  lemma FaultMovesOn(groups: Groups, data: seq<Byte>, n: nat, e: DecodeError)
    requires Has(data, n) && Sits(groups, data, Start(data, n)) && !Faulty(groups, data, Start(data, n), e)
    ensures Fails(groups, data, n, e) <==> Fails(groups, data, n + 1, e)
  {
    var next := n + 1;
    if k :| FirstFault(groups, data, n, k, e) {
      assert FirstFault(groups, data, next, k, e);
    }
    if k :| FirstFault(groups, data, next, k, e) {
      assert FirstFault(groups, data, n, k, e);
    }
  }

  lemma FaultIsHere(groups: Groups, data: seq<Byte>, n: nat, e: DecodeError)
    requires Has(data, n) && !Sits(groups, data, Start(data, n))
    ensures Fails(groups, data, n, e) <==> Faulty(groups, data, Start(data, n), e)
  {
    if Faulty(groups, data, Start(data, n), e) {
      assert FirstFault(groups, data, n, n, e);
    }
  }

  /** A list of attributes is refused with an error exactly when it is that of the first attribute, in reading
      order and at whatever depth, that does not sit where it starts. */
  lemma FailsIff(groups: Groups, data: seq<Byte>, e: DecodeError)
    ensures Parse(groups, data) == Err(e) <==> Fails(groups, data, 0, e)
  {
    FailsFrom(groups, data, 0, e);
    assert Start(data, 0) == 0;
  }

  // ----- what is read -----

  /** The attribute shows its fields at `pos`, and its value there: a list where the dictionary says so, and the
      bytes otherwise. */
  ghost predicate Shows(groups: Groups, data: seq<Byte>, pos: nat, a: Avp)
    decreases |data|, 0
  {
    && Framed(data, pos)
    && a.code == Read32(data, pos) && a.vendor == VendorAt(data, pos) && a.flags == data[pos + 4]
    && var slice := SliceAt(data, pos);
       if InDictionary(groups, data, pos) then a.value.Grouped? && Lists(groups, slice, 0, a.value.children)
       else a.value == Raw(slice)
  }

  /** From start `n` on, the list has an attribute for every start, in order, and no others. */
  ghost predicate Lists(groups: Groups, data: seq<Byte>, n: nat, avps: seq<Avp>)
    decreases |data|, 2
  {
    && (forall i :: 0 <= i < |avps| ==> ShowsNth(groups, data, n + i, avps[i]))
    && !Has(data, n + |avps|)
  }

  ghost predicate ShowsNth(groups: Groups, data: seq<Byte>, n: nat, a: Avp)
    decreases |data|, 1
  {
    Has(data, n) && Shows(groups, data, Start(data, n), a)
  }

  lemma {:induction false} StepShows(groups: Groups, data: seq<Byte>, pos: nat, a: Avp)
    requires pos + 8 <= |data|
    ensures StepAt(groups, data, pos) == Ok(Step(a, pos + Padded(Read24(data, pos + 5)))) <==>
            Shows(groups, data, pos, a)
    decreases |data|, 0
  {
    if Framed(data, pos) {
      var slice := SliceAt(data, pos);
      assert Start(slice, 0) == 0;
      if a.value.Grouped? {
        ListsFrom(groups, slice, 0, a.value.children);
      }
      if StepAt(groups, data, pos).Ok? {
        StepMeans(groups, data, pos);
      }
    }
  }

  lemma ListsSplit(groups: Groups, data: seq<Byte>, n: nat, avps: seq<Avp>)
    requires avps != []
    ensures Lists(groups, data, n, avps) <==>
            ShowsNth(groups, data, n, avps[0]) && Lists(groups, data, n + 1, avps[1..])
  {
    var rest := avps[1..];
    if Lists(groups, data, n, avps) {
      forall i | 0 <= i < |rest| ensures ShowsNth(groups, data, n + 1 + i, rest[i]) {
        assert ShowsNth(groups, data, n + (1 + i), avps[1 + i]);
      }
      assert ShowsNth(groups, data, n + 0, avps[0]);
    }
    if ShowsNth(groups, data, n, avps[0]) && Lists(groups, data, n + 1, rest) {
      forall i | 0 <= i < |avps| ensures ShowsNth(groups, data, n + i, avps[i]) {
        if i > 0 {
          assert ShowsNth(groups, data, n + 1 + (i - 1), rest[i - 1]);
        }
      }
    }
  }

  lemma NothingRead(groups: Groups, data: seq<Byte>, n: nat)
    ensures ParseAt(groups, data, Start(data, n)) == Ok([]) <==> Lists(groups, data, n, [])
  {
    var pos := Start(data, n);
    if Has(data, n) && StepAt(groups, data, pos).Ok? {
      var step := StepAt(groups, data, pos).value;
      assert ParseAt(groups, data, pos) == Prepend([step.avp], ParseAt(groups, data, step.next));
    }
  }

  lemma {:induction false} ListsFrom(groups: Groups, data: seq<Byte>, n: nat, avps: seq<Avp>)
    ensures ParseAt(groups, data, Start(data, n)) == Ok(avps) <==> Lists(groups, data, n, avps)
    decreases |data|, 2, |avps|
  {
    if avps == [] {
      NothingRead(groups, data, n);
    } else {
      NthReads(groups, data, n, avps[0]);
      ListsFrom(groups, data, n + 1, avps[1..]);
      ListsSplit(groups, data, n, avps);
      HeadAndRest(groups, data, n, avps);
    }
  }

  /** Attribute `n` is read as `a`. */
  predicate Reads(groups: Groups, data: seq<Byte>, n: nat, a: Avp) {
    Has(data, n) && StepAt(groups, data, Start(data, n)) == Ok(Step(a, Start(data, n + 1)))
  }

  lemma {:induction false} NthReads(groups: Groups, data: seq<Byte>, n: nat, a: Avp)
    ensures Reads(groups, data, n, a) <==> ShowsNth(groups, data, n, a)
    decreases |data|, 1
  {
    if Has(data, n) {
      StepShows(groups, data, Start(data, n), a);
    }
  }

  lemma ConsIs(a: Avp, rest: seq<Avp>, avps: seq<Avp>)
    requires avps != []
    ensures [a] + rest == avps <==> a == avps[0] && rest == avps[1..]
  {
    assert avps == [avps[0]] + avps[1..];
    assert ([a] + rest)[1..] == rest;
  }

  lemma HeadAndRest(groups: Groups, data: seq<Byte>, n: nat, avps: seq<Avp>)
    requires avps != []
    ensures ParseAt(groups, data, Start(data, n)) == Ok(avps) <==>
            Reads(groups, data, n, avps[0]) && ParseAt(groups, data, Start(data, n + 1)) == Ok(avps[1..])
  {
    var pos := Start(data, n);
    if Has(data, n) {
      var step := StepAt(groups, data, pos);
      if step.Ok? {
        StepMeans(groups, data, pos);
        var rest := ParseAt(groups, data, Start(data, n + 1));
        assert ParseAt(groups, data, pos) == Prepend([step.value.avp], rest);
        if rest.Ok? {
          ConsIs(step.value.avp, rest.value, avps);
        }
      }
    }
  }

  /** What is accepted is read attribute for attribute: one for every start, each with the code, vendor, flags and
      value that stand there, at every depth; and nothing else is read. */
  lemma ParsedIff(groups: Groups, data: seq<Byte>, avps: seq<Avp>)
    ensures Parse(groups, data) == Ok(avps) <==> Lists(groups, data, 0, avps)
  {
    ListsFrom(groups, data, 0, avps);
    assert Start(data, 0) == 0;
  }

  // ----- whole messages -----

  /** A header of version 1 whose length covers itself and is covered by the bytes. */
  predicate GoodHeader(w: seq<Byte>) {
    |w| >= 20 && w[0] == 1 && 20 <= Read24(w, 1) <= |w|
  }

  function Body(w: seq<Byte>): seq<Byte>
    requires GoodHeader(w)
  {
    w[20..Read24(w, 1)]
  }

  /** A message is accepted exactly when its header is good and its body tiled by attributes. */
  lemma AcceptedIff(groups: Groups, w: seq<Byte>)
    ensures FromWire(groups, w).Ok? <==> GoodHeader(w) && Tiled(groups, Body(w))
  {
    if GoodHeader(w) {
      ParsesIff(groups, Body(w));
    }
  }

  /** It is accepted as the message whose fields and attributes stand there, and as no other. */
  lemma AcceptedAsIff(groups: Groups, w: seq<Byte>, m: Message)
    ensures FromWire(groups, w) == Ok(m) <==>
            && GoodHeader(w) && m.flags == w[4] && m.command == Read24(w, 5)
            && m.application == Read32(w, 8) && m.hopByHop == Read32(w, 12) && m.endToEnd == Read32(w, 16)
            && Lists(groups, Body(w), 0, m.avps)
  {
    if GoodHeader(w) {
      ParsedIff(groups, Body(w), m.avps);
    }
  }

  /** And the error otherwise, exactly. */
  lemma RefusedIff(groups: Groups, w: seq<Byte>, e: DecodeError)
    ensures FromWire(groups, w) == Err(e) <==>
            if |w| < 20 then e == HeaderTooShort(|w|)
            else if w[0] != 1 then e == UnsupportedVersion(w[0])
            else if !GoodHeader(w) then e == LengthMismatch(Read24(w, 1), |w|)
            else Fails(groups, Body(w), 0, e)
  {
    if GoodHeader(w) {
      FailsIff(groups, Body(w), e);
    }
  }

  // ----- the reader -----

  /** The bytes announce exactly themselves: version 1, and their own length, which is within bounds. */
  predicate AnnouncesItself(w: seq<Byte>) {
    20 <= |w| <= 0x10_0000 && w[0] == 1 && Read24(w, 1) == |w|
  }

  /** The reader cuts a message off a stream exactly where the stream is that message, announcing itself, and then
      the rest. */
  lemma CutIff(stream: seq<Byte>, w: seq<Byte>, rest: seq<Byte>)
    ensures ReadMessage(stream) == Cut(w, rest) <==> stream == w + rest && AnnouncesItself(w)
  {
    if ReadMessage(stream).Cut? {
      var cut := ReadMessage(stream);
      assert stream == cut.message + cut.rest;
      assert Read24(cut.message, 1) == Read24(stream, 1) && cut.message[0] == stream[0];
    }
    if stream == w + rest && AnnouncesItself(w) {
      assert Read24(stream, 1) == Read24(w, 1) && stream[0] == w[0];
      assert stream[..|w|] == w && stream[|w|..] == rest;
    }
  }

  /** And refuses it, or runs out of it, exactly as follows. */
  lemma NoCutIff(stream: seq<Byte>)
    ensures forall v :: ReadMessage(stream) == BadVersion(v) <==> |stream| >= 4 && stream[0] == v && v != 1
    ensures forall n: nat :: ReadMessage(stream) == BadLength(n) <==>
              |stream| >= 4 && stream[0] == 1 && Read24(stream, 1) == n && !(20 <= n <= 0x10_0000)
    ensures ReadMessage(stream) == EndOfStream <==>
              |stream| < 4 || (stream[0] == 1 && 20 <= Read24(stream, 1) <= 0x10_0000 && |stream| < Read24(stream, 1))
  {
  }
}
