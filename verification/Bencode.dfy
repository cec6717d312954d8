/** The bencode printer and parser that talk to rtpengine's control port. */
module Bencode {
  import opened ByteStrings
  import opened Common
  import opened Utf8

  // ----- values -----

  datatype Entry = Entry(key: string, value: Value)

  /** What the printer takes. A dictionary lists its entries in insertion order. */
  datatype Value = Dict(entries: seq<Entry>) | Int(number: int) | Text(text: string) | Bytes(bytes: seq<Byte>)

  /** A dictionary key as the parser builds it. */
  datatype Key = TextKey(text: string) | IntKey(number: int)

  /** What the parser returns: strings stay bytes, dictionaries forget the order of their entries. */
  datatype Parsed = Mapping(entries: map<Key, Parsed>) | Items(items: seq<Parsed>) | Number(number: int) |
      Raw(bytes: seq<Byte>)

  predicate Distinct(es: seq<Entry>) {
    forall i, j :: 0 <= i < j < |es| ==> es[i].key != es[j].key
  }

  /** No dictionary, at any depth, has the same key twice. */
  predicate DistinctKeys(v: Value) {
    v.Dict? ==>
      && Distinct(v.entries)
      && (forall i :: 0 <= i < |v.entries| ==> DistinctKeys(v.entries[i].value))
  }

  /** The meaning of a value: text as its bytes, a dictionary as a mapping. */
  function Meaning(v: Value): Parsed
    decreases v, 1
  {
    match v
    case Dict(entries) => Mapping(Collect(v, entries, map[]))
    case Int(n) => Number(n)
    case Text(s) => Raw(Utf8.Encode(s))
    case Bytes(b) => Raw(b)
  }

  /** The entries `es` of the dictionary `v`, added one after the other to `out`. */
  function Collect(v: Value, es: seq<Entry>, out: map<Key, Parsed>): map<Key, Parsed>
    requires v.Dict? && forall e :: e in es ==> e in v.entries
    decreases v, 0, |es|
  {
    if es == [] then out
    else
      assert es[0] in v.entries;
      Collect(v, es[1..], out[TextKey(es[0].key) := Meaning(es[0].value)])
  }

  // ----- decimal numbers -----

  const MINUS: Byte := 45
  const PLUS: Byte := 43
  const UNDERSCORE: Byte := 95
  const COLON: Byte := 58
  const LETTER_D: Byte := 100
  const LETTER_E: Byte := 101
  const LETTER_I: Byte := 105
  const LETTER_L: Byte := 108

  predicate IsDigit(b: Byte) {
    48 <= b < 58
  }

  function Digits(n: nat): (r: seq<Byte>)
    ensures r != []
  {
    if n < 10 then [48 + n] else Digits(n / 10) + [48 + n % 10]
  }

  /** `str(n).encode()`. */
  function Decimal(n: int): (r: seq<Byte>)
    ensures r != []
  {
    if n < 0 then [MINUS] + Digits(-n) else Digits(n)
  }

  /** Digits with single underscores between them, as `int` reads `s[lo..hi]`. */
  function ParseDigits(s: seq<Byte>, lo: nat, hi: nat): Option<nat>
    requires lo <= hi <= |s|
    decreases hi
  {
    if lo == hi || !IsDigit(s[hi-1]) then None
    else
      var d: nat := s[hi-1] - 48;
      if lo + 1 == hi then Some(d)
      else
        match ParseDigits(s, lo, if s[hi-2] == UNDERSCORE then hi - 2 else hi - 1)
        case None => None
        case Some(high) => Some(10 * high + d)
  }

  predicate IsSpace(b: Byte) {
    b == 32 || 9 <= b < 14
  }

  function SkipSpaces(s: seq<Byte>, lo: nat, hi: nat): (r: nat)
    requires lo <= hi <= |s|
    ensures lo <= r <= hi
    decreases hi - lo
  {
    if lo < hi && IsSpace(s[lo]) then SkipSpaces(s, lo + 1, hi) else lo
  }

  function TrimSpaces(s: seq<Byte>, lo: nat, hi: nat): (r: nat)
    requires lo <= hi <= |s|
    ensures lo <= r <= hi
    decreases hi
  {
    if lo < hi && IsSpace(s[hi-1]) then TrimSpaces(s, lo, hi - 1) else hi
  }

  /** `int(s[lo..hi])` on bytes: white space around, a sign, then digits. */
  function ParseInt(s: seq<Byte>, lo: nat, hi: nat): Option<int>
    requires lo <= hi <= |s|
  {
    var start := SkipSpaces(s, lo, hi);
    var end := TrimSpaces(s, start, hi);
    if start == end then None
    else if s[start] == MINUS then
      match ParseDigits(s, start + 1, end)
      case None => None
      case Some(n) => Some(0 - n)
    else ParseDigits(s, if s[start] == PLUS then start + 1 else start, end)
  }

  lemma {:induction false} DigitsAreDigits(n: nat, i: nat)
    requires i < |Digits(n)|
    ensures IsDigit(Digits(n)[i])
  {
    if n >= 10 && i < |Digits(n)| - 1 {
      DigitsAreDigits(n / 10, i);
    }
  }

  /** A printed number is digits behind an optional sign. */
  lemma DecimalIsDigits(n: int, i: nat)
    requires i < |Decimal(n)|
    ensures IsDigit(Decimal(n)[i]) || (n < 0 && i == 0 && Decimal(n)[i] == MINUS)
  {
    if n >= 0 {
      DigitsAreDigits(n, i);
    } else if i > 0 {
      DigitsAreDigits(-n, i - 1);
    }
  }

  /** Printed digits are read back. */
  lemma {:induction false} DigitsRoundTrip(data: seq<Byte>, at: nat, n: nat)
    requires Holds(data, at, Digits(n))
    ensures ParseDigits(data, at, at + |Digits(n)|) == Some(n)
  {
    var s := Digits(n);
    assert data[at + (|s| - 1)] == s[|s| - 1];
    if n >= 10 {
      assert Holds(data, at, Digits(n / 10)) by {
        forall i | 0 <= i < |Digits(n / 10)| ensures data[at + i] == Digits(n / 10)[i] {
          assert s[i] == Digits(n / 10)[i];
        }
      }
      DigitsRoundTrip(data, at, n / 10);
      DigitsAreDigits(n / 10, |s| - 2);
      assert data[at + (|s| - 2)] == s[|s| - 2];
    }
  }

  /** Printed numbers are read back. */
  lemma DecimalRoundTrip(data: seq<Byte>, at: nat, n: int)
    requires Holds(data, at, Decimal(n))
    ensures ParseInt(data, at, at + |Decimal(n)|) == Some(n)
  {
    var s := Decimal(n);
    DecimalIsDigits(n, 0);
    DecimalIsDigits(n, |s| - 1);
    assert data[at + 0] == s[0] && data[at + (|s| - 1)] == s[|s| - 1];
    if n < 0 {
      var digits := Digits(-n);
      forall i | 0 <= i < |digits| ensures data[at + 1 + i] == digits[i] {
        assert data[at + (1 + i)] == s[1 + i];
      }
      DigitsRoundTrip(data, at + 1, -n);
    } else {
      DigitsRoundTrip(data, at, n);
    }
  }

  // ----- the printer -----

  predicate Sorted(es: seq<Entry>) {
    forall i, j :: 0 <= i < j < |es| ==> Less(es[i].key, es[j].key)
  }

  function Insert(e: Entry, es: seq<Entry>): (r: seq<Entry>)
    ensures multiset(r) == multiset([e] + es)
  {
    if es == [] || !Less(es[0].key, e.key) then [e] + es
    else
      assert es == [es[0]] + es[1..];
      [es[0]] + Insert(e, es[1..])
  }

  /** `sorted(value.items())`: keys are distinct, so the values never decide. */
  function SortByKey(es: seq<Entry>): (r: seq<Entry>)
    ensures multiset(r) == multiset(es)
  {
    if es == [] then []
    else
      assert es == [es[0]] + es[1..];
      Insert(es[0], SortByKey(es[1..]))
  }

  lemma SortKeepsMembers(es: seq<Entry>, e: Entry)
    ensures e in SortByKey(es) <==> e in es
  {
    assert e in SortByKey(es) <==> e in multiset(SortByKey(es));
    assert e in es <==> e in multiset(es);
  }

  function WithLength(b: seq<Byte>): seq<Byte> {
    Decimal(|b|) + [COLON] + b
  }

  /** The entries of a dictionary in the order they are printed. */
  function Printing(v: Value): (es: seq<Entry>)
    requires v.Dict?
    ensures forall e :: e in es ==> e in v.entries
  {
    forall e ensures e in SortByKey(v.entries) ==> e in v.entries {
      SortKeepsMembers(v.entries, e);
    }
    SortByKey(v.entries)
  }

  function Encode(v: Value): seq<Byte>
    decreases v, 3
  {
    match v
    case Dict(_) => EncodeDict(v)
    case Int(n) => [LETTER_I] + Decimal(n) + [LETTER_E]
    case Text(s) => WithLength(Utf8.Encode(s))
    case Bytes(b) => WithLength(b)
  }

  function EncodeDict(v: Value): seq<Byte>
    requires v.Dict?
    decreases v, 2
  {
    [LETTER_D] + EncodeEntries(v, Printing(v)) + [LETTER_E]
  }

  function EncodeEntries(v: Value, es: seq<Entry>): seq<Byte>
    requires v.Dict? && forall e :: e in es ==> e in v.entries
    decreases v, 1, |es|
  {
    if es == [] then []
    else EncodeEntry(v, es[0]) + EncodeEntries(v, es[1..])
  }

  function EncodeEntry(v: Value, e: Entry): seq<Byte>
    requires v.Dict? && e in v.entries
    decreases v, 0
  {
    WithLength(Utf8.Encode(e.key)) + Encode(e.value)
  }

  // ----- the parser -----

  /** What the source raises; and the point where a negative length would take it back to where it was, or before. */
  datatype Error = NoDelimiter | BadInteger | UnhashableKey | BadText | StepsBack

  datatype Result = Ok(value: Parsed, next: nat) | Err(error: Error)

  /** `data.index(b, from)`. */
  function Find(data: seq<Byte>, b: Byte, start: nat): (r: Option<nat>)
    ensures r.Some? ==> start <= r.value < |data| && data[r.value] == b
    decreases |data| - start
  {
    if start >= |data| then None
    else if data[start] == b then Some(start)
    else Find(data, b, start + 1)
  }

  /** A dictionary key: bytes become text, numbers stay, containers cannot be keys. */
  function ToKey(p: Parsed): Option<Key> {
    match p
    case Raw(b) => if Utf8.Decode(b).Some? then Some(TextKey(Utf8.Decode(b).value)) else None
    case Number(n) => Some(IntKey(n))
    case _ => None
  }

  function KeyError(p: Parsed): Error {
    if p.Raw? then BadText else UnhashableKey
  }

  function Left(data: seq<Byte>, index: nat): nat {
    if index < |data| then |data| - index else 0
  }

  predicate StopsAt(data: seq<Byte>, index: nat) {
    index < |data| && data[index] == LETTER_E
  }

  function DecodeNumber(data: seq<Byte>, index: nat): (r: Result)
    requires index < |data| && data[index] == LETTER_I
    ensures r.Ok? ==> r.next > index
  {
    match Find(data, LETTER_E, index)
    case None => Err(NoDelimiter)
    case Some(end) =>
      match ParseInt(data, index + 1, end)
      case None => Err(BadInteger)
      case Some(n) => Ok(Number(n), end + 1)
  }

  /** The bytes of a string that starts at `start`; a slice past the end of the data is short, not an error, and
      one of negative length is empty. The next index is `start` plus the length, whatever its sign. */
  function ReadString(data: seq<Byte>, index: nat, start: nat, length: Option<int>): (r: Result)
    requires index < start <= |data|
    ensures r.Ok? ==> index < r.next
  {
    match length
    case None => Err(BadInteger)
    case Some(n) =>
      if start + n <= index then Err(StepsBack)
      else Ok(Raw(if n < 0 then [] else if start + n <= |data| then data[start..start + n] else data[start..]),
          start + n)
  }

  /** A string: its length, a colon, its bytes. */
  function DecodeString(data: seq<Byte>, index: nat): (r: Result)
    ensures r.Ok? ==> index < r.next && index < |data|
  {
    match Find(data, COLON, index)
    case None => Err(NoDelimiter)
    case Some(colon) => ReadString(data, index, colon + 1, ParseInt(data, index, colon))
  }

  function DecodeAt(data: seq<Byte>, index: nat): (r: Result)
    ensures r.Ok? ==> index < r.next && index < |data|
    decreases Left(data, index), 1
  {
    DecodeKind(data, index, if index < |data| then Some(data[index]) else None)
  }

  /** One byte, or none, decides what is read. */
  function DecodeKind(data: seq<Byte>, index: nat, kind: Option<Byte>): (r: Result)
    requires kind == if index < |data| then Some(data[index]) else None
    ensures r.Ok? ==> index < r.next && index < |data|
    decreases Left(data, index), 0
  {
    if kind == Some(LETTER_D) then DecodeEntries(data, index + 1, map[])
    else if kind == Some(LETTER_L) then DecodeItems(data, index + 1, [])
    else if kind == Some(LETTER_I) then DecodeNumber(data, index)
    else DecodeString(data, index)
  }

  /** One turn of a loop: it ends the call, or goes on from an index with what has been read. */
  datatype Turn<T> = Stop(result: Result) | Again(next: nat, out: T)

  predicate LeadsOn<T>(turn: Turn<T>, index: nat, size: nat) {
    match turn
    case Stop(r) => r.Ok? ==> index < r.next && index < size
    case Again(next, _) => index < next && index < size
  }

  function EntryTurn(data: seq<Byte>, index: nat, out: map<Key, Parsed>): (turn: Turn<map<Key, Parsed>>)
    ensures LeadsOn(turn, index, |data|)
    decreases Left(data, index), 2
  {
    if StopsAt(data, index) then Stop(Ok(Mapping(out), index + 1))
    else
      match DecodeAt(data, index)
      case Err(e) => Stop(Err(e))
      case Ok(key, afterKey) =>
        match DecodeAt(data, afterKey)
        case Err(e) => Stop(Err(e))
        case Ok(value, next) =>
          if ToKey(key).None? then Stop(Err(KeyError(key))) else Again(next, out[ToKey(key).value := value])
  }

  function DecodeEntries(data: seq<Byte>, index: nat, out: map<Key, Parsed>): (r: Result)
    ensures r.Ok? ==> index < r.next && index < |data|
    decreases Left(data, index), 3
  {
    match EntryTurn(data, index, out)
    case Stop(r) => r
    case Again(next, more) => DecodeEntries(data, next, more)
  }

  function ItemTurn(data: seq<Byte>, index: nat, out: seq<Parsed>): (turn: Turn<seq<Parsed>>)
    ensures LeadsOn(turn, index, |data|)
    decreases Left(data, index), 2
  {
    if StopsAt(data, index) then Stop(Ok(Items(out), index + 1))
    else
      match DecodeAt(data, index)
      case Err(e) => Stop(Err(e))
      case Ok(item, next) => Again(next, out + [item])
  }

  function DecodeItems(data: seq<Byte>, index: nat, out: seq<Parsed>): (r: Result)
    ensures r.Ok? ==> index < r.next && index < |data|
    decreases Left(data, index), 3
  {
    match ItemTurn(data, index, out)
    case Stop(r) => r
    case Again(next, more) => DecodeItems(data, next, more)
  }

  /** `bdecode`, with its loops, up to the first step back. */
  method Bdecode(data: seq<Byte>, start: nat) returns (r: Result)
    ensures r == DecodeAt(data, start)
    decreases Left(data, start)
  {
    var index := start;
    if index < |data| && data[index] == LETTER_D {
      index := index + 1;
      var out: map<Key, Parsed> := map[];
      while !StopsAt(data, index)
        invariant index > start
        invariant DecodeEntries(data, index, out) == DecodeAt(data, start)
        decreases Left(data, index)
      {
        var key := Bdecode(data, index);
        if key.Err? {
          return key;
        }
        var value := Bdecode(data, key.next);
        if value.Err? {
          return value;
        }
        if ToKey(key.value).None? {
          return Err(KeyError(key.value));
        }
        out := out[ToKey(key.value).value := value.value];
        index := value.next;
      }
      return Ok(Mapping(out), index + 1);
    }
    if index < |data| && data[index] == LETTER_L {
      index := index + 1;
      var out: seq<Parsed> := [];
      while !StopsAt(data, index)
        invariant index > start
        invariant DecodeItems(data, index, out) == DecodeAt(data, start)
        decreases Left(data, index)
      {
        var item := Bdecode(data, index);
        if item.Err? {
          return item;
        }
        out := out + [item.value];
        index := item.next;
      }
      return Ok(Items(out), index + 1);
    }
    if index < |data| && data[index] == LETTER_I {
      return DecodeNumber(data, index);
    }
    return DecodeString(data, index);
  }

  // ----- sorting -----

  lemma InsertMember(e: Entry, es: seq<Entry>, x: Entry)
    requires x in Insert(e, es)
    ensures x == e || x in es
  {
    assert x in multiset(Insert(e, es)) && x in multiset([e] + es);
    assert x in [e] + es;
  }

  lemma SortedCons(e: Entry, es: seq<Entry>)
    requires Sorted(es) && forall x :: x in es ==> Less(e.key, x.key)
    ensures Sorted([e] + es)
  {
    var r := [e] + es;
    forall i, j | 0 <= i < j < |r| ensures Less(r[i].key, r[j].key) {
      assert r[j] == es[j - 1] && es[j - 1] in es;
    }
  }

  lemma {:induction false} InsertSorts(e: Entry, es: seq<Entry>)
    requires Sorted(es) && forall x :: x in es ==> x.key != e.key
    ensures Sorted(Insert(e, es))
  {
    if es == [] || !Less(es[0].key, e.key) {
      forall x | x in es ensures Less(e.key, x.key) {
        LessTotal(e.key, es[0].key);
        if x != es[0] {
          LessTransitive(e.key, es[0].key, x.key);
        }
      }
      SortedCons(e, es);
    } else {
      InsertSorts(e, es[1..]);
      forall x | x in Insert(e, es[1..]) ensures Less(es[0].key, x.key) {
        InsertMember(e, es[1..], x);
      }
      SortedCons(es[0], Insert(e, es[1..]));
    }
  }

  lemma {:induction false} SortSorts(es: seq<Entry>)
    requires Distinct(es)
    ensures Sorted(SortByKey(es))
  {
    if es != [] {
      SortSorts(es[1..]);
      var rest := SortByKey(es[1..]);
      forall x | x in rest ensures x.key != es[0].key {
        SortKeepsMembers(es[1..], x);
      }
      InsertSorts(es[0], rest);
    }
  }

  lemma SortedIsDistinct(es: seq<Entry>)
    requires Sorted(es)
    ensures Distinct(es)
  {
    forall i, j | 0 <= i < j < |es| ensures es[i].key != es[j].key {
      LessTotal(es[i].key, es[j].key);
    }
  }

  /** The keys of a printed dictionary come in ascending order as raw byte strings. */
  lemma PrintedKeysAscend(v: Value, i: nat, j: nat)
    requires v.Dict? && DistinctKeys(v) && i < j < |Printing(v)|
    ensures LexLess(Utf8.Encode(Printing(v)[i].key), Utf8.Encode(Printing(v)[j].key))
  {
    SortSorts(v.entries);
    EncodeKeepsOrder(Printing(v)[i].key, Printing(v)[j].key);
  }

  // ----- what a collected dictionary holds -----

  lemma {:induction false} CollectOther(v: Value, es: seq<Entry>, out: map<Key, Parsed>, k: Key)
    requires v.Dict? && (forall e :: e in es ==> e in v.entries)
    requires forall i :: 0 <= i < |es| ==> TextKey(es[i].key) != k
    ensures k in Collect(v, es, out) <==> k in out
    ensures k in out ==> Collect(v, es, out)[k] == out[k]
    decreases |es|
  {
    if es != [] {
      CollectOther(v, es[1..], out[TextKey(es[0].key) := Meaning(es[0].value)], k);
    }
  }

  lemma {:induction false} CollectHas(v: Value, es: seq<Entry>, out: map<Key, Parsed>, i: nat)
    requires v.Dict? && (forall e :: e in es ==> e in v.entries)
    requires Distinct(es) && i < |es|
    ensures TextKey(es[i].key) in Collect(v, es, out)
    ensures Collect(v, es, out)[TextKey(es[i].key)] == Meaning(es[i].value)
    decreases |es|
  {
    var next := out[TextKey(es[0].key) := Meaning(es[0].value)];
    if i == 0 {
      CollectOther(v, es[1..], next, TextKey(es[0].key));
    } else {
      CollectHas(v, es[1..], next, i - 1);
    }
  }

  /** Two listings of the same entries, in any order, collect to the same mapping. */
  lemma CollectIgnoresOrder(v: Value, es: seq<Entry>, w: Value, fs: seq<Entry>)
    requires v.Dict? && (forall e :: e in es ==> e in v.entries) && Distinct(es)
    requires w.Dict? && (forall e :: e in fs ==> e in w.entries) && Distinct(fs)
    requires forall e :: e in es <==> e in fs
    ensures Collect(v, es, map[]) == Collect(w, fs, map[])
  {
    var m, n := Collect(v, es, map[]), Collect(w, fs, map[]);
    forall k ensures k in m <==> k in n
             ensures k in m ==> m[k] == n[k]
    {
      if i :| 0 <= i < |es| && TextKey(es[i].key) == k {
        assert es[i] in fs;
        var j :| 0 <= j < |fs| && fs[j] == es[i];
        CollectHas(v, es, map[], i);
        CollectHas(w, fs, map[], j);
      } else {
        CollectOther(v, es, map[], k);
        forall j | 0 <= j < |fs| ensures TextKey(fs[j].key) != k {
          assert fs[j] in es;
        }
        CollectOther(w, fs, map[], k);
      }
    }
  }

  // ----- the round trip -----

  lemma {:induction false} FindStops(data: seq<Byte>, b: Byte, start: nat, end: nat)
    requires start <= end < |data| && data[end] == b && (forall i :: start <= i < end ==> data[i] != b)
    ensures Find(data, b, start) == Some(end)
    decreases end - start
  {
    if start < end {
      FindStops(data, b, start + 1, end);
    }
  }

  /** Something between a letter and the closing `e`. */
  lemma Bracketed(data: seq<Byte>, at: nat, letter: Byte, body: seq<Byte>)
    requires Holds(data, at, [letter] + body + [LETTER_E])
    ensures at < |data| && data[at] == letter
    ensures Holds(data, at + 1, body) && Holds(data, at + 1, body + [LETTER_E])
    ensures at + 1 + |body| < |data| && data[at + 1 + |body|] == LETTER_E
  {
    ConcatAssociates([letter], body, [LETTER_E]);
    HoldsSplit(data, at, [letter], body + [LETTER_E]);
    HoldsOne(data, at, letter);
    HoldsSplit(data, at + 1, body, [LETTER_E]);
    HoldsOne(data, at + 1 + |body|, LETTER_E);
  }

  /** Bytes none of which is `stop`, then `stop`: that is where the search ends. */
  lemma FindAfter(data: seq<Byte>, at: nat, part: seq<Byte>, stop: Byte)
    requires Holds(data, at, part) && stop !in part
    requires at + |part| < |data| && data[at + |part|] == stop
    ensures Find(data, stop, at) == Some(at + |part|)
  {
    forall i | at <= i < at + |part| ensures data[i] != stop {
      assert data[at + (i - at)] == part[i - at] && part[i - at] in part;
    }
    FindStops(data, stop, at, at + |part|);
  }

  lemma NumberAt(data: seq<Byte>, at: nat, n: int)
    requires Holds(data, at, [LETTER_I] + Decimal(n) + [LETTER_E])
    ensures DecodeAt(data, at) == Ok(Number(n), at + |Decimal(n)| + 2)
  {
    Bracketed(data, at, LETTER_I, Decimal(n));
    assert Find(data, LETTER_E, at) == Find(data, LETTER_E, at + 1);
    DecimalAvoids(n, LETTER_E);
    FindAfter(data, at + 1, Decimal(n), LETTER_E);
    DecimalRoundTrip(data, at + 1, n);
    Dispatch(data, at);
  }

  lemma DecimalAvoids(n: int, b: Byte)
    requires !IsDigit(b) && b != MINUS
    ensures b !in Decimal(n)
  {
    forall i | 0 <= i < |Decimal(n)| ensures Decimal(n)[i] != b {
      DecimalIsDigits(n, i);
    }
  }

  /** A field that ends where `stop` comes for the first time. */
  lemma FieldAt(data: seq<Byte>, at: nat, field: seq<Byte>, stop: Byte)
    requires Holds(data, at, field + [stop]) && stop !in field && field != []
    ensures Find(data, stop, at) == Some(at + |field|)
    ensures Holds(data, at, field) && data[at] == field[0]
  {
    HoldsSplit(data, at, field, [stop]);
    HoldsOne(data, at + |field|, stop);
    FindAfter(data, at, field, stop);
    assert data[at + 0] == field[0];
  }

  lemma LengthAt(data: seq<Byte>, at: nat, n: nat)
    requires Holds(data, at, Decimal(n) + [COLON])
    ensures Find(data, COLON, at) == Some(at + |Decimal(n)|)
    ensures ParseInt(data, at, at + |Decimal(n)|) == Some(n)
    ensures at < |data| && IsDigit(data[at])
  {
    DecimalAvoids(n, COLON);
    FieldAt(data, at, Decimal(n), COLON);
    DecimalIsDigits(n, 0);
    DecimalRoundTrip(data, at, n);
  }

  lemma ReadStringAt(data: seq<Byte>, at: nat, start: nat, b: seq<Byte>)
    requires Holds(data, start, b) && at < start
    ensures ReadString(data, at, start, Some(|b|)) == Ok(Raw(b), start + |b|)
  {
    HoldsSlice(data, start, b);
  }

  lemma StringBody(data: seq<Byte>, at: nat, b: seq<Byte>)
    requires Holds(data, at, WithLength(b))
    ensures DecodeString(data, at) == Ok(Raw(b), at + |WithLength(b)|)
    ensures at < |data| && IsDigit(data[at])
  {
    var colon := at + |Decimal(|b|)|;
    assert Holds(data, at, Decimal(|b|) + [COLON]) && Holds(data, colon + 1, b) by {
      HoldsSplit(data, at, Decimal(|b|) + [COLON], b);
    }
    LengthAt(data, at, |b|);
    StringFrom(data, at, colon, b);
  }

  lemma StringFrom(data: seq<Byte>, at: nat, colon: nat, b: seq<Byte>)
    requires Find(data, COLON, at) == Some(colon) && ParseInt(data, at, colon) == Some(|b|) && Holds(data, colon + 1, b)
    ensures DecodeString(data, at) == Ok(Raw(b), colon + 1 + |b|)
  {
    ReadStringAt(data, at, colon + 1, b);
  }

  lemma StringAt(data: seq<Byte>, at: nat, b: seq<Byte>)
    requires Holds(data, at, WithLength(b))
    ensures DecodeAt(data, at) == Ok(Raw(b), at + |WithLength(b)|)
    ensures !StopsAt(data, at)
  {
    StringBody(data, at, b);
    Dispatch(data, at);
  }

  /** The parser looks at one byte to choose what to read. */
  lemma Dispatch(data: seq<Byte>, at: nat)
    requires at < |data|
    ensures IsDigit(data[at]) ==> DecodeAt(data, at) == DecodeString(data, at)
    ensures data[at] == LETTER_I ==> DecodeAt(data, at) == DecodeNumber(data, at)
    ensures data[at] == LETTER_D ==> DecodeAt(data, at) == DecodeEntries(data, at + 1, map[])
  {
  }

  /** One turn of the parser's dictionary loop. */
  lemma EntryAt(e: Entry, data: seq<Byte>, at: nat, middle: nat, next: nat, out: map<Key, Parsed>)
    requires !StopsAt(data, at)
    requires DecodeAt(data, at) == Ok(Raw(Utf8.Encode(e.key)), middle)
    requires DecodeAt(data, middle) == Ok(Meaning(e.value), next)
    ensures EntryTurn(data, at, out) == Again(next, out[TextKey(e.key) := Meaning(e.value)])
  {
    Utf8.RoundTrip(e.key);
  }

  /** A listing starts with its first entry, and the rest follows. */
  lemma EntriesSplit(v: Value, es: seq<Entry>, data: seq<Byte>, at: nat)
    requires v.Dict? && (forall e :: e in es ==> e in v.entries) && es != []
    requires Holds(data, at, EncodeEntries(v, es) + [LETTER_E])
    ensures Holds(data, at, EncodeEntry(v, es[0])) &&
        Holds(data, at + |EncodeEntry(v, es[0])|, EncodeEntries(v, es[1..]) + [LETTER_E])
    ensures |EncodeEntries(v, es)| == |EncodeEntry(v, es[0])| + |EncodeEntries(v, es[1..])|
  {
    var entry, rest := EncodeEntry(v, es[0]), EncodeEntries(v, es[1..]);
    assert EncodeEntries(v, es) == entry + rest;
    ConcatAssociates(entry, rest, [LETTER_E]);
    HoldsSplit(data, at, entry, rest + [LETTER_E]);
  }

  /** A printed entry is a key and then a value. */
  lemma EntrySplit(v: Value, e: Entry, data: seq<Byte>, at: nat, middle: nat)
    requires v.Dict? && e in v.entries && Holds(data, at, EncodeEntry(v, e)) &&
        middle == at + |WithLength(Utf8.Encode(e.key))|
    ensures Holds(data, at, WithLength(Utf8.Encode(e.key))) && Holds(data, middle, Encode(e.value))
    ensures at + |EncodeEntry(v, e)| == middle + |Encode(e.value)|
  {
    HoldsSplit(data, at, WithLength(Utf8.Encode(e.key)), Encode(e.value));
  }

  /** A printed entry is one turn of the parser's dictionary loop. */
  lemma {:induction false} EntryReads(v: Value, e: Entry, data: seq<Byte>, at: nat, out: map<Key, Parsed>)
    requires v.Dict? && e in v.entries && DistinctKeys(e.value) && Holds(data, at, EncodeEntry(v, e))
    ensures EntryTurn(data, at, out) == Again(at + |EncodeEntry(v, e)|, out[TextKey(e.key) := Meaning(e.value)])
    decreases v, 0, 0
  {
    var middle, next := at + |WithLength(Utf8.Encode(e.key))|, at + |EncodeEntry(v, e)|;
    assert !StopsAt(data, at) && DecodeAt(data, at) == Ok(Raw(Utf8.Encode(e.key)), middle) by {
      EntrySplit(v, e, data, at, middle);
      StringAt(data, at, Utf8.Encode(e.key));
    }
    assert DecodeAt(data, middle) == Ok(Meaning(e.value), next) by {
      EntrySplit(v, e, data, at, middle);
      ValueAt(e.value, data, middle);
    }
    EntryAt(e, data, at, middle, next, out);
  }

  lemma EntriesGoOn(data: seq<Byte>, at: nat, out: map<Key, Parsed>, next: nat, more: map<Key, Parsed>)
    requires EntryTurn(data, at, out) == Again(next, more)
    ensures DecodeEntries(data, at, out) == DecodeEntries(data, next, more)
  {
  }

  lemma {:induction false} EntriesAt(v: Value, es: seq<Entry>, data: seq<Byte>, at: nat, out: map<Key, Parsed>)
    requires v.Dict? && DistinctKeys(v) && forall e :: e in es ==> e in v.entries
    requires Holds(data, at, EncodeEntries(v, es) + [LETTER_E])
    ensures DecodeEntries(data, at, out) == Ok(Mapping(Collect(v, es, out)), at + |EncodeEntries(v, es)| + 1)
    decreases v, 0, |es| + 1
  {
    if es == [] {
      assert EncodeEntries(v, es) + [LETTER_E] == [LETTER_E];
      HoldsOne(data, at, LETTER_E);
    } else {
      var e := es[0];
      assert e in v.entries;
      EntriesSplit(v, es, data, at);
      var next, more := at + |EncodeEntry(v, e)|, out[TextKey(e.key) := Meaning(e.value)];
      assert DecodeEntries(data, at, out) == DecodeEntries(data, next, more) by {
        EntryReads(v, e, data, at, out);
        EntriesGoOn(data, at, out, next, more);
      }
      EntriesAt(v, es[1..], data, next, more);
    }
  }

  /** Sorting changes neither the entries of a dictionary nor its meaning. */
  lemma SortedEntries(v: Value)
    requires v.Dict? && DistinctKeys(v)
    ensures Sorted(Printing(v)) && Collect(v, Printing(v), map[]) == Collect(v, v.entries, map[])
  {
    var sorted := Printing(v);
    forall e ensures e in sorted <==> e in v.entries {
      SortKeepsMembers(v.entries, e);
    }
    SortSorts(v.entries);
    SortedIsDistinct(sorted);
    CollectIgnoresOrder(v, sorted, v, v.entries);
  }

  lemma {:induction false} ValueAt(v: Value, data: seq<Byte>, at: nat)
    requires DistinctKeys(v) && Holds(data, at, Encode(v))
    ensures DecodeAt(data, at) == Ok(Meaning(v), at + |Encode(v)|)
    decreases v, 1
  {
    match v {
      case Int(n) => NumberAt(data, at, n);
      case Text(s) => StringAt(data, at, Utf8.Encode(s));
      case Bytes(b) => StringAt(data, at, b);
      case Dict(_) => DictAt(v, data, at);
    }
  }

  lemma {:induction false} DictAt(v: Value, data: seq<Byte>, at: nat)
    requires v.Dict? && DistinctKeys(v) && Holds(data, at, Encode(v))
    ensures DecodeAt(data, at) == Ok(Meaning(v), at + |Encode(v)|)
    decreases v, 0
  {
    SortedEntries(v);
    assert Encode(v) == EncodeDict(v);
    Bracketed(data, at, LETTER_D, EncodeEntries(v, Printing(v)));
    Dispatch(data, at);
    EntriesAt(v, Printing(v), data, at + 1, map[]);
  }

  /** Printed anywhere inside a message, a value is parsed back, and the parser stops exactly at its end. */
  lemma RoundTripAnywhere(v: Value, before: seq<Byte>, after: seq<Byte>)
    requires DistinctKeys(v)
    ensures DecodeAt(before + Encode(v) + after, |before|) == Ok(Meaning(v), |before| + |Encode(v)|)
  {
    var data := before + Encode(v) + after;
    assert Holds(data, |before|, Encode(v));
    ValueAt(v, data, |before|);
  }

  // ----- canonical form -----

  lemma {:induction false} SameMeaningSameEncoding(v: Value, w: Value)
    requires DistinctKeys(v) && DistinctKeys(w) && Meaning(v) == Meaning(w)
    ensures Encode(v) == Encode(w)
    decreases v, 1
  {
    if v.Dict? {
      SortedEntries(v);
      SortedEntries(w);
      SameCollectionSameEncoding(v, Printing(v), w, Printing(w));
    }
  }

  lemma KeyIsListed(v: Value, es: seq<Entry>, key: string) returns (i: nat)
    requires v.Dict? && (forall e :: e in es ==> e in v.entries)
    requires TextKey(key) in Collect(v, es, map[])
    ensures i < |es| && es[i].key == key
  {
    if j :| 0 <= j < |es| && es[j].key == key {
      i := j;
    } else {
      CollectOther(v, es, map[], TextKey(key));
      assert false;
    }
  }

  lemma CollectTail(v: Value, es: seq<Entry>)
    requires v.Dict? && (forall e :: e in es ==> e in v.entries) && Distinct(es) && es != []
    ensures Collect(v, es[1..], map[]) == Collect(v, es, map[]) - {TextKey(es[0].key)}
  {
    var whole, tail := Collect(v, es, map[]), Collect(v, es[1..], map[]);
    var first := TextKey(es[0].key);
    forall k ensures k in tail <==> k in whole && k != first
             ensures k in tail ==> tail[k] == whole[k]
    {
      if i :| 0 <= i < |es| && TextKey(es[i].key) == k {
        CollectHas(v, es, map[], i);
        if i == 0 {
          CollectOther(v, es[1..], map[], k);
        } else {
          CollectHas(v, es[1..], map[], i - 1);
        }
      } else {
        CollectOther(v, es, map[], k);
        CollectOther(v, es[1..], map[], k);
      }
    }
  }

  /** The least key of a collected, sorted listing is its first. */
  lemma LeastKeysAgree(es: seq<Entry>, fs: seq<Entry>, i: nat, j: nat)
    requires Sorted(es) && Sorted(fs) && i < |es| && j < |fs|
    requires es[i].key == fs[0].key && fs[j].key == es[0].key
    ensures es[0].key == fs[0].key
  {
    LessTotal(es[0].key, fs[0].key);
  }

  lemma SameFirstKey(v: Value, es: seq<Entry>, w: Value, fs: seq<Entry>)
    requires v.Dict? && (forall e :: e in es ==> e in v.entries) && Sorted(es) && es != []
    requires w.Dict? && (forall e :: e in fs ==> e in w.entries) && Sorted(fs)
    requires Collect(v, es, map[]) == Collect(w, fs, map[])
    ensures fs != [] && fs[0].key == es[0].key
  {
    SortedIsDistinct(es);
    SortedIsDistinct(fs);
    CollectHas(v, es, map[], 0);
    var j := KeyIsListed(w, fs, es[0].key);
    CollectHas(w, fs, map[], 0);
    var i := KeyIsListed(v, es, fs[0].key);
    LeastKeysAgree(es, fs, i, j);
  }

  lemma {:induction false} SameCollectionSameEncoding(v: Value, es: seq<Entry>, w: Value, fs: seq<Entry>)
    requires v.Dict? && DistinctKeys(v) && (forall e :: e in es ==> e in v.entries) && Sorted(es)
    requires w.Dict? && DistinctKeys(w) && (forall e :: e in fs ==> e in w.entries) && Sorted(fs)
    requires Collect(v, es, map[]) == Collect(w, fs, map[])
    ensures EncodeEntries(v, es) == EncodeEntries(w, fs)
    decreases v, 0, |es|
  {
    SortedIsDistinct(es);
    SortedIsDistinct(fs);
    if es == [] {
      if fs != [] {
        CollectHas(w, fs, map[], 0);
        assert false;
      }
    } else {
      SameFirstKey(v, es, w, fs);
      CollectHas(v, es, map[], 0);
      CollectHas(w, fs, map[], 0);
      assert es[0] in v.entries && fs[0] in w.entries;
      SameMeaningSameEncoding(es[0].value, fs[0].value);
      CollectTail(v, es);
      CollectTail(w, fs);
      SameCollectionSameEncoding(v, es[1..], w, fs[1..]);
    }
  }

  /** The printed form depends on the meaning of a value and on nothing else: not on the order a
      dictionary was filled in, nor on whether a string came as text or as bytes. */
  lemma {:induction false} EncodingIsCanonical(v: Value, w: Value)
    requires DistinctKeys(v) && DistinctKeys(w)
    ensures Encode(v) == Encode(w) <==> Meaning(v) == Meaning(w)
  {
    if Meaning(v) == Meaning(w) {
      SameMeaningSameEncoding(v, w);
    }
    if Encode(v) == Encode(w) {
      ValueAt(v, Encode(v), 0);
      ValueAt(w, Encode(w), 0);
    }
  }

  lemma InsertionOrderIsInvisible(es: seq<Entry>, fs: seq<Entry>)
    requires DistinctKeys(Dict(es)) && DistinctKeys(Dict(fs)) && multiset(es) == multiset(fs)
    ensures Encode(Dict(es)) == Encode(Dict(fs))
  {
    forall e ensures e in es <==> e in fs {
      assert e in es <==> e in multiset(es);
    }
    CollectIgnoresOrder(Dict(es), es, Dict(fs), fs);
    SameMeaningSameEncoding(Dict(es), Dict(fs));
  }
}
