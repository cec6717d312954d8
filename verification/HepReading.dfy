/**
 * What the trace bridge reads off any bytes at all, told from the positions of
 * the chunks: where each one starts, and which is the last of its type.
 */
module HepReading {
  import opened Common
  import opened Hep
  import opened WireBytes

  /** Where chunk `n` starts: the first behind the packet's own header, every other behind the one before. */
  function ChunkStart(data: seq<Byte>, n: nat): nat {
    if n == 0 then 6
    else
      var before := ChunkStart(data, n - 1);
      if ChunkAt(data, before) then before + Read16(data, before + 4) else before
  }

  /** A chunk stands at `pos`: the six bytes of its header are there, and its length counts them in. */
  predicate ChunkAt(data: seq<Byte>, pos: nat) {
    pos + 6 <= |data| && Read16(data, pos + 4) >= 6
  }

  predicate Readable(data: seq<Byte>, n: nat) {
    ChunkAt(data, ChunkStart(data, n))
  }

  /** Chunk `n` is of type `id`. */
  predicate OfType(data: seq<Byte>, n: nat, id: nat) {
    Readable(data, n) && Read16(data, ChunkStart(data, n) + 2) == id
  }

  /** What it holds; the end of the bytes may cut it short. */
  function ValueOf(data: seq<Byte>, n: nat): seq<Byte>
    requires Readable(data, n)
  {
    var pos := ChunkStart(data, n);
    data[pos + 6..Min(pos + Read16(data, pos + 4), |data|)]
  }

  /** From chunk `n` on, `k` is the last of its type. */
  ghost predicate LastOf(data: seq<Byte>, n: nat, id: nat, k: nat) {
    n <= k && OfType(data, k, id) && forall j: nat :: k < j ==> !OfType(data, j, id)
  }

  lemma {:induction false} NoneBehind(data: seq<Byte>, n: nat, k: nat)
    requires !Readable(data, n) && n <= k
    ensures !Readable(data, k)
    decreases k
  {
    if n < k {
      NoneBehind(data, n, k - 1);
    }
  }

  lemma {:induction false} FieldsFrom(data: seq<Byte>, n: nat, fields: map<nat, seq<Byte>>, id: nat)
    returns (k: Option<nat>)
    ensures
      var read := Fields(data, ChunkStart(data, n), fields);
      if k.Some? then LastOf(data, n, id, k.value) && id in read && read[id] == ValueOf(data, k.value)
      else
        && (forall j: nat :: n <= j ==> !OfType(data, j, id))
        && (id in read <==> id in fields) && (id in fields ==> read[id] == fields[id])
    decreases Max(0, |data| - ChunkStart(data, n))
  {
    if Readable(data, n) {
      var pos := ChunkStart(data, n);
      var more := fields[Read16(data, pos + 2) := ValueOf(data, n)];
      assert Fields(data, pos, fields) == Fields(data, ChunkStart(data, n + 1), more);
      k := FieldsFrom(data, n + 1, more, id);
      if k.None? && OfType(data, n, id) {
        k := Some(n);
      }
    } else {
      forall j: nat | n <= j ensures !OfType(data, j, id) {
        NoneBehind(data, n, j);
      }
      k := None;
    }
  }

  /** The bytes have a field of this type and value: the last chunk of the type holds it. */
  ghost predicate Field(data: seq<Byte>, id: nat, value: seq<Byte>) {
    exists k :: LastOf(data, 0, id, k) && ValueOf(data, k) == value
  }

  lemma FieldIff(data: seq<Byte>, id: nat, value: seq<Byte>)
    ensures
      var read := Fields(data, 6, map[]);
      id in read && read[id] == value <==> Field(data, id, value)
  {
    var last := FieldsFrom(data, 0, map[], id);
    assert ChunkStart(data, 0) == 6;
    if k :| LastOf(data, 0, id, k) && ValueOf(data, k) == value {
      assert OfType(data, k, id);
      assert last.Some? && OfType(data, last.value, id);
      assert last.value == k;
    }
  }

  ghost predicate Short(data: seq<Byte>, id: nat, n: nat) {
    exists v :: Field(data, id, v) && |v| == 2 && Read16(v, 0) == n
  }

  ghost predicate Long(data: seq<Byte>, id: nat, n: U32) {
    exists v :: Field(data, id, v) && |v| == 4 && Read32(v, 0) == n
  }

  /** The bridge takes a packet exactly when it starts with the magic and has the seven fields it needs, the ports
      two bytes wide and the times four; each is what the last chunk of its type holds. */
  lemma ParseIff(data: seq<Byte>, c: Capture)
    ensures Parse(data) == Some(c) <==>
            && |data| >= 6 && data[..4] == [72, 69, 80, 51]
            && Field(data, 3, c.src) && Field(data, 4, c.dst) && Field(data, 15, c.payload)
            && Short(data, 7, c.sport) && Short(data, 8, c.dport)
            && Long(data, 9, c.seconds) && Long(data, 10, c.micros)
  {
    var read := Fields(data, 6, map[]);
    forall id, v ensures id in read && read[id] == v <==> Field(data, id, v) {
      FieldIff(data, id, v);
    }
  }
}
