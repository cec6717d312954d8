/** What a byte string holds at an offset. */
module ByteStrings {
  import opened Common

  /** `part` is what `data` holds from `at` on. */
  predicate Holds(data: seq<Byte>, at: nat, part: seq<Byte>) {
    at + |part| <= |data| && forall i :: 0 <= i < |part| ==> data[at + i] == part[i]
  }

  lemma HoldsSlice(data: seq<Byte>, at: nat, part: seq<Byte>)
    requires Holds(data, at, part)
    ensures data[at..at + |part|] == part
  {
  }

  lemma HoldsSplit(data: seq<Byte>, at: nat, a: seq<Byte>, b: seq<Byte>)
    requires Holds(data, at, a + b)
    ensures Holds(data, at, a) && Holds(data, at + |a|, b)
  {
    forall i | 0 <= i < |a| ensures data[at + i] == a[i] {
      assert (a + b)[i] == a[i];
    }
    forall i | 0 <= i < |b| ensures data[at + |a| + i] == b[i] {
      assert (a + b)[|a| + i] == b[i];
    }
  }

  lemma HoldsOne(data: seq<Byte>, at: nat, b: Byte)
    requires Holds(data, at, [b])
    ensures at < |data| && data[at] == b
  {
    assert data[at + 0] == [b][0];
  }

  lemma ConcatAssociates(a: seq<Byte>, b: seq<Byte>, c: seq<Byte>)
    ensures (a + b) + c == a + (b + c)
  {
  }
}
