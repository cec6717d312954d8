/** Refilling the kernel set: auto-bans and blocklist entries merged into one element for each address. */
module FirewallReplay {
  import opened Common
  import opened AutoBanModel
  import opened AutoBanKernel

  const U64_MAX := 0xffff_ffff_ffff_ffff

  /** An address and its timeout in milliseconds; zero is no timeout at all. */
  datatype Entry = Entry(address: IpAddr, ttlMs: nat)

  /** A remaining time in whole milliseconds: never zero, and no more than the field holds. */
  function TimedMs(remaining: Time): (ms: nat)
    ensures ms > 0
  {
    Max(1, Min(remaining / MILLISECOND, U64_MAX))
  }

  datatype AutoBan = AutoBan(address: IpAddr, remaining: Time)

  /** A blocklist entry without a remaining time is there for good. */
  datatype Listed = Listed(address: IpAddr, remaining: Option<Time>)

  /** What is merged, in order: the auto-bans, then the blocklist. */
  function Entries(autoBans: seq<AutoBan>, blocklist: seq<Listed>): seq<Entry> {
    seq(|autoBans|, i requires 0 <= i < |autoBans| => Entry(autoBans[i].address, TimedMs(autoBans[i].remaining)))
    + seq(|blocklist|, i requires 0 <= i < |blocklist| =>
        Entry(blocklist[i].address,
            if blocklist[i].remaining.Some? then TimedMs(blocklist[i].remaining.value) else 0))
  }

  /** The longer of two lifetimes. */
  function Longer(held: nat, ttlMs: nat): nat {
    if held != 0 && (ttlMs == 0 || ttlMs > held) then ttlMs else held
  }

  /** The element that an entry programmed at `now` is. */
  function ElementOf(ttlMs: nat, now: Time): Element {
    Armed(now, ttlMs * MILLISECOND)
  }

  predicate Drops(ttlMs: nat, now: Time, t: Time) {
    var element := ElementOf(ttlMs, now);
    element.Forever? || element.end > t
  }

  lemma LongerDropsBoth(held: nat, ttlMs: nat, now: Time, t: Time)
    ensures Drops(Longer(held, ttlMs), now, t) <==> Drops(held, now, t) || Drops(ttlMs, now, t)
  {
    if held <= ttlMs {
      assert held * MILLISECOND <= ttlMs * MILLISECOND;
    } else {
      assert ttlMs * MILLISECOND <= held * MILLISECOND;
    }
  }

  /** Some of the first `n` entries is for `s`, and drops it at `t` on its own. */
  ghost predicate SomeDrops(entries: seq<Entry>, n: nat, now: Time, s: IpAddr, t: Time)
    requires n <= |entries|
  {
    exists i :: 0 <= i < n && entries[i].address == s && Drops(entries[i].ttlMs, now, t)
  }

  /** One element for each address among the first `n` entries, with the lifetime of one of them, which drops the
      address exactly when some of them does. */
  ghost predicate Merges(merged: map<IpAddr, nat>, entries: seq<Entry>, n: nat)
    requires n <= |entries|
  {
    && (forall s :: s in merged <==> exists i :: 0 <= i < n && entries[i].address == s)
    && (forall s :: s in merged ==> exists i :: 0 <= i < n && entries[i] == Entry(s, merged[s]))
    && (forall s, now, t :: s in merged ==> (Drops(merged[s], now, t) <==> SomeDrops(entries, n, now, s, t)))
  }

  function MergeOne(merged: map<IpAddr, nat>, e: Entry): map<IpAddr, nat> {
    merged[e.address := if e.address in merged then Longer(merged[e.address], e.ttlMs) else e.ttlMs]
  }

  lemma DropsNext(entries: seq<Entry>, n: nat, now: Time, s: IpAddr, t: Time)
    requires n < |entries|
    ensures SomeDrops(entries, n + 1, now, s, t) <==>
            || SomeDrops(entries, n, now, s, t)
            || (entries[n].address == s && Drops(entries[n].ttlMs, now, t))
  {
  }

  lemma MergesNext(merged: map<IpAddr, nat>, entries: seq<Entry>, n: nat)
    requires n < |entries| && Merges(merged, entries, n)
    ensures Merges(MergeOne(merged, entries[n]), entries, n + 1)
  {
    var e, after := entries[n], MergeOne(merged, entries[n]);
    forall s, now, t | s in after
      ensures Drops(after[s], now, t) <==> SomeDrops(entries, n + 1, now, s, t)
    {
      DropsNext(entries, n, now, s, t);
      if s == e.address && s in merged {
        LongerDropsBoth(merged[s], e.ttlMs, now, t);
      } else if s == e.address {
        assert !SomeDrops(entries, n, now, s, t);
      }
    }
    forall s | s in after ensures exists i :: 0 <= i < n + 1 && entries[i] == Entry(s, after[s]) {
      if s in merged && after[s] == merged[s] {
        var i :| 0 <= i < n && entries[i] == Entry(s, merged[s]);
      } else {
        assert entries[n] == Entry(s, after[s]);
      }
    }
    forall s ensures s in after <==> exists i :: 0 <= i < n + 1 && entries[i].address == s {
      if s == e.address {
        assert entries[n].address == s;
      }
    }
  }

  /** `replay_set`: at every instant, the one element of an address drops it exactly when the auto-ban or some
      blocklist entry of that address would on its own; for good, if one of them is. */
  method ReplaySet(autoBans: seq<AutoBan>, blocklist: seq<Listed>) returns (merged: map<IpAddr, nat>)
    ensures Merges(merged, Entries(autoBans, blocklist), |Entries(autoBans, blocklist)|)
  {
    var entries := Entries(autoBans, blocklist);
    merged := map[];
    for i := 0 to |entries|
      invariant Merges(merged, entries, i)
    {
      MergesNext(merged, entries, i);
      merged := MergeOne(merged, entries[i]);
    }
  }

  /** So the order the entries come in does not matter. */
  lemma MergeIsUnique(a: map<IpAddr, nat>, b: map<IpAddr, nat>, xs: seq<Entry>, ys: seq<Entry>)
    requires Merges(a, xs, |xs|) && Merges(b, ys, |ys|) && multiset(xs) == multiset(ys)
    ensures a == b
  {
    SameEntries(xs, ys);
    SameEntries(ys, xs);
    forall s ensures s in a <==> s in b {
      if s in a {
        var i :| 0 <= i < |xs| && xs[i].address == s;
        assert xs[i] in ys;
      }
      if s in b {
        var i :| 0 <= i < |ys| && ys[i].address == s;
        assert ys[i] in xs;
      }
    }
    forall s | s in a ensures a[s] == b[s] {
      LongestIsUnique(a, b, xs, ys, s);
      LongestIsUnique(b, a, ys, xs, s);
    }
  }

  lemma SameEntries(xs: seq<Entry>, ys: seq<Entry>)
    requires multiset(xs) == multiset(ys)
    ensures forall e :: e in xs ==> e in ys
  {
    forall e | e in xs ensures e in ys {
      assert e in multiset(xs);
    }
  }

  predicate NoLonger(a: nat, b: nat) {
    b == 0 || (a != 0 && a <= b)
  }

  /** No entry of an address outlives its element. */
  lemma LongestIsUnique(a: map<IpAddr, nat>, b: map<IpAddr, nat>, xs: seq<Entry>, ys: seq<Entry>, s: IpAddr)
    requires Merges(a, xs, |xs|) && Merges(b, ys, |ys|) && s in a && s in b
    requires forall e :: e in xs ==> e in ys
    ensures NoLonger(a[s], b[s])
  {
    var i :| 0 <= i < |xs| && xs[i] == Entry(s, a[s]);
    assert xs[i] in ys;
    var j :| 0 <= j < |ys| && ys[j] == xs[i];
    if !NoLonger(a[s], b[s]) {
      var t := b[s] * MILLISECOND;
      assert Drops(ys[j].ttlMs, 0, t) by {
        assert a[s] == 0 || a[s] * MILLISECOND > t;
      }
      assert SomeDrops(ys, |ys|, 0, s, t);
      assert false;
    }
  }

  /** A live ban is entered for as long as the rounded refill arms it, where its milliseconds fit the field. */
  lemma AutoBanIsRefilled(ban: AutoBan, now: Time)
    requires 0 < ban.remaining <= U64_MAX * MILLISECOND
    ensures ElementOf(TimedMs(ban.remaining), now) == Armed(now, RoundedTtl(ban.remaining))
  {
  }
}
