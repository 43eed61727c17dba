/**
 recipient_sibling_proofs: the bounded window of entries that other byte recipes prove,
 and the cut of every donor stream that precedes it.
 */
module SiblingProofs {
  import opened Prelude
  import opened Sorting
  import opened Manifest

  /** Everything any of the streams offers. */
  function Pool(streams: seq<seq<int>>): set<int> {
    set s, x | s in streams && x in s :: x
  }

  predicate Covered(x: int, authority: set<int>) { Phys(x) in authority }

  /** The offers that no authority already covers. */
  function Eligible(streams: seq<seq<int>>, authority: set<int>): set<int> {
    set x | x in Pool(streams) && !Covered(x, authority)
  }

  /** The `limit` smallest members. */
  function Smallest(e: set<int>, limit: nat): seq<int> {
    Sorted(e)[..Min(limit, |Sorted(e)|)]
  }

  /** An increasing list of members below all other members is the start of the sorted set. */
  lemma LeastPrefix(e: set<int>, n: seq<int>)
    requires Increasing(n) && ToSet(n) <= e
    requires forall x, y :: x in n && y in e && y !in n ==> x < y
    ensures |n| <= |Sorted(e)| && Sorted(e)[..|n|] == n
  {
    var rest := Sorted(e - ToSet(n));
    var all := n + rest;
    assert ToSet(all) == e by {
      forall x ensures x in all <==> x in e {
        assert x in n <==> x in ToSet(n);
        assert x in rest <==> x in ToSet(rest);
      }
    }
    forall i, j | 0 <= i < j < |all| ensures all[i] < all[j] {
      if i < |n| <= j {
        assert all[i] in n && all[j] in rest && all[j] in ToSet(rest);
      }
    }
    IncreasingUnique(all, Sorted(e));
  }

  // ---- The heap merge ----------------------------------------------------

  ghost predicate HeadsFit(streams: seq<seq<int>>, heads: seq<nat>) {
    |heads| == |streams| && forall i :: 0 <= i < |streams| ==> heads[i] <= |streams[i]|
  }

  /** Streams consumed in ascending order up to their heads. */
  ghost predicate Merging(streams: seq<seq<int>>, heads: seq<nat>, consumed: set<int>) {
    && HeadsFit(streams, heads)
    && (forall i, j :: 0 <= i < |streams| && 0 <= j < heads[i] ==> streams[i][j] in consumed)
    && consumed <= Pool(streams)
    && (forall x, i, j :: x in consumed && 0 <= i < |streams| && heads[i] <= j < |streams[i]| ==> x <= streams[i][j])
  }

  predicate AllIncreasing(streams: seq<seq<int>>) {
    forall s :: s in streams ==> Increasing(s)
  }

  /** The stream whose head is smallest, if any stream is left. */
  method SmallestHead(streams: seq<seq<int>>, heads: seq<nat>) returns (best: Option<nat>)
    requires HeadsFit(streams, heads)
    ensures best.None? ==> forall i :: 0 <= i < |streams| ==> heads[i] == |streams[i]|
    ensures best.Some? ==>
      && best.value < |streams| && heads[best.value] < |streams[best.value]|
      && forall i :: 0 <= i < |streams| && heads[i] < |streams[i]| ==>
           streams[best.value][heads[best.value]] <= streams[i][heads[i]]
  {
    best := None;
    for n := 0 to |streams|
      invariant best.None? ==> forall i :: 0 <= i < n ==> heads[i] == |streams[i]|
      invariant best.Some? ==>
        && best.value < n && heads[best.value] < |streams[best.value]|
        && forall i :: 0 <= i < n && heads[i] < |streams[i]| ==>
             streams[best.value][heads[best.value]] <= streams[i][heads[i]]
    {
      if heads[n] < |streams[n]| && (best.None? || streams[n][heads[n]] < streams[best.value][heads[best.value]]) {
        best := Some(n);
      }
    }
  }

  lemma MergeStep(streams: seq<seq<int>>, heads: seq<nat>, consumed: set<int>, b: nat)
    requires Merging(streams, heads, consumed) && AllIncreasing(streams)
    requires b < |streams| && heads[b] < |streams[b]|
    requires forall i :: 0 <= i < |streams| && heads[i] < |streams[i]| ==> streams[b][heads[b]] <= streams[i][heads[i]]
    ensures var e := streams[b][heads[b]];
      Merging(streams, heads[b := heads[b] + 1], consumed + {e}) && forall x :: x in consumed ==> x <= e
  {
    var e := streams[b][heads[b]];
    var next := heads[b := heads[b] + 1];
    assert streams[b] in streams && e in streams[b];
    forall i, j | 0 <= i < |streams| && next[i] <= j < |streams[i]| ensures e <= streams[i][j] {
      assert streams[i] in streams && Increasing(streams[i]);
      assert streams[i][heads[i]] <= streams[i][j];
    }
  }

  lemma MergeDone(streams: seq<seq<int>>, heads: seq<nat>, consumed: set<int>)
    requires Merging(streams, heads, consumed) && forall i :: 0 <= i < |streams| ==> heads[i] == |streams[i]|
    ensures consumed == Pool(streams)
  {
    forall x | x in Pool(streams) ensures x in consumed {
      var s :| s in streams && x in s;
      var i :| 0 <= i < |streams| && streams[i] == s;
      var j :| 0 <= j < |s| && s[j] == x;
      assert streams[i][j] in consumed;
    }
  }

  ghost predicate Nominating(nominated: seq<int>, consumed: set<int>, authority: set<int>, limit: nat) {
    && Increasing(nominated) && |nominated| <= limit
    && forall x :: x in nominated <==> x in consumed && !Covered(x, authority)
  }

  /** What is nominated so far is the start of the eligible entries. */
  lemma NominatedIsPrefix(streams: seq<seq<int>>, heads: seq<nat>, consumed: set<int>,
                          nominated: seq<int>, authority: set<int>, limit: nat)
    requires Merging(streams, heads, consumed) && Nominating(nominated, consumed, authority, limit)
    requires AllIncreasing(streams)
    ensures var e := Eligible(streams, authority);
      |nominated| <= |Sorted(e)| && Sorted(e)[..|nominated|] == nominated
  {
    var e := Eligible(streams, authority);
    forall x, y | x in nominated && y in e && y !in nominated ensures x < y {
      var s :| s in streams && y in s;
      var i :| 0 <= i < |streams| && streams[i] == s;
      var j :| 0 <= j < |s| && s[j] == y;
      assert y !in consumed;
      assert heads[i] <= j;
      assert x <= streams[i][j];
    }
    forall x | x in nominated ensures x in e {
      assert x in consumed;
    }
    LeastPrefix(e, nominated);
  }

  /** Someone among the keys other than the recipient offers the entry. */
  predicate Offered(donors: map<int, seq<int>>, recipient: int, keys: set<int>, x: int) {
    exists k :: k in keys && k in donors && k != recipient && x in donors[k]
  }

  ghost predicate PoolOf(streams: seq<seq<int>>, donors: map<int, seq<int>>, recipient: int, keys: set<int>) {
    && AllIncreasing(streams) && (forall s :: s in streams ==> s != [])
    && forall x :: x in Pool(streams) <==> Offered(donors, recipient, keys, x)
  }

  lemma PoolGrows(streams: seq<seq<int>>, donors: map<int, seq<int>>, recipient: int, keys: set<int>, k: int)
    requires PoolOf(streams, donors, recipient, keys) && k in donors && Increasing(donors[k])
    ensures PoolOf(if k != recipient && donors[k] != [] then streams + [donors[k]] else streams, donors, recipient, keys + {k})
  {
    var more := if k != recipient && donors[k] != [] then streams + [donors[k]] else streams;
    forall x ensures x in Pool(more) <==> Offered(donors, recipient, keys + {k}, x) {
      assert x in Pool(streams) <==> Offered(donors, recipient, keys, x);
      if x in donors[k] && k != recipient { assert donors[k] in more; }
    }
  }

  /** The streams of every recipe but the recipient's, in recipe order, without the empty ones. */
  method OtherStreams(donors: map<int, seq<int>>, recipient: int) returns (streams: seq<seq<int>>)
    requires forall k :: k in donors ==> Increasing(donors[k])
    ensures PoolOf(streams, donors, recipient, donors.Keys)
  {
    var keys := Sorted(donors.Keys);
    streams := [];
    for n := 0 to |keys|
      invariant PoolOf(streams, donors, recipient, ToSet(keys[..n]))
    {
      var k := keys[n];
      NextItem(keys, n);
      PoolGrows(streams, donors, recipient, ToSet(keys[..n]), k);
      if k != recipient && donors[k] != [] {
        streams := streams + [donors[k]];
      }
    }
    assert keys[..|keys|] == keys;
  }

  function Offers(donors: map<int, seq<int>>, recipient: int): set<int> {
    set k, x | k in donors && k != recipient && x in donors[k] :: x
  }

  /** What the other recipes offer and no authority covers. */
  function EligibleOffers(donors: map<int, seq<int>>, recipient: int, authority: set<int>): set<int> {
    set x | x in Offers(donors, recipient) && !Covered(x, authority)
  }

  /** recipient_sibling_proofs */
  method RecipientSiblingProofs(donors: map<int, seq<int>>, recipient: int, authority: set<int>, limit: int)
    returns (nominated: seq<int>, truncated: bool)
    requires forall k :: k in donors ==> Increasing(donors[k])
    ensures nominated == Smallest(EligibleOffers(donors, recipient, authority), if limit < 0 then 0 else limit)
    ensures limit > 0 ==> (truncated <==> |EligibleOffers(donors, recipient, authority)| > limit)
    ensures limit <= 0 ==> (truncated <==> Offers(donors, recipient) != {})
  {
    var streams := OtherStreams(donors, recipient);
    ghost var e := EligibleOffers(donors, recipient, authority);
    forall x ensures x in Pool(streams) <==> x in Offers(donors, recipient) {
      assert x in Pool(streams) <==> Offered(donors, recipient, donors.Keys, x);
    }
    assert Eligible(streams, authority) == e;
    PoolEmpty(streams);
    if streams == [] || limit <= 0 {
      return [], streams != [];
    }
    nominated := [];
    var previous: Option<int> := None;
    var heads: seq<nat> := seq(|streams|, i => 0);
    ghost var consumed: set<int> := {};
    while true
      invariant Merging(streams, heads, consumed) && Tracks(previous, consumed)
      invariant Nominating(nominated, consumed, authority, limit)
      decreases Total(streams, heads)
    {
      var best := SmallestHead(streams, heads);
      NominatedIsPrefix(streams, heads, consumed, nominated, authority, limit);
      if best.None? {
        AllNominated(streams, heads, consumed, nominated, authority, limit);
        return nominated, false;
      }
      var b := best.value;
      var entry := streams[b][heads[b]];
      TakeStep(streams, heads, consumed, previous, b);
      TotalStep(streams, heads, b);
      heads := heads[b := heads[b] + 1];
      if previous == Some(entry) {
        continue;
      }
      ghost var before := consumed;
      consumed := consumed + {entry};
      previous := Some(entry);
      if Covered(entry, authority) {
        continue;
      }
      if |nominated| >= limit {
        assert entry in ToSet(Sorted(e));
        Overflow(Sorted(e), nominated, entry);
        return nominated, true;
      }
      NominateStep(nominated, before, authority, limit, entry);
      nominated := nominated + [entry];
    }
  }

  lemma PoolEmpty(streams: seq<seq<int>>)
    requires forall s :: s in streams ==> s != []
    ensures Pool(streams) == {} <==> streams == []
  {
    if streams != [] {
      var s := streams[0];
      assert s in streams && s != [];
      var x := s[0];
      assert x in s;
      assert x in Pool(streams);
    }
  }

  /** `previous` is the last entry taken. */
  ghost predicate Tracks(previous: Option<int>, consumed: set<int>) {
    && (previous.None? ==> consumed == {})
    && (previous.Some? ==> previous.value in consumed && forall x :: x in consumed ==> x <= previous.value)
  }

  /** Taking the smallest head either repeats the last entry or goes above everything taken. */
  lemma TakeStep(streams: seq<seq<int>>, heads: seq<nat>, consumed: set<int>, previous: Option<int>, b: nat)
    requires Merging(streams, heads, consumed) && AllIncreasing(streams) && Tracks(previous, consumed)
    requires b < |streams| && heads[b] < |streams[b]|
    requires forall i :: 0 <= i < |streams| && heads[i] < |streams[i]| ==> streams[b][heads[b]] <= streams[i][heads[i]]
    ensures var e, next := streams[b][heads[b]], heads[b := heads[b] + 1];
      && (previous == Some(e) ==> Merging(streams, next, consumed))
      && (previous != Some(e) ==> && Merging(streams, next, consumed + {e}) && Tracks(Some(e), consumed + {e})
                                  && forall x :: x in consumed ==> x < e)
      && e in Pool(streams)
  {
    var e := streams[b][heads[b]];
    MergeStep(streams, heads, consumed, b);
    if previous == Some(e) {
      assert consumed + {e} == consumed;
    }
    assert e in consumed + {e};
  }

  lemma NominateStep(nominated: seq<int>, consumed: set<int>, authority: set<int>, limit: nat, entry: int)
    requires Nominating(nominated, consumed, authority, limit) && |nominated| < limit
    requires !Covered(entry, authority) && forall x :: x in consumed ==> x < entry
    ensures Nominating(nominated + [entry], consumed + {entry}, authority, limit)
  {
    forall i | 0 <= i < |nominated| ensures nominated[i] < entry {
      assert nominated[i] in nominated;
    }
  }

  lemma AllNominated(streams: seq<seq<int>>, heads: seq<nat>, consumed: set<int>,
                     nominated: seq<int>, authority: set<int>, limit: nat)
    requires Merging(streams, heads, consumed) && forall i :: 0 <= i < |streams| ==> heads[i] == |streams[i]|
    requires Nominating(nominated, consumed, authority, limit)
    ensures nominated == Smallest(Eligible(streams, authority), limit) && |Eligible(streams, authority)| <= limit
  {
    MergeDone(streams, heads, consumed);
    IncreasingSize(nominated);
    var e := Eligible(streams, authority);
    assert ToSet(nominated) == e;
    IncreasingUnique(nominated, Sorted(e));
  }

  lemma Overflow(r: seq<int>, nominated: seq<int>, entry: int)
    requires entry in r && entry !in nominated && |nominated| <= |r| && r[..|nominated|] == nominated
    ensures |nominated| < |r|
  {
    var n :| 0 <= n < |r| && r[n] == entry;
    forall m | 0 <= m < |nominated| ensures r[m] in nominated {
      assert r[m] == r[..|nominated|][m];
    }
  }

  /** Entries not yet consumed. */
  ghost function Total(streams: seq<seq<int>>, heads: seq<nat>): nat
    requires HeadsFit(streams, heads)
  {
    if streams == [] then 0
    else |streams[0]| - heads[0] + Total(streams[1..], heads[1..])
  }

  lemma {:induction false} TotalStep(streams: seq<seq<int>>, heads: seq<nat>, b: nat)
    requires HeadsFit(streams, heads) && b < |streams| && heads[b] < |streams[b]|
    ensures HeadsFit(streams, heads[b := heads[b] + 1])
    ensures Total(streams, heads[b := heads[b] + 1]) < Total(streams, heads)
    decreases b
  {
    var next := heads[b := heads[b] + 1];
    if b == 0 {
      assert next[1..] == heads[1..];
    } else {
      TotalStep(streams[1..], heads[1..], b - 1);
      assert next[1..] == heads[1..][b - 1 := heads[1..][b - 1] + 1];
    }
  }

  // ---- The cut before the merge ------------------------------------------

  function Cut(stream: seq<int>, limit: nat): seq<int> {
    stream[..Min(limit, |stream|)]
  }

  function CutDonors(donors: map<int, seq<int>>, limit: nat): map<int, seq<int>> {
    map k | k in donors :: Cut(donors[k], limit)
  }

  predicate CanonicalEntry(x: int) { 0x8000_0000 <= x < 0xA000_0000 }

  /** An entry beyond the cut has enough smaller eligible entries in its own stream to fill the window. */
  lemma BeyondTheCut(stream: seq<int>, authority: set<int>, bound: nat, limit: nat, j: nat)
    requires Increasing(stream) && (forall x :: x in stream ==> CanonicalEntry(x)) && |authority| <= bound
    requires bound + limit <= j < |stream|
    ensures |set x | x in stream && x < stream[j] && !Covered(x, authority)| >= limit
  {
    var smaller := ToSet(stream[..j]);
    var covered := set x | x in smaller && Covered(x, authority);
    var free := set x | x in stream && x < stream[j] && !Covered(x, authority);
    IncreasingSize(stream[..j]);
    assert Injects(covered, authority, Phys) by {
      forall x, y | x in covered && y in covered && Phys(x) == Phys(y) ensures x == y {
        assert x in stream && y in stream;
      }
    }
    InjectionSize(covered, authority, Phys);
    assert free == smaller - covered by {
      forall x | x in free ensures x in smaller {
        var i :| 0 <= i < |stream| && stream[i] == x;
        assert i < j;
        assert stream[..j][i] == x;
      }
    }
    assert covered <= smaller;
  }

  lemma SmallestHasRoom(e: set<int>, limit: nat, below: set<int>, x: int)
    requires x in Smallest(e, limit) && below <= e && forall y :: y in below ==> y < x
    ensures |below| < limit
  {
    var r := Sorted(e);
    var i :| 0 <= i < |Smallest(e, limit)| && Smallest(e, limit)[i] == x;
    assert r[i] == x;
    assert below <= ToSet(r[..i]) by {
      forall y | y in below ensures y in r[..i] {
        assert y in ToSet(r);
        var n :| 0 <= n < |r| && r[n] == y;
        assert n < i;
        assert r[..i][n] == y;
      }
    }
    SubsetSize(below, ToSet(r[..i]));
    IncreasingSize(r[..i]);
  }

  /** The window lies below everything else. */
  lemma WindowIsBelow(e: set<int>, limit: nat, x: int, y: int)
    requires x in Smallest(e, limit) && y in e && y !in Smallest(e, limit)
    ensures x < y
  {
    var w, r := Smallest(e, limit), Sorted(e);
    var i :| 0 <= i < |w| && w[i] == x;
    assert y in ToSet(r);
    var n :| 0 <= n < |r| && r[n] == y;
    assert forall m :: 0 <= m < |w| ==> w[m] == r[m] && w[m] in w;
    assert r[i] == x && n >= |w|;
  }

  lemma WholeWindow(e: set<int>, f: set<int>, limit: nat)
    requires f <= e && |Smallest(e, limit)| < limit && forall x :: x in Smallest(e, limit) ==> x in f
    ensures f == e
  {
    assert Smallest(e, limit) == Sorted(e);
    forall x | x in e ensures x in f {
      assert x in ToSet(Sorted(e));
    }
  }

  /** Dropping members outside the window does not change the window. */
  lemma WindowSurvives(e: set<int>, f: set<int>, limit: nat)
    requires f <= e && forall x :: x in Smallest(e, limit) ==> x in f
    ensures Smallest(f, limit) == Smallest(e, limit)
  {
    var w := Smallest(e, limit);
    if |w| < limit {
      WholeWindow(e, f, limit);
    } else {
      forall x, y | x in w && y in f && y !in w ensures x < y {
        WindowIsBelow(e, limit, x, y);
      }
      LeastPrefix(f, w);
    }
  }

  /** Cutting every sorted stream to the authority bound plus the limit leaves the window unchanged. */
  lemma CutKeepsWindow(donors: map<int, seq<int>>, recipient: int, authority: set<int>, bound: nat, limit: nat)
    requires forall k :: k in donors ==> Increasing(donors[k]) && forall x :: x in donors[k] ==> CanonicalEntry(x)
    requires |authority| <= bound
    ensures Smallest(EligibleOffers(CutDonors(donors, bound + limit), recipient, authority), limit)
         == Smallest(EligibleOffers(donors, recipient, authority), limit)
  {
    var cut := CutDonors(donors, bound + limit);
    var e, f := EligibleOffers(donors, recipient, authority), EligibleOffers(cut, recipient, authority);
    assert f <= e by {
      forall x | x in f ensures x in e {
        var k :| k in cut && k != recipient && x in cut[k];
        assert x in donors[k];
      }
    }
    forall x | x in Smallest(e, limit) ensures x in f {
      KeptByCut(donors, recipient, authority, bound, limit, x);
    }
    WindowSurvives(e, f, limit);
  }

  lemma KeptByCut(donors: map<int, seq<int>>, recipient: int, authority: set<int>, bound: nat, limit: nat, x: int)
    requires forall k :: k in donors ==> Increasing(donors[k]) && forall x :: x in donors[k] ==> CanonicalEntry(x)
    requires |authority| <= bound && x in Smallest(EligibleOffers(donors, recipient, authority), limit)
    ensures x in EligibleOffers(CutDonors(donors, bound + limit), recipient, authority)
  {
    var e := EligibleOffers(donors, recipient, authority);
    assert x in ToSet(Sorted(e));
    var k :| k in donors && k != recipient && x in donors[k];
    var s := donors[k];
    var j :| 0 <= j < |s| && s[j] == x;
    if j >= bound + limit {
      var below := set y | y in s && y < s[j] && !Covered(y, authority);
      BeyondTheCut(s, authority, bound, limit, j);
      assert below <= e;
      SmallestHasRoom(e, limit, below, x);
    } else {
      var cut := CutDonors(donors, bound + limit);
      assert Cut(s, bound + limit)[j] == x;
      assert x in cut[k];
    }
  }
}
