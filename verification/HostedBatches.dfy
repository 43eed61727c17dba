/**
 compile_batched_hosted_aliases: grouping by host, chunking under the batch caps, and
 the retry and bisection of failed batches.  Every callback is an arbitrary function of
 the number of callbacks made before it, so nothing is assumed about its behaviour.
 */
module HostedBatches {
  import opened Prelude
  import opened Sorting
  import opened Manifest

  const BATCH_HOST_CAP := 64
  const BATCH_ALIAS_CAP := 256
  const SELECTED_ALIAS_CAP := 4096
  const ATTEMPT_CAP := 2 * SELECTED_ALIAS_CAP - 1

  /** A host with the rank of its owner identity and reason among all such pairs. */
  datatype Key = Key(host: int, owner: int)

  /** Targets that share one host and one owner identity. */
  datatype Group = Group(key: Key, targets: seq<int>)

  function Total(groups: seq<Group>): nat {
    if groups == [] then 0 else Total(groups[..|groups|-1]) + |groups[|groups|-1].targets|
  }

  lemma {:induction false} TotalConcat(a: seq<Group>, b: seq<Group>)
    ensures Total(a + b) == Total(a) + Total(b)
    decreases |b|
  {
    if b == [] {
      assert a + b == a;
    } else {
      TotalConcat(a, b[..|b|-1]);
      assert (a + b)[..|a+b|-1] == a + b[..|b|-1];
    }
  }

  lemma TotalOne(g: Group)
    ensures Total([g]) == |g.targets|
  {
    assert [g][..0] == [];
  }

  lemma TotalSnoc(groups: seq<Group>, g: Group)
    ensures Total(groups + [g]) == Total(groups) + |g.targets|
  {
    assert (groups + [g])[..|groups|] == groups;
  }

  lemma {:induction false} TotalAtLeast(groups: seq<Group>)
    requires forall g :: g in groups ==> g.targets != []
    ensures Total(groups) >= |groups|
    decreases |groups|
  {
    if groups != [] {
      assert groups[|groups|-1] in groups;
      TotalAtLeast(groups[..|groups|-1]);
    }
  }

  /** `2n - 1` compiles for `n` targets, none for none. */
  function Budget(n: nat): nat {
    if n == 0 then 0 else 2 * n - 1
  }

  function TargetsOf(groups: seq<Group>): set<int> {
    set g, t | g in groups && t in g.targets :: t
  }

  /** What a compile request must look like. */
  predicate Batch(groups: seq<Group>) {
    && |groups| <= BATCH_HOST_CAP
    && Total(groups) <= BATCH_ALIAS_CAP
    && (forall g :: g in groups ==> g.targets != [] && Increasing(g.targets))
    && StrictHosts(groups)
  }

  // ---- Grouping ----------------------------------------------------------

  function CanonicalTargets(hosted: map<int, Key>, key: Key): set<int> {
    set t | t in hosted && hosted[t] == key :: Canonical(t)
  }

  function Raw(hosted: map<int, Key>, keys: set<Key>): set<int> {
    set t | t in hosted && hosted[t] in keys
  }

  predicate AllBelow(a: seq<int>, b: seq<int>) { forall x, y :: x in a && y in b ==> x < y }

  /** In the order of keys; of two pieces of one key the earlier is full and holds the smaller targets. */
  predicate Precedes(g: Group, h: Group) {
    KeyBelow(g.key, h.key) || (g.key == h.key && |g.targets| == 256 && AllBelow(g.targets, h.targets))
  }

  predicate KeyBelow(k: Key, key: Key) { k.host < key.host || (k.host == key.host && k.owner < key.owner) }

  predicate InOrder(groups: seq<Group>) {
    forall i, j :: 0 <= i < j < |groups| ==> Precedes(groups[i], groups[j])
  }

  lemma PieceFollows(key: Key, targets: seq<int>, groups: seq<Group>, offset: nat, end: nat)
    requires Increasing(targets) && offset < end <= |targets| && InOrder(groups)
    requires forall g :: g in groups ==> g.key == key && |g.targets| == 256
    requires TargetsOf(groups) == ToSet(targets[..offset])
    ensures InOrder(groups + [Group(key, targets[offset..end])])
    ensures Increasing(targets[offset..end])
  {
    var piece := Group(key, targets[offset..end]);
    forall g | g in groups ensures Precedes(g, piece) {
      forall x, y | x in g.targets && y in piece.targets ensures x < y {
        assert x in TargetsOf(groups);
        assert x in targets[..offset];
      }
    }
  }

  /** Pieces of the alias cap, in order, and what is left over as the last. */
  method Split(key: Key, targets: seq<int>) returns (groups: seq<Group>)
    requires Increasing(targets)
    ensures Total(groups) == |targets|
    ensures SmallGroups(groups) && InOrder(groups) && forall g :: g in groups ==> g.key == key
    ensures TargetsOf(groups) == ToSet(targets)
  {
    groups := [];
    var offset := 0;
    while offset < |targets|
      invariant 0 <= offset <= |targets|
      invariant Total(groups) == offset
      invariant SmallGroups(groups) && InOrder(groups) && forall g :: g in groups ==> g.key == key
      invariant offset < |targets| ==> forall g :: g in groups ==> |g.targets| == 256
      invariant TargetsOf(groups) == ToSet(targets[..offset])
    {
      var end := Min(offset + BATCH_ALIAS_CAP, |targets|);
      var g := Group(key, targets[offset..end]);
      TotalConcat(groups, [g]);
      TotalOne(g);
      PieceFollows(key, targets, groups, offset, end);
      assert targets[..end] == targets[..offset] + g.targets;
      TargetsSnoc(groups, g);
      groups := groups + [g];
      offset := end;
    }
    assert targets[..offset] == targets;
  }

  predicate ByHost(groups: seq<Group>) {
    forall i, j :: 0 <= i < j < |groups| ==> groups[i].key.host <= groups[j].key.host
  }

  predicate SmallGroups(groups: seq<Group>) {
    forall g :: g in groups ==> 0 < |g.targets| <= BATCH_ALIAS_CAP && Increasing(g.targets)
  }

  function CanonicalSet(raw: set<int>): set<int> {
    set t | t in raw :: Canonical(t)
  }

  lemma {:induction false} CanonicalSetSize(raw: set<int>)
    ensures |CanonicalSet(raw)| <= |raw|
    decreases raw
  {
    if raw == {} {
      assert CanonicalSet(raw) == {};
    } else {
      var x := Witness(raw);
      CanonicalSetSize(raw - {x});
      assert CanonicalSet(raw) == CanonicalSet(raw - {x}) + {Canonical(x)};
    }
  }

  lemma KeyCost(hosted: map<int, Key>, done: set<Key>, key: Key)
    requires key !in done
    ensures |Raw(hosted, done)| + |CanonicalTargets(hosted, key)| <= |Raw(hosted, done + {key})|
  {
    var mine := set t | t in hosted && hosted[t] == key;
    CanonicalSetSize(mine);
    assert CanonicalTargets(hosted, key) == CanonicalSet(mine);
    assert Raw(hosted, done) !! mine;
    assert Raw(hosted, done + {key}) == Raw(hosted, done) + mine;
  }

  /** Every target of the group was asked for under the group's own key. */
  predicate Backed(hosted: map<int, Key>, g: Group) { forall x :: x in g.targets ==> x in CanonicalTargets(hosted, g.key) }

  predicate AllBacked(hosted: map<int, Key>, groups: seq<Group>) { forall g :: g in groups ==> Backed(hosted, g) }

  predicate InGroup(groups: seq<Group>, key: Key, x: int) { exists g :: g in groups && g.key == key && x in g.targets }

  ghost predicate Grouped(hosted: map<int, Key>, done: set<Key>, groups: seq<Group>) {
    && InOrder(groups) && SmallGroups(groups)
    && Total(groups) <= |Raw(hosted, done)|
    && (forall g :: g in groups ==> g.key in done) && AllBacked(hosted, groups)
    && (forall t :: t in hosted && hosted[t] in done ==> InGroup(groups, hosted[t], Canonical(t)))
  }

  lemma GroupStep(hosted: map<int, Key>, done: set<Key>, groups: seq<Group>, key: Key, more: seq<Group>)
    requires Grouped(hosted, done, groups)
    requires forall k :: k in done ==> KeyBelow(k, key)
    requires Total(more) == |CanonicalTargets(hosted, key)| && TargetsOf(more) == CanonicalTargets(hosted, key)
    requires SmallGroups(more) && InOrder(more) && forall g :: g in more ==> g.key == key
    ensures Grouped(hosted, done + {key}, groups + more)
  {
    TotalConcat(groups, more);
    KeyCost(hosted, done, key);
    var all := groups + more;
    forall i, j | 0 <= i < j < |all| ensures Precedes(all[i], all[j]) {
      assert all[i] in groups || all[i] in more;
      assert all[j] in groups || all[j] in more;
      if i < |groups| <= j { assert all[i] in groups && all[j] in more; }
      if i >= |groups| { assert all[i] in more && all[j] in more; }
    }
    forall g | g in all ensures Backed(hosted, g) {
      if g in more {
        forall x | x in g.targets ensures x in TargetsOf(more) {}
      }
    }
    forall t | t in hosted && hosted[t] in done + {key} ensures InGroup(all, hosted[t], Canonical(t)) {
      if hosted[t] == key {
        assert Canonical(t) in TargetsOf(more);
        var g :| g in more && Canonical(t) in g.targets;
        assert g in all;
      } else {
        var g :| g in groups && g.key == hosted[t] && Canonical(t) in g.targets;
        assert g in all;
      }
    }
  }

  function HostsOf(hosted: map<int, Key>): set<int> {
    set t | t in hosted :: hosted[t].host
  }

  function OwnersOf(hosted: map<int, Key>, host: int): set<int> {
    set t | t in hosted && hosted[t].host == host :: hosted[t].owner
  }

  /** The groups of one key, after those of smaller keys. */
  method GroupKey(hosted: map<int, Key>, key: Key, groups: seq<Group>, ghost done: set<Key>) returns (all: seq<Group>)
    requires Grouped(hosted, done, groups) && forall k :: k in done ==> KeyBelow(k, key)
    ensures Grouped(hosted, done + {key}, all)
  {
    var targets := Sorted(CanonicalTargets(hosted, key));
    var more := Split(key, targets);
    GroupStep(hosted, done, groups, key, more);
    all := groups + more;
  }

  /** Exactly the keys of smaller hosts and of the first `j` owners of this one are done. */
  ghost predicate OwnersDone(now: set<Key>, done: set<Key>, host: int, owners: seq<int>, j: nat)
    requires j <= |owners|
  {
    && done <= now && (forall n :: 0 <= n < j ==> Key(host, owners[n]) in now)
    && forall k :: k in now ==> k in done || (k.host == host && exists n :: 0 <= n < j && owners[n] == k.owner)
  }

  lemma OwnerNext(now: set<Key>, done: set<Key>, host: int, owners: seq<int>, j: nat)
    requires j < |owners| && OwnersDone(now, done, host, owners, j)
    requires Increasing(owners) && forall k :: k in done ==> k.host < host
    ensures forall k :: k in now ==> KeyBelow(k, Key(host, owners[j]))
    ensures OwnersDone(now + {Key(host, owners[j])}, done, host, owners, j + 1)
  {
  }

  lemma AllOwners(hosted: map<int, Key>, now: set<Key>, done: set<Key>, host: int)
    requires var owners := Sorted(OwnersOf(hosted, host)); OwnersDone(now, done, host, owners, |owners|)
    ensures forall t :: t in hosted && hosted[t].host == host ==> hosted[t] in now
  {
    var owners := Sorted(OwnersOf(hosted, host));
    forall t | t in hosted && hosted[t].host == host ensures hosted[t] in now {
      OwnerListed(hosted, host, t);
      var n :| 0 <= n < |owners| && owners[n] == hosted[t].owner;
      assert Key(host, owners[n]) == hosted[t];
    }
  }

  /** All groups of one host, after every smaller host. */
  method GroupHost(hosted: map<int, Key>, host: int, groups: seq<Group>, ghost done: set<Key>)
    returns (all: seq<Group>, ghost now: set<Key>)
    requires Grouped(hosted, done, groups) && forall k :: k in done ==> k.host < host
    ensures Grouped(hosted, now, all) && done <= now
    ensures forall k :: k in now ==> k in done || k.host == host
    ensures forall t :: t in hosted && hosted[t].host == host ==> hosted[t] in now
  {
    all, now := groups, done;
    var owners := Sorted(OwnersOf(hosted, host));
    for j := 0 to |owners|
      invariant Grouped(hosted, now, all) && OwnersDone(now, done, host, owners, j)
    {
      OwnerNext(now, done, host, owners, j);
      all := GroupKey(hosted, Key(host, owners[j]), all, now);
      now := now + {Key(host, owners[j])};
    }
    AllOwners(hosted, now, done, host);
  }

  lemma OwnerListed(hosted: map<int, Key>, host: int, t: int)
    requires t in hosted && hosted[t].host == host
    ensures hosted[t].owner in Sorted(OwnersOf(hosted, host))
  {
    assert hosted[t].owner in OwnersOf(hosted, host);
    assert hosted[t].owner in ToSet(Sorted(OwnersOf(hosted, host)));
  }

  lemma HostListed(hosted: map<int, Key>, t: int)
    requires t in hosted
    ensures hosted[t].host in Sorted(HostsOf(hosted))
  {
    assert hosted[t].host in HostsOf(hosted);
    assert hosted[t].host in ToSet(Sorted(HostsOf(hosted)));
  }

  /** The groups of the first `i` hosts are made. */
  ghost predicate HostsDone(hosted: map<int, Key>, done: set<Key>, hosts: seq<int>, i: nat)
    requires i <= |hosts|
  {
    && (forall k :: k in done ==> k.host in hosts[..i])
    && (forall t :: t in hosted && hosted[t].host in hosts[..i] ==> hosted[t] in done)
  }

  lemma HostsStep(hosted: map<int, Key>, done: set<Key>, now: set<Key>, hosts: seq<int>, i: nat)
    requires i < |hosts| && HostsDone(hosted, done, hosts, i) && done <= now
    requires forall k :: k in now ==> k in done || k.host == hosts[i]
    requires forall t :: t in hosted && hosted[t].host == hosts[i] ==> hosted[t] in now
    ensures HostsDone(hosted, now, hosts, i + 1)
  {
    assert hosts[..i+1] == hosts[..i] + [hosts[i]];
  }

  lemma EarlierHosts(hosted: map<int, Key>, done: set<Key>, hosts: seq<int>, i: nat, k: Key)
    requires i < |hosts| && HostsDone(hosted, done, hosts, i) && Increasing(hosts) && k in done
    ensures k.host < hosts[i]
  {
    var n :| 0 <= n < i && hosts[..i][n] == k.host;
    assert hosts[n] == k.host;
  }

  lemma GroupedAll(hosted: map<int, Key>, done: set<Key>, groups: seq<Group>, hosts: seq<int>)
    requires Grouped(hosted, done, groups) && HostsDone(hosted, done, hosts, |hosts|)
    requires hosts == Sorted(HostsOf(hosted))
    ensures Total(groups) <= |hosted| && forall t :: t in hosted ==> InGroup(groups, hosted[t], Canonical(t))
  {
    assert hosts[..|hosts|] == hosts;
    forall t | t in hosted ensures InGroup(groups, hosted[t], Canonical(t)) {
      HostListed(hosted, t);
    }
    SubsetSize(Raw(hosted, done), hosted.Keys);
  }

  /** `by_host` in sorted key order, every group within the alias cap. */
  method GroupTargets(hosted: map<int, Key>) returns (groups: seq<Group>)
    ensures InOrder(groups) && SmallGroups(groups) && Total(groups) <= |hosted|
    ensures AllBacked(hosted, groups) && forall t :: t in hosted ==> InGroup(groups, hosted[t], Canonical(t))
  {
    groups := [];
    ghost var done: set<Key> := {};
    assert Raw(hosted, {}) == {};
    var hosts := Sorted(HostsOf(hosted));
    for i := 0 to |hosts|
      invariant Grouped(hosted, done, groups) && HostsDone(hosted, done, hosts, i)
    {
      forall k | k in done ensures k.host < hosts[i] {
        EarlierHosts(hosted, done, hosts, i, k);
      }
      ghost var before := done;
      groups, done := GroupHost(hosted, hosts[i], groups, done);
      HostsStep(hosted, before, done, hosts, i);
    }
    GroupedAll(hosted, done, groups, hosts);
  }

  // ---- Chunking ----------------------------------------------------------

  function Flatten(chunks: seq<seq<Group>>): seq<Group> {
    if chunks == [] then [] else Flatten(chunks[..|chunks|-1]) + chunks[|chunks|-1]
  }

  function SumOfBudgets(chunks: seq<seq<Group>>): nat {
    if chunks == [] then 0 else SumOfBudgets(chunks[..|chunks|-1]) + Budget(Total(chunks[|chunks|-1]))
  }

  lemma {:induction false} BudgetsAdd(chunks: seq<seq<Group>>)
    requires forall c :: c in chunks ==> Total(c) > 0
    ensures SumOfBudgets(chunks) <= Budget(Total(Flatten(chunks)))
    ensures chunks != [] ==> Total(Flatten(chunks)) > 0
    decreases |chunks|
  {
    if chunks != [] {
      var init, last := chunks[..|chunks|-1], chunks[|chunks|-1];
      assert last in chunks;
      BudgetsAdd(init);
      TotalConcat(Flatten(init), last);
    }
  }

  lemma StrictSnoc(chunk: seq<Group>, g: Group)
    requires StrictHosts(chunk) && (chunk != [] ==> chunk[|chunk|-1].key.host < g.key.host)
    ensures StrictHosts(chunk + [g])
  {
    var longer := chunk + [g];
    forall i, j | 0 <= i < j < |longer| ensures longer[i].key.host < longer[j].key.host {
      if j == |chunk| && i < j - 1 {
        assert chunk[i].key.host < chunk[j-1].key.host;
      }
    }
  }

  lemma BatchSnoc(chunk: seq<Group>, g: Group)
    requires Batch(chunk) && |chunk| < BATCH_HOST_CAP && Total(chunk) + |g.targets| <= BATCH_ALIAS_CAP
    requires g.targets != [] && Increasing(g.targets) && (chunk != [] ==> chunk[|chunk|-1].key.host < g.key.host)
    ensures Batch(chunk + [g])
  {
    TotalSnoc(chunk, g);
    StrictSnoc(chunk, g);
  }

  lemma FlattenSnoc(chunks: seq<seq<Group>>, chunk: seq<Group>)
    ensures Flatten(chunks + [chunk]) == Flatten(chunks) + chunk
  {
    assert (chunks + [chunk])[..|chunks|] == chunks;
  }

  /** A chunk ends only where the next group does not fit it: 64 hosts, more than 256 aliases, or the same host again. */
  predicate ClosedBy(chunk: seq<Group>, g: Group) {
    chunk != [] && (|chunk| >= 64 || Total(chunk) + |g.targets| > 256 || chunk[|chunk|-1].key.host == g.key.host)
  }

  predicate ClosedAt(chunks: seq<seq<Group>>, i: nat)
    requires i + 1 < |chunks|
  {
    chunks[i+1] != [] && ClosedBy(chunks[i], chunks[i+1][0])
  }

  /** Every chunk takes in what fits. */
  ghost predicate Greedy(chunks: seq<seq<Group>>) { forall i: nat :: i + 1 < |chunks| ==> ClosedAt(chunks, i) }

  /** The first group of the open chunk, or the next one if it is empty, did not fit the last closed chunk. */
  ghost predicate LastClosed(groups: seq<Group>, i: nat, chunks: seq<seq<Group>>, chunk: seq<Group>) {
    chunks != [] && (chunk != [] || i < |groups|) ==>
      ClosedBy(chunks[|chunks|-1], if chunk != [] then chunk[0] else groups[i])
  }

  /** The first `i` groups are packed, the last of them into the open chunk. */
  ghost predicate Packed(groups: seq<Group>, i: nat, chunks: seq<seq<Group>>, chunk: seq<Group>) {
    && i <= |groups|
    && Flatten(chunks) + chunk == groups[..i]
    && (forall c :: c in chunks ==> c != [] && Batch(c))
    && Batch(chunk)
    && (chunk != [] ==> i > 0 && chunk[|chunk|-1] == groups[i-1])
    && Greedy(chunks) && LastClosed(groups, i, chunks, chunk)
  }

  lemma CloseChunk(groups: seq<Group>, i: nat, chunks: seq<seq<Group>>, chunk: seq<Group>)
    requires Packed(groups, i, chunks, chunk) && chunk != [] && (i < |groups| ==> ClosedBy(chunk, groups[i]))
    ensures Packed(groups, i, chunks + [chunk], [])
  {
    forall n: nat | n + 1 < |chunks + [chunk]| ensures ClosedAt(chunks + [chunk], n) {
      if n + 1 < |chunks| { assert ClosedAt(chunks, n); }
    }
    FlattenSnoc(chunks, chunk);
    assert Flatten(chunks + [chunk]) + [] == groups[..i];
  }

  lemma NextHost(groups: seq<Group>, i: nat)
    requires 0 < i < |groups| && ByHost(groups) && groups[i-1].key.host != groups[i].key.host
    ensures groups[i-1].key.host < groups[i].key.host
  {
  }

  lemma ExtendChunk(groups: seq<Group>, i: nat, chunks: seq<seq<Group>>, chunk: seq<Group>)
    requires Packed(groups, i, chunks, chunk) && i < |groups| && ByHost(groups) && SmallGroups(groups)
    requires chunk == [] || (|chunk| < BATCH_HOST_CAP && Total(chunk) + |groups[i].targets| <= BATCH_ALIAS_CAP
                             && chunk[|chunk|-1].key.host != groups[i].key.host)
    ensures Packed(groups, i + 1, chunks, chunk + [groups[i]])
    ensures Total(chunk + [groups[i]]) == Total(chunk) + |groups[i].targets|
  {
    var g := groups[i];
    assert g in groups;
    TotalSnoc(chunk, g);
    if chunk != [] { NextHost(groups, i); }
    BatchSnoc(chunk, g);
    FlattenExtends(groups, i, chunks, chunk);
  }

  lemma FlattenExtends(groups: seq<Group>, i: nat, chunks: seq<seq<Group>>, chunk: seq<Group>)
    requires i < |groups| && Flatten(chunks) + chunk == groups[..i]
    ensures Flatten(chunks) + (chunk + [groups[i]]) == groups[..i+1]
  {
    assert groups[..i+1] == groups[..i] + [groups[i]];
    assert Flatten(chunks) + (chunk + [groups[i]]) == Flatten(chunks) + chunk + [groups[i]];
  }

  /** The chunk that the next group joins: the open one, unless it is full or has the same host. */
  method RoomFor(groups: seq<Group>, i: nat, chunks: seq<seq<Group>>, chunk: seq<Group>)
    returns (closed: seq<seq<Group>>, open: seq<Group>)
    requires Packed(groups, i, chunks, chunk) && i < |groups| && SmallGroups(groups)
    ensures Packed(groups, i, closed, open)
    ensures open == [] || (|open| < BATCH_HOST_CAP && Total(open) + |groups[i].targets| <= BATCH_ALIAS_CAP
                           && open[|open|-1].key.host != groups[i].key.host)
  {
    closed, open := chunks, chunk;
    if chunk != [] && (|chunk| >= BATCH_HOST_CAP || Total(chunk) + |groups[i].targets| > BATCH_ALIAS_CAP
                       || chunk[|chunk|-1].key.host == groups[i].key.host) {
      CloseChunk(groups, i, chunks, chunk);
      closed, open := chunks + [chunk], [];
    }
  }

  /** Consecutive groups packed into compile requests; nothing is lost or reordered. */
  method Chunk(groups: seq<Group>) returns (chunks: seq<seq<Group>>)
    requires InOrder(groups) && SmallGroups(groups)
    ensures Flatten(chunks) == groups && Greedy(chunks)
    ensures forall c :: c in chunks ==> c != [] && Batch(c)
  {
    chunks := [];
    var chunk: seq<Group> := [];
    assert ByHost(groups) by {
      forall i, j | 0 <= i < j < |groups| ensures groups[i].key.host <= groups[j].key.host { assert Precedes(groups[i], groups[j]); }
    }
    for i := 0 to |groups|
      invariant Packed(groups, i, chunks, chunk)
    {
      chunks, chunk := RoomFor(groups, i, chunks, chunk);
      ExtendChunk(groups, i, chunks, chunk);
      chunk := chunk + [groups[i]];
    }
    if chunk != [] {
      CloseChunk(groups, |groups|, chunks, chunk);
      chunks := chunks + [chunk];
    }
    WholeFlat(groups, chunks);
  }

  lemma WholeFlat(groups: seq<Group>, chunks: seq<seq<Group>>)
    requires Packed(groups, |groups|, chunks, [])
    ensures Flatten(chunks) == groups && Greedy(chunks)
  {
    assert groups[..|groups|] == groups && Flatten(chunks) + [] == Flatten(chunks);
  }

  // ---- The retry tree ----------------------------------------------------

  /** Parts of a batch that are batches again. */
  lemma {:induction false} TotalSplit(groups: seq<Group>, m: nat)
    requires m <= |groups|
    ensures Total(groups) == Total(groups[..m]) + Total(groups[m..])
  {
    TotalConcat(groups[..m], groups[m..]);
    assert groups == groups[..m] + groups[m..];
  }

  lemma BatchSplit(groups: seq<Group>, m: nat)
    requires Batch(groups) && m <= |groups|
    ensures Batch(groups[..m]) && Batch(groups[m..])
  {
    TotalSplit(groups, m);
  }

  function Filter(targets: seq<int>, keep: set<int>): seq<int> {
    if targets == [] then []
    else Filter(targets[..|targets|-1], keep) + (if targets[|targets|-1] in keep then [targets[|targets|-1]] else [])
  }

  lemma {:induction false} FilterMembers(targets: seq<int>, keep: set<int>)
    ensures forall t :: t in Filter(targets, keep) <==> t in targets && t in keep
    decreases |targets|
  {
    if targets != [] {
      var init, last := targets[..|targets|-1], targets[|targets|-1];
      FilterMembers(init, keep);
      assert targets == init + [last];
    }
  }

  lemma {:induction false} FilterIncreasing(targets: seq<int>, keep: set<int>)
    requires Increasing(targets)
    ensures Increasing(Filter(targets, keep))
    decreases |targets|
  {
    if targets != [] {
      var init, last := targets[..|targets|-1], targets[|targets|-1];
      FilterIncreasing(init, keep);
      FilterMembers(init, keep);
      var left := Filter(init, keep);
      forall i | 0 <= i < |left| ensures left[i] < last { assert left[i] in left && left[i] in init; }
    }
  }

  lemma {:induction false} FilterSize(targets: seq<int>, keep: set<int>)
    ensures |Filter(targets, keep)| <= |targets|
    decreases |targets|
  {
    if targets != [] {
      FilterSize(targets[..|targets|-1], keep);
    }
  }

  lemma {:induction false} FilterDrops(targets: seq<int>, keep: set<int>, t: int)
    requires t in targets && t !in keep
    ensures |Filter(targets, keep)| < |targets|
    decreases |targets|
  {
    var init, last := targets[..|targets|-1], targets[|targets|-1];
    FilterSize(init, keep);
    if last != t {
      assert targets == init + [last];
      FilterDrops(init, keep, t);
    }
  }

  /** The groups that still have targets in `keep`. */
  function Remaining(groups: seq<Group>, keep: set<int>): seq<Group> {
    if groups == [] then []
    else
      var last := groups[|groups|-1];
      var left := Filter(last.targets, keep);
      Remaining(groups[..|groups|-1], keep) + (if left == [] then [] else [Group(last.key, left)])
  }

  lemma RemainingSnoc(groups: seq<Group>, keep: set<int>)
    requires groups != []
    ensures var init, last := groups[..|groups|-1], groups[|groups|-1];
      && Total(Remaining(groups, keep)) == Total(Remaining(init, keep)) + |Filter(last.targets, keep)|
      && Total(groups) == Total(init) + |last.targets|
      && |Filter(last.targets, keep)| <= |last.targets|
  {
    var init, last := groups[..|groups|-1], groups[|groups|-1];
    var left := Filter(last.targets, keep);
    FilterSize(last.targets, keep);
    if left == [] {
      assert Remaining(groups, keep) == Remaining(init, keep);
    } else {
      TotalSnoc(Remaining(init, keep), Group(last.key, left));
    }
  }

  lemma {:induction false} RemainingTotal(groups: seq<Group>, keep: set<int>)
    ensures Total(Remaining(groups, keep)) <= Total(groups)
    decreases |groups|
  {
    if groups != [] {
      RemainingTotal(groups[..|groups|-1], keep);
      RemainingSnoc(groups, keep);
    }
  }

  lemma {:induction false} RemainingSize(groups: seq<Group>, keep: set<int>)
    requires forall g :: g in groups ==> Increasing(g.targets)
    ensures |Remaining(groups, keep)| <= |groups|
    ensures forall g :: g in Remaining(groups, keep) ==> g.targets != [] && Increasing(g.targets)
    decreases |groups|
  {
    if groups != [] {
      var init, last := groups[..|groups|-1], groups[|groups|-1];
      assert groups == init + [last] && last in groups;
      RemainingSize(init, keep);
      FilterIncreasing(last.targets, keep);
    }
  }

  /** Whenever some target is dropped the total goes down. */
  lemma {:induction false} RemainingLess(groups: seq<Group>, keep: set<int>, t: int)
    requires t in TargetsOf(groups) && t !in keep
    ensures Total(Remaining(groups, keep)) < Total(groups)
    decreases |groups|
  {
    var init, last := groups[..|groups|-1], groups[|groups|-1];
    assert groups == init + [last];
    TargetsSnoc(init, last);
    RemainingSnoc(groups, keep);
    if t in TargetsOf(init) {
      RemainingLess(init, keep, t);
    } else {
      RemainingTotal(init, keep);
      FilterDrops(last.targets, keep, t);
    }
  }

  ghost predicate KeysWithin(rest: seq<Group>, groups: seq<Group>) {
    forall r :: r in rest ==> exists g :: g in groups && g.key == r.key
  }

  predicate StrictHosts(groups: seq<Group>) {
    forall i, j :: 0 <= i < j < |groups| ==> groups[i].key.host < groups[j].key.host
  }

  lemma KeysBelow(rest: seq<Group>, init: seq<Group>, last: Group)
    requires KeysWithin(rest, init) && StrictHosts(init + [last]) && rest != []
    ensures rest[|rest|-1].key.host < last.key.host
  {
    assert rest[|rest|-1] in rest;
    var g :| g in init && g.key == rest[|rest|-1].key;
    var n :| 0 <= n < |init| && init[n] == g;
    assert (init + [last])[n] == g && (init + [last])[|init|] == last;
  }

  lemma KeysWithinSnoc(rest: seq<Group>, init: seq<Group>, last: Group, more: Group)
    requires KeysWithin(rest, init) && more.key == last.key
    ensures KeysWithin(rest, init + [last]) && KeysWithin(rest + [more], init + [last])
  {
    forall r | r in rest + [more] ensures exists g :: g in init + [last] && g.key == r.key {
      if r in rest {
        var g :| g in init && g.key == r.key;
        assert g in init + [last];
      } else {
        assert last in init + [last];
      }
    }
    forall r | r in rest ensures exists g :: g in init + [last] && g.key == r.key {
      assert r in rest + [more];
    }
  }

  lemma {:induction false} RemainingKeys(groups: seq<Group>, keep: set<int>)
    requires StrictHosts(groups)
    ensures StrictHosts(Remaining(groups, keep)) && KeysWithin(Remaining(groups, keep), groups)
    decreases |groups|
  {
    if groups != [] {
      var init, last := groups[..|groups|-1], groups[|groups|-1];
      var before, left := Remaining(init, keep), Filter(last.targets, keep);
      assert groups == init + [last];
      RemainingKeys(init, keep);
      KeysWithinSnoc(before, init, last, Group(last.key, left));
      if left == [] {
        assert Remaining(groups, keep) == before;
      } else {
        if before != [] { KeysBelow(before, init, last); }
        StrictSnoc(before, Group(last.key, left));
      }
    }
  }

  lemma {:induction false} RemainingMembers(groups: seq<Group>, keep: set<int>)
    ensures forall t :: t in TargetsOf(Remaining(groups, keep)) <==> t in TargetsOf(groups) && t in keep
    decreases |groups|
  {
    if groups != [] {
      var init, last := groups[..|groups|-1], groups[|groups|-1];
      var left := Filter(last.targets, keep);
      assert groups == init + [last];
      RemainingMembers(init, keep);
      FilterMembers(last.targets, keep);
      RemainingTargets(init, last, Remaining(init, keep), left, keep);
    }
  }

  lemma RemainingIsBatch(groups: seq<Group>, keep: set<int>)
    requires Batch(groups)
    ensures Batch(Remaining(groups, keep)) && Total(Remaining(groups, keep)) <= Total(groups)
    ensures forall t :: t in TargetsOf(Remaining(groups, keep)) <==> t in TargetsOf(groups) && t in keep
    ensures (exists t :: t in TargetsOf(groups) && t !in keep) ==> Total(Remaining(groups, keep)) < Total(groups)
  {
    if t :| t in TargetsOf(groups) && t !in keep {
      RemainingLess(groups, keep, t);
    }
    RemainingTotal(groups, keep);
    RemainingSize(groups, keep);
    RemainingKeys(groups, keep);
    RemainingMembers(groups, keep);
  }

  lemma RemainingTargets(init: seq<Group>, last: Group, before: seq<Group>, left: seq<int>, keep: set<int>)
    requires forall t :: t in TargetsOf(before) <==> t in TargetsOf(init) && t in keep
    requires forall t :: t in left <==> t in last.targets && t in keep
    ensures var rest := before + (if left == [] then [] else [Group(last.key, left)]);
      forall t :: t in TargetsOf(rest) <==> t in TargetsOf(init + [last]) && t in keep
    ensures forall t :: t in TargetsOf(init + [last]) <==> t in TargetsOf(init) || t in last.targets
  {
    TargetsSnoc(init, last);
    if left == [] {
      assert before + [] == before;
    } else {
      TargetsSnoc(before, Group(last.key, left));
    }
  }

  lemma TargetsSnoc(groups: seq<Group>, g: Group)
    ensures forall t :: t in TargetsOf(groups + [g]) <==> t in TargetsOf(groups) || t in g.targets
  {
    forall t ensures t in TargetsOf(groups + [g]) <==> t in TargetsOf(groups) || t in g.targets {
      if t in TargetsOf(groups) {
        var h :| h in groups && t in h.targets;
        assert h in groups + [g];
      }
      if t in g.targets { assert g in groups + [g]; }
    }
  }

  /** What is retried keeps its own keys. */
  lemma {:induction false} RemainingBacked(hosted: map<int, Key>, groups: seq<Group>, keep: set<int>)
    requires AllBacked(hosted, groups)
    ensures AllBacked(hosted, Remaining(groups, keep))
    decreases |groups|
  {
    if groups != [] {
      var init, last := groups[..|groups|-1], groups[|groups|-1];
      assert last in groups;
      forall g | g in init ensures Backed(hosted, g) { assert g in groups; }
      RemainingBacked(hosted, init, keep);
      FilterMembers(last.targets, keep);
      assert Backed(hosted, Group(last.key, Filter(last.targets, keep)));
    }
  }

  lemma {:induction false} ChunksBacked(hosted: map<int, Key>, chunks: seq<seq<Group>>)
    requires AllBacked(hosted, Flatten(chunks))
    ensures forall c :: c in chunks ==> AllBacked(hosted, c)
    decreases |chunks|
  {
    if chunks != [] {
      var init, last := chunks[..|chunks|-1], chunks[|chunks|-1];
      assert Flatten(chunks) == Flatten(init) + last;
      forall g | g in Flatten(init) ensures Backed(hosted, g) { assert g in Flatten(chunks); }
      forall g | g in last ensures Backed(hosted, g) { assert g in Flatten(chunks); }
      ChunksBacked(hosted, init);
    }
  }
}
