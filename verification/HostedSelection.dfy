/**
 select_hosted_interior_demands: every sibling-proven target gets the one eligible local
 owner that strictly contains it, found by a single sweep over sorted intervals.
 */
module HostedSelection {
  import opened Prelude
  import opened Sorting
  import opened Manifest
  import opened SiblingProofs

  const NOMINATION_CAP := 4096
  const ALIAS_CAP := 4096
  const HOST_CAP := 512

  /** `_producer_for_job_addr`: which linked image an address belongs to, `index == -1` for a simple one. */
  datatype Producer = Producer(index: int, lo: int, hi: int)

  datatype Job = Job(load: int, size: nat, producers: seq<(int, int)>, reasons: map<int, set<string>>)

  function ProducerFrom(ranges: seq<(int, int)>, phys: int, i: nat): Option<Producer>
    requires i <= |ranges|
    decreases |ranges| - i
  {
    if i == |ranges| then None
    else
      var lo := Phys(ranges[i].0);
      var hi := lo + (ranges[i].1 - ranges[i].0);
      if lo <= phys < hi then Some(Producer(i, lo, hi)) else ProducerFrom(ranges, phys, i + 1)
  }

  function ProducerOf(job: Job, addr: int): Option<Producer> {
    if job.producers == [] then
      var lo := Phys(job.load);
      if lo <= Phys(addr) < lo + job.size then Some(Producer(-1, lo, lo + job.size)) else None
    else ProducerFrom(job.producers, Phys(addr), 0)
  }

  const PRIORITY := ["DIRECT_JAL_TARGET", "STATIC_INDIRECT_TARGET", "STATIC_BRANCH_ROOT", "STATIC_DISCOVERY_ROOT",
                     "STATIC_DISPATCH_ENTRY", "DISPATCH_ENTRY", "FUNCTION_POINTER_TARGET", "TOML_DECLARED_ENTRY"]

  function FirstReason(priority: seq<string>, reasons: set<string>): Option<string> {
    if priority == [] then None
    else if priority[0] in reasons then Some(priority[0]) else FirstReason(priority[1..], reasons)
  }

  /** `_preferred_host_reason` of the reasons recorded for a host. */
  function HostReason(job: Job, host: int): Option<string> {
    FirstReason(PRIORITY, if host in job.reasons then job.reasons[host] else {})
  }

  /** A local function that may host aliases, with the interval it guards. */
  datatype Owner = Owner(start: int, end: int, producer: Producer, identity: FuncId, reason: string)

  /** One exact range from the entry, local root evidence, and a producer that it does not leave. */
  function OwnerOf(job: Job, f: FuncId): Option<Owner> {
    var reason := HostReason(job, f.entry);
    if reason.None? || |f.ranges| != 1 then None
    else if f.ranges[0].start != f.entry || f.ranges[0].length <= 0 then None
    else
      var producer := ProducerOf(job, f.entry);
      var end := f.ranges[0].start + f.ranges[0].length;
      if producer.None? || Phys(end) > producer.value.hi then None
      else Some(Owner(f.ranges[0].start, end, producer.value, f, reason.value))
  }

  /** All eligible owners; distinct identities are distinct owners. */
  function Owners(job: Job, ids: set<FuncId>): set<Owner> {
    set f | f in ids && OwnerOf(job, f).Some? :: OwnerOf(job, f).value
  }

  predicate Contains(o: Owner, target: int) { o.start < target < o.end }

  /** The eligible owners of the target's producer that strictly contain it. */
  function Candidates(job: Job, owners: set<Owner>, target: int): set<Owner> {
    set o | o in owners && Contains(o, target) && ProducerOf(job, target) == Some(o.producer)
  }

  /** What makes a nominated address a target at all. */
  predicate IsTarget(job: Job, donors: map<int, bool>, target: int) {
    && target in donors && donors[target] && target % 4 == 0
    && Phys(job.load) <= Phys(target) < Phys(job.load) + job.size
    && ProducerOf(job, target).Some?
  }

  /** The quadratic specification of one target. */
  predicate Chosen(job: Job, donors: map<int, bool>, owners: set<Owner>, target: int, o: Owner) {
    IsTarget(job, donors, target) && Candidates(job, owners, target) == {o}
  }

  // ---- Lists of owners ---------------------------------------------------

  predicate NoRepeats<T(==)>(s: seq<T>) {
    forall i, j :: 0 <= i < j < |s| ==> s[i] != s[j]
  }

  predicate ByStart(s: seq<Owner>) {
    forall i, j :: 0 <= i < j < |s| ==> s[i].start <= s[j].start
  }

  function Insert(o: Owner, s: seq<Owner>): seq<Owner> {
    if s == [] || o.start < s[0].start || (o.start == s[0].start && o.end <= s[0].end) then [o] + s
    else [s[0]] + Insert(o, s[1..])
  }

  lemma {:induction false} InsertKeeps(o: Owner, s: seq<Owner>)
    requires ByStart(s) && NoRepeats(s) && o !in s
    ensures ByStart(Insert(o, s)) && NoRepeats(Insert(o, s))
    ensures forall x :: x in Insert(o, s) <==> x == o || x in s
    decreases |s|
  {
    if s == [] {
    } else if o.start < s[0].start || (o.start == s[0].start && o.end <= s[0].end) {
    } else {
      var rest := Insert(o, s[1..]);
      assert s == [s[0]] + s[1..];
      assert s[0] !in s[1..];
      InsertKeeps(o, s[1..]);
      forall j | 0 <= j < |rest| ensures s[0].start <= rest[j].start && s[0] != rest[j] {
        assert rest[j] in rest;
        assert rest[j] == o || rest[j] in s[1..];
      }
    }
  }

  /** The eligible owners sorted by start, then end. */
  method SortedOwners(job: Job, ids: set<FuncId>) returns (list: seq<Owner>)
    ensures ByStart(list) && NoRepeats(list)
    ensures forall o :: o in list <==> o in Owners(job, ids)
  {
    list := [];
    var todo := ids;
    while todo != {}
      invariant todo <= ids && ByStart(list) && NoRepeats(list)
      invariant forall o :: o in list <==> o in Owners(job, ids - todo)
      decreases todo
    {
      var f :| f in todo;
      ghost var before := ids - todo;
      todo := todo - {f};
      var owner := OwnerOf(job, f);
      assert ids - todo == before + {f};
      if owner.Some? {
        assert owner.value !in Owners(job, before);
        InsertKeeps(owner.value, list);
        list := Insert(owner.value, list);
      }
      assert Owners(job, ids - todo) == Owners(job, before) + (if owner.Some? then {owner.value} else {});
    }
    assert ids - todo == ids;
  }

  /** `[i for i in intervals if i[1] > target]` */
  function StillOpen(active: seq<Owner>, target: int): seq<Owner> {
    if active == [] then []
    else
      var last := active[|active|-1];
      StillOpen(active[..|active|-1], target) + (if last.end > target then [last] else [])
  }

  lemma {:induction false} StillOpenMembers(active: seq<Owner>, target: int)
    requires NoRepeats(active)
    ensures NoRepeats(StillOpen(active, target))
    ensures forall o :: o in StillOpen(active, target) <==> o in active && o.end > target
    decreases |active|
  {
    if active != [] {
      var init, last := active[..|active|-1], active[|active|-1];
      StillOpenMembers(init, target);
      assert active == init + [last] && last !in init;
    }
  }

  function OfProducer(active: seq<Owner>, p: Producer): seq<Owner> {
    if active == [] then []
    else
      var last := active[|active|-1];
      OfProducer(active[..|active|-1], p) + (if last.producer == p then [last] else [])
  }

  lemma {:induction false} OfProducerMembers(active: seq<Owner>, p: Producer)
    requires NoRepeats(active)
    ensures NoRepeats(OfProducer(active, p))
    ensures forall o :: o in OfProducer(active, p) <==> o in active && o.producer == p
    decreases |active|
  {
    if active != [] {
      var init, last := active[..|active|-1], active[|active|-1];
      OfProducerMembers(init, p);
      assert active == init + [last] && last !in init;
    }
  }

  /** A list without repeats has one entry exactly when its set is a singleton. */
  lemma SingleByList(list: seq<Owner>, s: set<Owner>)
    requires NoRepeats(list) && forall o :: o in list <==> o in s
    ensures |list| == 1 ==> s == {list[0]}
    ensures |list| != 1 ==> forall o :: s != {o}
  {
    if |list| == 0 {
      forall o ensures s != {o} { assert o !in list; }
    } else if |list| >= 2 {
      forall o ensures s != {o} { assert list[0] in s && list[1] in s; }
    } else {
      assert list[0] in s;
      assert forall o :: o in s ==> o == list[0];
    }
  }

  // ---- The sweep ---------------------------------------------------------

  /** Everything that starts before `bound` has been taken in; nothing that is still open has been dropped. */
  ghost predicate Swept(all: seq<Owner>, next: nat, active: seq<Owner>, bound: int) {
    && next <= |all| && NoRepeats(active)
    && (forall i :: 0 <= i < next ==> all[i].start < bound)
    && (forall o :: o in active ==> o in all[..next])
    && (forall o :: o in all[..next] && o.end > bound ==> o in active)
  }

  lemma SweepTake(all: seq<Owner>, next: nat, active: seq<Owner>, bound: int, target: int)
    requires ByStart(all) && NoRepeats(all) && Swept(all, next, active, bound) && bound <= target
    requires next < |all| && all[next].start < target
    ensures Swept(all, next + 1, active + [all[next]], target)
  {
    assert all[..next+1] == all[..next] + [all[next]];
    assert all[next] !in all[..next];
  }

  lemma SweepMove(all: seq<Owner>, next: nat, active: seq<Owner>, bound: int, target: int)
    requires Swept(all, next, active, bound) && bound <= target
    ensures Swept(all, next, active, target)
  {
  }

  lemma SweptOpen(all: seq<Owner>, next: nat, active: seq<Owner>, target: int, o: Owner)
    requires ByStart(all) && Swept(all, next, active, target) && (next == |all| || all[next].start >= target)
    ensures o in active && o.end > target <==> o in all && Contains(o, target)
  {
    if o in all && Contains(o, target) {
      var i :| 0 <= i < |all| && all[i] == o;
      assert i < next;
      assert all[..next][i] == o;
    }
    if o in active {
      var i :| 0 <= i < next && all[..next][i] == o;
      assert all[i] == o;
    }
  }

  /** The loop body for one target: the active list becomes exactly the owners that contain it. */
  method SweepTo(all: seq<Owner>, next: nat, active: seq<Owner>, ghost bound: int, target: int)
    returns (next': nat, active': seq<Owner>)
    requires ByStart(all) && NoRepeats(all) && Swept(all, next, active, bound) && bound <= target
    ensures Swept(all, next', active', target)
    ensures forall o :: o in active' <==> o in all && Contains(o, target)
  {
    next', active' := next, active;
    SweepMove(all, next, active, bound, target);
    while next' < |all| && all[next'].start < target
      invariant Swept(all, next', active', target)
    {
      SweepTake(all, next', active', target, target);
      active' := active' + [all[next']];
      next' := next' + 1;
    }
    ghost var wide := active';
    StillOpenMembers(active', target);
    active' := StillOpen(active', target);
    forall o ensures o in active' <==> o in all && Contains(o, target) {
      SweptOpen(all, next', wide, target, o);
    }
  }

  /** The nominated targets: the lowest donor addresses, up to the nomination cap. */
  function Nominated(donors: map<int, bool>): seq<int> {
    Smallest(donors.Keys, NOMINATION_CAP)
  }

  /** The map holds exactly the chosen owners of the given addresses. */
  ghost predicate Selects(job: Job, donors: map<int, bool>, owners: set<Owner>, items: seq<int>,
                          selected: map<int, Owner>)
  {
    forall t, o :: SelectsAt(job, donors, owners, items, selected, t, o)
  }

  predicate SelectsAt(job: Job, donors: map<int, bool>, owners: set<Owner>, items: seq<int>,
                      selected: map<int, Owner>, t: int, o: Owner)
  {
    (t in selected && selected[t] == o) <==> t in items && Chosen(job, donors, owners, t, o)
  }

  lemma SelectStep(job: Job, donors: map<int, bool>, owners: set<Owner>, items: seq<int>, n: nat,
                   selected: map<int, Owner>, found: Option<Owner>)
    requires n < |items| && Increasing(items) && Selects(job, donors, owners, items[..n], selected)
    requires found.Some? ==> Chosen(job, donors, owners, items[n], found.value)
    requires found.None? ==> Ownerless(job, donors, owners, items[n])
    ensures Selects(job, donors, owners, items[..n+1],
                    if found.Some? then selected[items[n] := found.value] else selected)
  {
    var target := items[n];
    var now := if found.Some? then selected[target := found.value] else selected;
    var taken := items[..n+1];
    assert taken == items[..n] + [target];
    assert target !in items[..n];
    forall t, o ensures SelectsAt(job, donors, owners, taken, now, t, o) {
      assert SelectsAt(job, donors, owners, items[..n], selected, t, o);
      if t == target && found.Some? {
        OneChosen(job, donors, owners, t, o, found.value);
      }
    }
  }

  lemma OneChosen(job: Job, donors: map<int, bool>, owners: set<Owner>, t: int, o: Owner, p: Owner)
    requires Chosen(job, donors, owners, t, p)
    ensures Chosen(job, donors, owners, t, o) <==> o == p
  {
    if Chosen(job, donors, owners, t, o) {
      assert o in Candidates(job, owners, t);
    }
  }

  /** Nothing can be chosen for the address. */
  ghost predicate Ownerless(job: Job, donors: map<int, bool>, owners: set<Owner>, target: int) {
    forall o :: !Chosen(job, donors, owners, target, o)
  }

  lemma SameCandidates(job: Job, owners: set<Owner>, active: seq<Owner>, list: seq<Owner>, target: int, p: Producer)
    requires ProducerOf(job, target) == Some(p)
    requires forall x :: x in active <==> x in owners && Contains(x, target)
    requires forall x :: x in list <==> x in active && x.producer == p
    ensures forall x :: x in list <==> x in Candidates(job, owners, target)
  {
    forall x ensures x in list <==> x in Candidates(job, owners, target) {
      assert x in list <==> x in active && x.producer == p;
      assert x in active <==> x in owners && Contains(x, target);
    }
  }

  /** One donor address against the swept list. */
  method SelectOne(job: Job, donors: map<int, bool>, ghost owners: set<Owner>, active: seq<Owner>, target: int)
    returns (o: Option<Owner>)
    requires IsTarget(job, donors, target) && NoRepeats(active)
    requires forall x :: x in active <==> x in owners && Contains(x, target)
    ensures o.Some? ==> Chosen(job, donors, owners, target, o.value)
    ensures o.None? ==> Ownerless(job, donors, owners, target)
  {
    var producer := ProducerOf(job, target).value;
    OfProducerMembers(active, producer);
    var candidates := OfProducer(active, producer);
    SameCandidates(job, owners, active, candidates, target, producer);
    SingleByList(candidates, Candidates(job, owners, target));
    if |candidates| != 1 {
      return None;
    }
    return Some(candidates[0]);
  }

  /** One donor address: the sweep moves on only for an address that is a target. */
  method Visit(job: Job, donors: map<int, bool>, ghost owners: set<Owner>, all: seq<Owner>, next: nat,
               active: seq<Owner>, ghost bound: int, target: int)
    returns (next': nat, active': seq<Owner>, found: Option<Owner>)
    requires ByStart(all) && NoRepeats(all) && Swept(all, next, active, bound) && bound <= target
    requires forall o :: o in all <==> o in owners
    ensures Swept(all, next', active', target)
    ensures found.Some? ==> Chosen(job, donors, owners, target, found.value)
    ensures found.None? ==> Ownerless(job, donors, owners, target)
  {
    next', active', found := next, active, None;
    SweepMove(all, next, active, bound, target);
    if IsTarget(job, donors, target) {
      next', active' := SweepTo(all, next, active, bound, target);
      found := SelectOne(job, donors, owners, active', target);
    }
  }

  /** The loop over ascending addresses, before the caps. */
  method SelectAmong(job: Job, donors: map<int, bool>, ids: set<FuncId>, items: seq<int>) returns (selected: map<int, Owner>)
    requires Increasing(items)
    ensures Selects(job, donors, Owners(job, ids), items, selected)
  {
    var all := SortedOwners(job, ids);
    ghost var owners := Owners(job, ids);
    selected := map[];
    var next, active := 0, [];
    ghost var bound := if items == [] then 0 else items[0];
    for n := 0 to |items|
      invariant Selects(job, donors, owners, items[..n], selected)
      invariant Swept(all, next, active, bound) && (n < |items| ==> bound <= items[n])
    {
      var found;
      next, active, found := Visit(job, donors, owners, all, next, active, bound, items[n]);
      bound := items[n];
      SelectStep(job, donors, owners, items, n, selected, found);
      selected := if found.Some? then selected[items[n] := found.value] else selected;
    }
    assert items[..|items|] == items;
  }

  /** The selection before the caps: a nominated target is selected exactly when one owner strictly contains it. */
  method SelectUncapped(job: Job, donors: map<int, bool>, ids: set<FuncId>) returns (selected: map<int, Owner>)
    requires forall t :: t in donors ==> CanonicalEntry(t)
    ensures Selects(job, donors, Owners(job, ids), Nominated(donors), selected)
  {
    PrefixIncreasing(Sorted(donors.Keys), |Nominated(donors)|);
    selected := SelectAmong(job, donors, ids, Nominated(donors));
  }

  // ---- The caps ----------------------------------------------------------

  function HostsIn(m: map<int, Owner>): set<int> {
    set t | t in m :: m[t].identity.entry
  }

  function BelowTarget(m: map<int, Owner>, target: int): map<int, Owner> {
    map t | t in m && t < target :: m[t]
  }

  /** No room for this target behind the kept ones: too many aliases, or a new host too many. */
  predicate NoRoom(kept: map<int, Owner>, o: Owner) {
    |kept| >= ALIAS_CAP || (o.identity.entry !in HostsIn(kept) && |HostsIn(kept)| >= HOST_CAP)
  }

  /** The targets kept by the caps, taken in ascending order. */
  function Capped(selected: map<int, Owner>, items: seq<int>): map<int, Owner> {
    if items == [] then map[]
    else
      var kept, last := Capped(selected, items[..|items|-1]), items[|items|-1];
      if last !in selected || NoRoom(kept, selected[last]) then kept else kept[last := selected[last]]
  }

  lemma HostsGrow(m: map<int, Owner>, t: int, o: Owner)
    requires t !in m
    ensures HostsIn(m[t := o]) == HostsIn(m) + {o.identity.entry}
  {
    var now := m[t := o];
    forall h | h in HostsIn(m) ensures h in HostsIn(now) {
      var u :| u in m && m[u].identity.entry == h;
      assert now[u] == m[u];
    }
    assert now[t].identity.entry in HostsIn(now);
  }

  ghost predicate WithinCaps(selected: map<int, Owner>, items: seq<int>, kept: map<int, Owner>) {
    && |kept| <= ALIAS_CAP && |HostsIn(kept)| <= HOST_CAP
    && forall t :: t in kept ==> t in items && t in selected && kept[t] == selected[t]
  }

  lemma TakeOne(selected: map<int, Owner>, items: seq<int>, kept: map<int, Owner>, last: int)
    requires WithinCaps(selected, items, kept) && last !in items && last in selected
    requires !NoRoom(kept, selected[last])
    ensures WithinCaps(selected, items + [last], kept[last := selected[last]])
  {
    HostsGrow(kept, last, selected[last]);
    if selected[last].identity.entry in HostsIn(kept) {
      assert HostsIn(kept) + {selected[last].identity.entry} == HostsIn(kept);
    }
  }

  lemma {:induction false} CappedWithin(selected: map<int, Owner>, items: seq<int>)
    requires Increasing(items)
    ensures WithinCaps(selected, items, Capped(selected, items))
    decreases |items|
  {
    if items == [] {
      assert HostsIn(map[]) == {};
    } else {
      var init, last := items[..|items|-1], items[|items|-1];
      assert items == init + [last] && last !in init;
      CappedWithin(selected, init);
      var kept := Capped(selected, init);
      if last in selected && !NoRoom(kept, selected[last]) {
        TakeOne(selected, init, kept, last);
      }
    }
  }

  lemma BelowLast(selected: map<int, Owner>, items: seq<int>)
    requires Increasing(items) && items != []
    ensures var init, last := items[..|items|-1], items[|items|-1];
      BelowTarget(Capped(selected, items), last) == Capped(selected, init)
  {
    var init, last := items[..|items|-1], items[|items|-1];
    CappedWithin(selected, init);
    forall t | t in Capped(selected, init) ensures t < last {
      assert t in init;
      var i :| 0 <= i < |init| && init[i] == t;
      assert items[i] == t;
    }
  }

  /** What is kept below a target is what the smaller targets alone would keep. */
  lemma {:induction false} CappedBelow(selected: map<int, Owner>, items: seq<int>, n: nat)
    requires Increasing(items) && n < |items| && items[n] in selected
    ensures BelowTarget(Capped(selected, items), items[n]) == Capped(selected, items[..n])
    ensures items[n] in Capped(selected, items) <==> !NoRoom(Capped(selected, items[..n]), selected[items[n]])
    decreases |items|
  {
    var init, last := items[..|items|-1], items[|items|-1];
    var kept := Capped(selected, init);
    if n == |items| - 1 {
      BelowLast(selected, items);
      CappedWithin(selected, init);
      assert last !in init;
    } else {
      CappedBelow(selected, init, n);
      assert init[..n] == items[..n] && init[n] == items[n] && items[n] < last;
      assert BelowTarget(Capped(selected, items), items[n]) == BelowTarget(kept, items[n]);
    }
  }

  function CapStep(kept: map<int, Owner>, t: int, o: Owner): map<int, Owner> {
    if NoRoom(kept, o) then kept else kept[t := o]
  }

  lemma CappedSnoc(selected: map<int, Owner>, items: seq<int>, n: nat)
    requires n < |items| && items[n] in selected
    ensures Capped(selected, items[..n+1]) == CapStep(Capped(selected, items[..n]), items[n], selected[items[n]])
  {
    assert items[..n+1][..n] == items[..n];
  }

  /** The loop over the selected targets in ascending order. */
  method CapInOrder(selected: map<int, Owner>, items: seq<int>) returns (bounded: map<int, Owner>)
    requires forall i :: 0 <= i < |items| ==> items[i] in selected
    ensures bounded == Capped(selected, items)
  {
    bounded := map[];
    for n := 0 to |items|
      invariant bounded == Capped(selected, items[..n])
    {
      CappedSnoc(selected, items, n);
      bounded := CapStep(bounded, items[n], selected[items[n]]);
    }
    assert items[..|items|] == items;
  }

  method ApplyCaps(selected: map<int, Owner>) returns (bounded: map<int, Owner>)
    ensures bounded == Capped(selected, Sorted(selected.Keys))
  {
    SortedMembers(selected, Sorted(selected.Keys));
    bounded := CapInOrder(selected, Sorted(selected.Keys));
  }

  lemma SortedMembers(selected: map<int, Owner>, items: seq<int>)
    requires items == Sorted(selected.Keys)
    ensures Increasing(items)
    ensures forall i :: 0 <= i < |items| ==> items[i] in selected
    ensures forall t :: t in selected ==> t in items
  {
    forall i | 0 <= i < |items| ensures items[i] in selected { assert items[i] in ToSet(items); }
    forall t | t in selected ensures t in items { assert t in ToSet(items); }
  }

  /** A selected target is left out exactly when the smaller kept targets leave no room for it. */
  lemma CappedExact(selected: map<int, Owner>, items: seq<int>, t: int)
    requires items == Sorted(selected.Keys) && t in selected
    ensures t in Capped(selected, items) <==> !NoRoom(BelowTarget(Capped(selected, items), t), selected[t])
  {
    SortedMembers(selected, items);
    var n :| 0 <= n < |items| && items[n] == t;
    CappedBelow(selected, items, n);
  }

  /** The outcome against the quadratic specification `Chosen`. */
  ghost predicate Bounded(job: Job, donors: map<int, bool>, owners: set<Owner>, bounded: map<int, Owner>) {
    // Only targets with one strictly containing owner, with that owner, within both caps.
    && |bounded| <= ALIAS_CAP && |HostsIn(bounded)| <= HOST_CAP
    && (forall t :: t in bounded ==> t in Nominated(donors) && Chosen(job, donors, owners, t, bounded[t]))
    // A target with such an owner is left out exactly when the smaller kept targets leave no room for it.
    && (forall t, o :: t in Nominated(donors) && Chosen(job, donors, owners, t, o) ==>
         (t in bounded <==> !NoRoom(BelowTarget(bounded, t), o)))
  }

  lemma CapsAreExact(job: Job, donors: map<int, bool>, owners: set<Owner>, nominated: seq<int>,
                     selected: map<int, Owner>, bounded: map<int, Owner>)
    requires nominated == Nominated(donors) && Selects(job, donors, owners, nominated, selected)
    requires bounded == Capped(selected, Sorted(selected.Keys))
    ensures Bounded(job, donors, owners, bounded)
  {
    var items := Sorted(selected.Keys);
    SortedMembers(selected, items);
    CappedWithin(selected, items);
    forall t | t in bounded ensures t in nominated && Chosen(job, donors, owners, t, bounded[t]) {
      assert SelectsAt(job, donors, owners, nominated, selected, t, bounded[t]);
    }
    forall t, o | t in nominated && Chosen(job, donors, owners, t, o)
      ensures t in bounded <==> !NoRoom(BelowTarget(bounded, t), o)
    {
      assert SelectsAt(job, donors, owners, nominated, selected, t, o);
      CappedExact(selected, items, t);
    }
  }

  // ---- The outcome spelled out ---------------------------------------------

  /** The address is of this linked image: the first that has it, or the whole job where none are listed. */
  predicate LiesIn(job: Job, addr: int, p: Producer) {
    && p.lo <= addr % 0x2000_0000 < p.hi
    && if job.producers == [] then
         p == Producer(-1, job.load % 0x2000_0000, job.load % 0x2000_0000 + job.size)
       else
         && 0 <= p.index < |job.producers|
         && p.lo == job.producers[p.index].0 % 0x2000_0000 && p.hi == p.lo + job.producers[p.index].1 - job.producers[p.index].0
         && forall j :: 0 <= j < p.index ==> !InImage(job.producers[j], addr)
  }

  predicate InImage(range: (int, int), addr: int) {
    range.0 % 0x2000_0000 <= addr % 0x2000_0000 < range.0 % 0x2000_0000 + range.1 - range.0
  }

  lemma {:induction false} FirstProducer(ranges: seq<(int, int)>, addr: int, i: nat, p: Producer)
    requires i <= |ranges|
    ensures ProducerFrom(ranges, Phys(addr), i) == Some(p) <==>
      && i <= p.index < |ranges| && InImage(ranges[p.index], addr)
      && p.lo == ranges[p.index].0 % 0x2000_0000 && p.hi == p.lo + ranges[p.index].1 - ranges[p.index].0
      && forall j :: i <= j < p.index ==> !InImage(ranges[j], addr)
    decreases |ranges| - i
  {
    if i < |ranges| && !InImage(ranges[i], addr) { FirstProducer(ranges, addr, i + 1, p); }
  }

  lemma ProducerExactly(job: Job, addr: int, p: Producer)
    ensures ProducerOf(job, addr) == Some(p) <==> LiesIn(job, addr, p)
  {
    FirstProducer(job.producers, addr, 0, p);
  }

  /** The place of a reason among those that may make a host. */
  predicate Ranked(n: nat, reason: string) {
    || (n == 0 && reason == "DIRECT_JAL_TARGET") || (n == 1 && reason == "STATIC_INDIRECT_TARGET")
    || (n == 2 && reason == "STATIC_BRANCH_ROOT") || (n == 3 && reason == "STATIC_DISCOVERY_ROOT")
    || (n == 4 && reason == "STATIC_DISPATCH_ENTRY") || (n == 5 && reason == "DISPATCH_ENTRY")
    || (n == 6 && reason == "FUNCTION_POINTER_TARGET") || (n == 7 && reason == "TOML_DECLARED_ENTRY")
  }

  /** The first of them that is recorded for the host. */
  ghost predicate HasReason(job: Job, host: int, reason: string) {
    && host in job.reasons && reason in job.reasons[host]
    && exists n: nat :: Ranked(n, reason) && forall m: nat, other :: m < n && Ranked(m, other) ==> other !in job.reasons[host]
  }

  lemma RankedExactly(n: nat, reason: string)
    ensures Ranked(n, reason) <==> n < |PRIORITY| && PRIORITY[n] == reason
  {
  }

  predicate FirstAt(priority: seq<string>, reasons: set<string>, n: nat, reason: string) {
    n < |priority| && priority[n] == reason && reason in reasons && forall m :: 0 <= m < n ==> priority[m] !in reasons
  }

  lemma {:induction false} FirstExactly(priority: seq<string>, reasons: set<string>, reason: string)
    ensures FirstReason(priority, reasons) == Some(reason) <==> exists n: nat :: FirstAt(priority, reasons, n, reason)
    decreases |priority|
  {
    if priority != [] {
      FirstExactly(priority[1..], reasons, reason);
      if n: nat :| FirstAt(priority[1..], reasons, n, reason) {
        if priority[0] !in reasons { assert FirstAt(priority, reasons, n + 1, reason); }
      }
      if n: nat :| FirstAt(priority, reasons, n, reason) {
        if n > 0 { assert FirstAt(priority[1..], reasons, n - 1, reason); }
      }
      if priority[0] in reasons && priority[0] == reason { assert FirstAt(priority, reasons, 0, reason); }
    }
  }

  lemma ReasonExactly(job: Job, host: int, reason: string)
    ensures HostReason(job, host) == Some(reason) <==> HasReason(job, host, reason)
  {
    var r := if host in job.reasons then job.reasons[host] else {};
    FirstExactly(PRIORITY, r, reason);
    forall n: nat, other ensures Ranked(n, other) <==> n < |PRIORITY| && PRIORITY[n] == other { RankedExactly(n, other); }
    if n: nat :| FirstAt(PRIORITY, r, n, reason) { assert Ranked(n, reason); }
    if HasReason(job, host, reason) {
      var n: nat :| Ranked(n, reason) && forall m: nat, other :: m < n && Ranked(m, other) ==> other !in job.reasons[host];
      assert FirstAt(PRIORITY, r, n, reason) by {
        forall m | 0 <= m < n ensures PRIORITY[m] !in r { assert Ranked(m, PRIORITY[m]); }
      }
    }
  }

  /** A local function of one range from its entry, with a reason, that does not end behind its image. */
  ghost predicate Hosts(job: Job, f: FuncId, o: Owner) {
    && o.identity == f && |f.ranges| == 1 && f.ranges[0].start == f.entry && f.ranges[0].length > 0
    && o.start == f.entry && o.end == f.entry + f.ranges[0].length
    && LiesIn(job, f.entry, o.producer) && o.end % 0x2000_0000 <= o.producer.hi && HasReason(job, f.entry, o.reason)
  }

  lemma HostsExactly(job: Job, f: FuncId, o: Owner)
    ensures OwnerOf(job, f) == Some(o) <==> Hosts(job, f, o)
  {
    if OwnerOf(job, f).Some? {
      var p := OwnerOf(job, f).value;
      ProducerExactly(job, f.entry, p.producer);
      ReasonExactly(job, f.entry, p.reason);
    }
    ProducerExactly(job, f.entry, o.producer);
    ReasonExactly(job, f.entry, o.reason);
  }

  /** A donor proves the aligned address, and it lies in the capture. */
  predicate Wanted(job: Job, donors: map<int, bool>, t: int) {
    && t in donors && donors[t] && t % 4 == 0
    && job.load % 0x2000_0000 <= t % 0x2000_0000 < job.load % 0x2000_0000 + job.size
  }

  /** A host of the target's own image around the target. */
  ghost predicate Around(job: Job, ids: set<FuncId>, t: int, o: Owner) {
    o.identity in ids && Hosts(job, o.identity, o) && o.start < t < o.end && LiesIn(job, t, o.producer)
  }

  /** One of the 4096 lowest donor addresses. */
  predicate IsNominated(donors: map<int, bool>, t: int) { t in donors && |set u | u in donors && u < t| < 4096 }

  /** The target's one host. */
  ghost predicate Demanded(job: Job, donors: map<int, bool>, ids: set<FuncId>, t: int, o: Owner) {
    IsNominated(donors, t) && Wanted(job, donors, t) && Around(job, ids, t, o) && forall p :: Around(job, ids, t, p) ==> p == o
  }

  /** After smaller targets: fewer than 4096 of them, and their host is there already or there are fewer than 512. */
  predicate HasRoom(below: map<int, Owner>, o: Owner) {
    |below| < 4096 && (o.identity.entry in HostsIn(below) || |HostsIn(below)| < 512)
  }

  ghost predicate SelectsExactly(job: Job, donors: map<int, bool>, ids: set<FuncId>, bounded: map<int, Owner>) {
    && |bounded| <= 4096 && |HostsIn(bounded)| <= 512
    && (forall t :: t in bounded ==> Demanded(job, donors, ids, t, bounded[t]))
    && forall t, o :: Demanded(job, donors, ids, t, o) ==> (t in bounded <==> HasRoom(BelowTarget(bounded, t), o))
  }

  lemma AroundExactly(job: Job, ids: set<FuncId>, t: int, o: Owner)
    ensures Around(job, ids, t, o) <==> o in Candidates(job, Owners(job, ids), t)
  {
    ProducerExactly(job, t, o.producer);
    if Around(job, ids, t, o) {
      HostsExactly(job, o.identity, o);
      assert OwnerOf(job, o.identity).value in Owners(job, ids);
    }
    if o in Candidates(job, Owners(job, ids), t) {
      var f :| f in ids && OwnerOf(job, f).Some? && OwnerOf(job, f).value == o;
      HostsExactly(job, f, o);
    }
  }

  lemma ChosenExactly(job: Job, donors: map<int, bool>, ids: set<FuncId>, t: int, o: Owner)
    ensures Chosen(job, donors, Owners(job, ids), t, o) <==>
      Wanted(job, donors, t) && Around(job, ids, t, o) && forall p :: Around(job, ids, t, p) ==> p == o
  {
    var found := Candidates(job, Owners(job, ids), t);
    AroundExactly(job, ids, t, o);
    forall p ensures Around(job, ids, t, p) <==> p in found { AroundExactly(job, ids, t, p); }
    ProducerExactly(job, t, o.producer);
    if Wanted(job, donors, t) && Around(job, ids, t, o) && forall p :: Around(job, ids, t, p) ==> p == o {
      assert found == {o};
    }
  }

  /** The `limit` smallest: fewer than `limit` members are smaller. */
  lemma SmallestExactly(e: set<int>, limit: nat, t: int)
    ensures t in Smallest(e, limit) <==> t in e && |set u | u in e && u < t| < limit
  {
    var all := Sorted(e);
    assert t in all <==> t in ToSet(all);
    if t in e {
      var i :| 0 <= i < |all| && all[i] == t;
      BelowIndex(e, i);
      if t in Smallest(e, limit) {
        var j :| 0 <= j < |Smallest(e, limit)| && Smallest(e, limit)[j] == t;
        assert all[j] == all[i] && i == j;
      }
    }
  }

  lemma BelowIndex(e: set<int>, i: nat)
    requires i < |Sorted(e)|
    ensures |set u | u in e && u < Sorted(e)[i]| == i
  {
    var all := Sorted(e);
    var below := set u | u in e && u < all[i];
    forall u ensures u in below <==> u in ToSet(all[..i]) { BelowMember(all, i, u); }
    PrefixIncreasing(all, i);
    IncreasingSize(all[..i]);
    assert below == ToSet(all[..i]);
  }

  lemma BelowMember(all: seq<int>, i: nat, u: int)
    requires Increasing(all) && i < |all|
    ensures u in all[..i] <==> u in ToSet(all) && u < all[i]
  {
    if u in all && u < all[i] {
      var j :| 0 <= j < |all| && all[j] == u;
      assert j < i && all[..i][j] == u;
    }
  }

  lemma NominatedExactly(donors: map<int, bool>, t: int)
    ensures t in Nominated(donors) <==> IsNominated(donors, t)
  {
    SmallestExactly(donors.Keys, 4096, t);
    assert (set u | u in donors.Keys && u < t) == set u | u in donors && u < t;
  }

  /** The selection in the source's own terms. */
  lemma BoundedExactly(job: Job, donors: map<int, bool>, ids: set<FuncId>, bounded: map<int, Owner>)
    requires Bounded(job, donors, Owners(job, ids), bounded)
    ensures SelectsExactly(job, donors, ids, bounded)
  {
    forall t | t in bounded ensures Demanded(job, donors, ids, t, bounded[t]) {
      NominatedExactly(donors, t);
      ChosenExactly(job, donors, ids, t, bounded[t]);
    }
    forall t, o | Demanded(job, donors, ids, t, o) ensures t in bounded <==> HasRoom(BelowTarget(bounded, t), o) {
      NominatedExactly(donors, t);
      ChosenExactly(job, donors, ids, t, o);
    }
  }

  /** select_hosted_interior_demands */
  method SelectHostedInteriorDemands(job: Job, donors: map<int, bool>, ids: set<FuncId>)
    returns (bounded: map<int, Owner>)
    requires forall t :: t in donors ==> CanonicalEntry(t)
    ensures Bounded(job, donors, Owners(job, ids), bounded) && SelectsExactly(job, donors, ids, bounded)
  {
    var selected := SelectUncapped(job, donors, ids);
    bounded := ApplyCaps(selected);
    CapsAreExact(job, donors, Owners(job, ids), Nominated(donors), selected, bounded);
    BoundedExactly(job, donors, ids, bounded);
  }
}
