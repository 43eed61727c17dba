/** classify_overlay_seeds, last part: orphan promotion, the final walks, and the emitted classification. */
module SeedClassifier {
  import opened Prelude
  import opened Sorting
  import opened OverlayWalk
  import opened SeedAdmission
  import opened SeedOwnership

  const KERNEL_WINDOW := 0x1_0000

  function Interiors(included: map<int, Reason>): set<int> {
    set a | a in included && included[a].DispatchInterior?
  }

  function RootsOf(included: map<int, Reason>): set<int> {
    set a | a in included && !included[a].DispatchInterior?
  }

  // ---- Discovery and promotion -----------------------------------------------

  function Covered(walker: Walker, hi: int, known: set<int>): set<int> {
    UnionOf(BodiesOf(WalksBy(walker, hi, Sorted(known))))
  }

  /** The interiors that no rooted walk covers and that hold a valid word. */
  function Orphans(o: Overlay, included: map<int, Reason>, covered: set<int>): set<int> {
    set a | a in Interiors(included) && a !in covered && IsValid(o.Code()(a))
  }

  predicate InKernelWindow(o: Overlay) { o.Lo() % 0x2000_0000 < KERNEL_WINDOW }

  function PromoteIn(k: Task, a: int): Task { k.(included := k.included[a := DispatchRoot], promoted := k.promoted + {a}) }

  function RootIn(d: Discovery, a: int): Discovery { d.(part := d.part.(known := d.part.known + {a})) }

  lemma PromotionShrinks(included: map<int, Reason>, a: int)
    requires a in Interiors(included)
    ensures |Interiors(included[a := DispatchRoot])| < |Interiors(included)|
  {
    assert Interiors(included[a := DispatchRoot]) == Interiors(included) - {a};
  }

  /** What a discovery works on and ends in. */
  datatype Outcome = Outcome(task: Task, found: Discovery)

  /** Rounds and, in the kernel window, the promotion of one orphan at a time, the lowest first. */
  function Promote(walker: Walker, k: Task, start: Discovery): Outcome
    requires start.passes <= SUPPRESSION_LIMIT
    decreases |Interiors(k.included)|
  {
    var d := Discover(k.Kept(), StepOf(k, walker), start, []);
    var orphans := Orphans(k.o, k.included, Covered(walker, k.o.Hi(), d.part.known));
    if !InKernelWindow(k.o) || orphans == {} then Outcome(k, d)
    else
      var a := MinOf(orphans);
      PromotionShrinks(k.included, a);
      Promote(walker, PromoteIn(k, a), RootIn(d, a))
  }

  method OrphansOf(k: Task, known: set<int>, ghost walker: Walker) returns (orphans: set<int>)
    requires walker == WalkerOf(k.o)
    ensures orphans == Orphans(k.o, k.included, Covered(walker, k.o.Hi(), known))
  {
    var walks := WalkAll(k.o, Sorted(known), walker);
    orphans := Orphans(k.o, k.included, UnionOf(BodiesOf(walks)));
  }

  method DiscoverAndPromote(task: Task, start: Discovery, ghost walker: Walker) returns (k: Task, d: Discovery)
    requires walker == WalkerOf(task.o) && start.passes <= SUPPRESSION_LIMIT
    ensures Outcome(k, d) == Promote(walker, task, start)
  {
    k, d := task, start;
    while true
      invariant k.o == task.o && d.passes <= SUPPRESSION_LIMIT && Promote(walker, k, d) == Promote(walker, task, start)
      decreases |Interiors(k.included)|
    {
      d := DiscoverRoots(k, d, walker);
      if !InKernelWindow(k.o) { return; }
      var orphans := OrphansOf(k, d.part.known, walker);
      if orphans == {} { return; }
      var a := MinOf(orphans);
      PromotionShrinks(k.included, a);
      k, d := PromoteIn(k, a), RootIn(d, a);
    }
  }

  /** The included reasons tell roots from interiors; the kept roots are the initial and the promoted ones. */
  ghost predicate Rooted(k: Task) {
    (forall a :: a in k.included ==> Owned(k.o, a)) && k.Kept() == RootsOf(k.included)
  }

  /** The reasons that may have been given besides the capture's: promotions of its interiors. */
  ghost predicate PromotedFrom(o: Overlay, admitted: map<int, Reason>, included: map<int, Reason>) {
    && included.Keys == admitted.Keys
    && forall a :: a in included && included[a] != admitted[a] ==>
         admitted[a].DispatchInterior? && included[a].DispatchRoot? && IsValid(o.Code()(a))
  }

  /** What every pass of the outer loop keeps. */
  ghost predicate Discovering(admitted: map<int, Reason>, k: Task, d: Discovery) {
    && d.passes <= SUPPRESSION_LIMIT && Rooted(k) && k.initial == RootsOf(admitted)
    && PromotedFrom(k.o, admitted, k.included) && Partitioned(k, d.part)
  }

  lemma KeptOwned(k: Task)
    requires Rooted(k)
    ensures AllOwned(k.o, k.Kept())
  {
    assert forall a :: a in RootsOf(k.included) ==> a in k.included;
  }

  lemma PromotionKeeps(admitted: map<int, Reason>, k: Task, d: Discovery, covered: set<int>, a: int)
    requires Discovering(admitted, k, d) && a in Orphans(k.o, k.included, covered)
    ensures Discovering(admitted, PromoteIn(k, a), RootIn(d, a))
  {
    var j, e := PromoteIn(k, a), RootIn(d, a);
    assert Owned(k.o, a);
    assert RootsOf(j.included) == RootsOf(k.included) + {a};
    assert j.Kept() == k.Kept() + {a};
    assert Partitioned(j, e.part);
  }

  /** The last discovery of the outer loop. */
  ghost predicate Ended(walker: Walker, k: Task, d: Discovery) {
    Stable(StepOf(k, walker), d) || d.part == Explicit(k.Kept())
  }

  lemma DiscoveryKeeps(walker: Walker, admitted: map<int, Reason>, k: Task, start: Discovery)
    requires AllBounded(k.o, walker) && Discovering(admitted, k, start)
    ensures Discovering(admitted, k, Discover(k.Kept(), StepOf(k, walker), start, []))
    ensures Ended(walker, k, Discover(k.Kept(), StepOf(k, walker), start, []))
  {
    KeptOwned(k);
    RoundsKeepPartition(k, walker);
    DiscoverEnds(k, StepOf(k, walker), start, []);
  }

  /** The outer loop ends in a partition of initial, promoted and derived roots that its own walks vouch for. */
  lemma {:induction false} PromoteEnds(walker: Walker, admitted: map<int, Reason>, k: Task, start: Discovery)
    requires AllBounded(k.o, walker) && Discovering(admitted, k, start)
    ensures var e := Promote(walker, k, start);
            && e.task.o == k.o && Discovering(admitted, e.task, e.found) && Ended(walker, e.task, e.found)
            && (InKernelWindow(k.o) ==>
                 Orphans(k.o, e.task.included, Covered(walker, k.o.Hi(), e.found.part.known)) == {})
    decreases |Interiors(k.included)|
  {
    var d := Discover(k.Kept(), StepOf(k, walker), start, []);
    DiscoveryKeeps(walker, admitted, k, start);
    var covered := Covered(walker, k.o.Hi(), d.part.known);
    var orphans := Orphans(k.o, k.included, covered);
    if InKernelWindow(k.o) && orphans != {} {
      var a := MinOf(orphans);
      PromotionShrinks(k.included, a);
      PromotionKeeps(admitted, k, d, covered, a);
      PromoteEnds(walker, admitted, PromoteIn(k, a), RootIn(d, a));
    }
  }

  // ---- Emission ------------------------------------------------------------

  /** The reason an address leaves with. */
  function FinalReason(included: map<int, Reason>, part: Partition, covered: set<int>, a: int): Option<Reason> {
    if a in part.derived then
      if a in part.known then Some(part.derived[a])
      else if a in covered then Some(DispatchInterior)
      else None
    else if a in included && included[a].DispatchInterior? && a !in covered then None
    else Lookup(included, a)
  }

  /** What the loop over the derived reasons has made of an address. */
  ghost predicate SettledAt(before: map<int, Reason>, part: Partition, covered: set<int>, done: set<int>, now: map<int, Reason>, a: int) {
    Lookup(now, a) == (if a in done then FinalReason(before, part, covered, a) else Lookup(before, a))
  }

  ghost predicate Settled(before: map<int, Reason>, part: Partition, covered: set<int>, done: set<int>, now: map<int, Reason>) {
    forall a :: SettledAt(before, part, covered, done, now, a)
  }

  function SettleOne(part: Partition, covered: set<int>, m: map<int, Reason>, a: int): map<int, Reason>
    requires a in part.derived
  {
    if a in part.known then m[a := part.derived[a]] else if a in covered then m[a := DispatchInterior] else m - {a}
  }

  lemma SettleStep(before: map<int, Reason>, part: Partition, covered: set<int>, done: set<int>, now: map<int, Reason>, a: int)
    requires Settled(before, part, covered, done, now) && a in part.derived
    ensures Settled(before, part, covered, done + {a}, SettleOne(part, covered, now, a))
  {
    forall b ensures SettledAt(before, part, covered, done + {a}, SettleOne(part, covered, now, a), b) {
      assert SettledAt(before, part, covered, done, now, b);
    }
  }

  /** One derived address: a root again, an alias of its host, or gone. */
  method SettleAddress(g: Gate, s: Seeds, part: Partition, covered: set<int>, a: int) returns (t: Seeds)
    requires a in part.derived && Owned(g.o, a) && CallReason(part.derived[a])
    ensures t.included == SettleOne(part, covered, s.included, a)
  {
    if a in part.known {
      CallTargetEnters(g, s, a, part.derived[a]);
      t := Include(g, s, a, part.derived[a]);
    } else if a in covered {
      t := s.(included := s.included[a := DispatchInterior]);
    } else {
      t := Exclude(s.(included := s.included - {a}), a, ObservedPcOnly);
    }
  }

  /** The loop over the derived reasons. */
  method SettleDerived(g: Gate, s: Seeds, part: Partition, covered: set<int>) returns (t: Seeds)
    requires forall a :: a in part.derived ==> Owned(g.o, a) && CallReason(part.derived[a])
    ensures Settled(s.included, part, covered, part.derived.Keys, t.included)
  {
    t := s;
    var items := Sorted(part.derived.Keys);
    ghost var done: set<int> := {};
    for n := 0 to |items|
      invariant done == ToSet(items[..n]) && Settled(s.included, part, covered, done, t.included)
    {
      var a := items[n];
      NextItem(items, n);
      SettleStep(s.included, part, covered, done, t.included, a);
      t := SettleAddress(g, t, part, covered, a);
      done := done + {a};
    }
    assert items[..|items|] == items;
  }

  /** Dropping the interiors without a host leaves every address with its final reason. */
  ghost predicate Final(included: map<int, Reason>, part: Partition, covered: set<int>, now: map<int, Reason>) {
    forall a :: Lookup(now, a) == FinalReason(included, part, covered, a)
  }

  lemma DroppingFinishes(before: map<int, Reason>, part: Partition, covered: set<int>, now: map<int, Reason>)
    requires Settled(before, part, covered, part.derived.Keys, now)
    requires forall a :: a in part.derived ==> CallReason(part.derived[a])
    ensures Final(before, part, covered, now - (Interiors(now) - covered))
  {
    var last := now - (Interiors(now) - covered);
    forall a ensures Lookup(last, a) == FinalReason(before, part, covered, a) {
      assert SettledAt(before, part, covered, part.derived.Keys, now, a);
    }
  }

  /** The interiors without a host are dropped. */
  function DropHostless(s: Seeds, cap: Capture, covered: set<int>): Seeds {
    var hostless := Interiors(s.included) - covered;
    Seeds(s.included - hostless, s.excluded + map a | a in hostless :: if a in cap.executed then ObservedPcOnly else Unknown)
  }

  /** Everything in the region that the capture saw. */
  function Candidates(o: Overlay, cap: Capture): set<int> {
    set a | a in cap.executed + cap.dispatch + cap.functions + cap.discovery + cap.legacy + cap.toml && InRegion(o, a)
  }

  /** Why a candidate is left out. */
  function Reject(cap: Capture, branches: set<int>, a: int): Exclusion {
    if a in branches then BranchTargetOnly else if a in cap.executed || a in cap.legacy then ObservedPcOnly else Unknown
  }

  /** Every candidate that is not included gets an exclusion. */
  function ExcludeRest(o: Overlay, cap: Capture, s: Seeds, branches: set<int>): Seeds {
    s.(excluded := s.excluded + map a | a in Candidates(o, cap) - s.included.Keys :: Reject(cap, branches, a))
  }

  function BranchesOf(walks: seq<Walk>): set<int> {
    set i, a | 0 <= i < |walks| && a in walks[i].branches + walks[i].tables + walks[i].forwards :: a
  }

  /** The roots in ascending order, their walked bodies, and the reasons of everything that is emitted. */
  datatype Classified = Classified(seeds: Seeds, roots: seq<int>, bodies: seq<set<int>>)

  /** The classification that a finished discovery amounts to. */
  ghost predicate Emitted(walker: Walker, g: Gate, cap: Capture, included: map<int, Reason>, part: Partition, c: Classified) {
    var roots := Sorted(part.known);
    var walks := WalksBy(walker, g.o.Hi(), roots);
    && c.roots == roots && c.bodies == BodiesOf(walks) && Final(included, part, UnionOf(c.bodies), c.seeds.included)
    && forall a :: a in Candidates(g.o, cap) && a !in c.seeds.included ==>
         Lookup(c.seeds.excluded, a) == Some(Reject(cap, BranchesOf(walks) + g.tables, a))
  }

  /** The final walks and the settling of every reason. */
  method Emit(g: Gate, cap: Capture, s: Seeds, part: Partition, ghost walker: Walker) returns (c: Classified)
    requires walker == WalkerOf(g.o)
    requires forall a :: a in part.derived ==> Owned(g.o, a) && CallReason(part.derived[a])
    ensures Emitted(walker, g, cap, s.included, part, c)
  {
    var roots := Sorted(part.known);
    var walks := WalkAll(g.o, roots, walker);
    var covered := UnionOf(BodiesOf(walks));
    var t := SettleDerived(g, s, part, covered);
    DroppingFinishes(s.included, part, covered, t.included);
    t := DropHostless(t, cap, covered);
    t := ExcludeRest(g.o, cap, t, BranchesOf(walks) + g.tables);
    c := Classified(t, roots, BodiesOf(walks));
  }

  // ---- The whole classification --------------------------------------------------

  /** The roots whose walks find the case labels: captured entries, before any boundary is known. */
  function PreRoots(o: Overlay, cap: Capture): set<int> {
    set a | a in cap.legacy + cap.dispatch + cap.functions + cap.discovery + cap.toml && InRegion(o, a) &&
            (a in cap.functions + cap.discovery + cap.toml || CallableLegacySeed(o, a))
  }

  function TablesIn(walks: seq<Walk>): set<int> { set i, a | 0 <= i < |walks| && a in walks[i].tables :: a }

  function CaseLabels(walker: Walker, o: Overlay, cap: Capture): set<int> {
    TablesIn(WalksBy(walker, o.Hi(), Sorted(PreRoots(o, cap))))
  }

  /** The jump-table targets that the captured roots' own walks find. */
  method CapturedTables(o: Overlay, cap: Capture, ghost walker: Walker) returns (tables: set<int>)
    requires walker == WalkerOf(o)
    ensures tables == CaseLabels(walker, o, cap)
  {
    var callable := set a | a in cap.legacy + cap.dispatch && InRegion(o, a) && CallableLegacySeed(o, a);
    var roots := callable + set a | a in cap.functions + cap.discovery + cap.toml && InRegion(o, a);
    assert roots == PreRoots(o, cap);
    var walks := WalkAll(o, Sorted(roots), walker);
    tables := TablesIn(walks);
  }

  function GateOf(walker: Walker, o: Overlay, cap: Capture): Gate { Gate(o, cap.gameText, CaseLabels(walker, o, cap)) }

  /** The reasons are the capture's. */
  ghost predicate Captures(g: Gate, cap: Capture, admitted: map<int, Reason>) {
    forall a :: Lookup(admitted, a) == Initial(g, cap, a)
  }

  function Start(o: Overlay, admitted: map<int, Reason>): Task { Task(o, admitted, RootsOf(admitted), {}) }

  function Undiscovered(admitted: map<int, Reason>): Discovery { Discovery(Explicit(RootsOf(admitted)), {}, 0) }

  /** The classification of a capture: its reasons, the discovery they start, and what that discovery emits. */
  ghost predicate Classifies(walker: Walker, o: Overlay, cap: Capture, admitted: map<int, Reason>, c: Classified) {
    var g := GateOf(walker, o, cap);
    var e := Promote(walker, Start(o, admitted), Undiscovered(admitted));
    Captures(g, cap, admitted) && Emitted(walker, g, cap, e.task.included, e.found.part, c)
  }

  lemma DiscoveryStarts(g: Gate, cap: Capture, admitted: map<int, Reason>)
    requires Admissible(g.o, cap) && Captures(g, cap, admitted)
    ensures Discovering(admitted, Start(g.o, admitted), Undiscovered(admitted))
  {
    forall a | a in admitted ensures Owned(g.o, a) {
      assert Lookup(admitted, a) == Initial(g, cap, a);
      InitialIsOwned(g, cap, a);
    }
  }

  // ---- What every classification is ----------------------------------------------

  /** The discovery behind a classification is over, and nothing in the kernel window is left to promote. */
  ghost predicate Finished(walker: Walker, g: Gate, cap: Capture, admitted: map<int, Reason>, k: Task, d: Discovery, c: Classified) {
    && k.o == g.o && Captures(g, cap, admitted) && Discovering(admitted, k, d) && Ended(walker, k, d)
    && Emitted(walker, g, cap, k.included, d.part, c)
    && (InKernelWindow(g.o) ==> Orphans(g.o, k.included, UnionOf(c.bodies)) == {})
  }

  lemma ClassificationFinishes(walker: Walker, o: Overlay, cap: Capture, admitted: map<int, Reason>, c: Classified)
    returns (k: Task, d: Discovery)
    requires AllBounded(o, walker) && Admissible(o, cap) && Classifies(walker, o, cap, admitted, c)
    ensures Finished(walker, GateOf(walker, o, cap), cap, admitted, k, d, c)
  {
    DiscoveryStarts(GateOf(walker, o, cap), cap, admitted);
    PromoteEnds(walker, admitted, Start(o, admitted), Undiscovered(admitted));
    var e := Promote(walker, Start(o, admitted), Undiscovered(admitted));
    k, d := e.task, e.found;
  }

  predicate HostOf(c: Classified, i: nat, a: int) { i < |c.bodies| && a in c.bodies[i] }

  /** The emitted roots are the final partition, each with its own body, and every interior has exactly one host. */
  ghost predicate WellPartitioned(walker: Walker, hi: int, c: Classified) {
    && Increasing(c.roots) && |c.bodies| == |c.roots|
    && ToSet(c.roots) == RootsOf(c.seeds.included)
    && (forall i: nat :: i < |c.roots| ==> c.bodies[i] == WalkAt(walker, hi, c.roots, i).visited)
    && (forall i: nat, j: nat :: i < j < |c.roots| ==> c.bodies[i] !! c.bodies[j])
    && forall a :: a in Interiors(c.seeds.included) ==> exists i: nat :: HostOf(c, i, a)
  }

  /** No address has two hosts. */
  lemma OneHost(walker: Walker, hi: int, c: Classified, a: int, i: nat, j: nat)
    requires WellPartitioned(walker, hi, c) && i != j
    ensures !(HostOf(c, i, a) && HostOf(c, j, a))
  {
    var low, high := if i < j then i else j, if i < j then j else i;
    if high < |c.roots| {
      assert c.bodies[low] !! c.bodies[high];
    }
  }

  lemma FinalRoots(admitted: map<int, Reason>, k: Task, d: Discovery, covered: set<int>, now: map<int, Reason>)
    requires Discovering(admitted, k, d) && Final(k.included, d.part, covered, now)
    ensures RootsOf(now) == d.part.known
    ensures Interiors(now) <= covered
  {
    forall a ensures a in RootsOf(now) <==> a in d.part.known {
      assert Lookup(now, a) == FinalReason(k.included, d.part, covered, a);
      assert a in k.Kept() <==> a in RootsOf(k.included);
    }
    forall a | a in Interiors(now) ensures a in covered {
      assert Lookup(now, a) == FinalReason(k.included, d.part, covered, a);
    }
  }

  /** The emitted walk roots are exactly the final partition, their bodies are disjoint, and every interior has a host. */
  lemma EmissionIsPartition(walker: Walker, g: Gate, cap: Capture, admitted: map<int, Reason>, k: Task, d: Discovery, c: Classified)
    requires AllBounded(g.o, walker) && Finished(walker, g, cap, admitted, k, d, c)
    ensures WellPartitioned(walker, g.o.Hi(), c)
  {
    var hi := g.o.Hi();
    FinalRoots(admitted, k, d, UnionOf(c.bodies), c.seeds.included);
    forall i: nat, j: nat | i < j < |c.roots| ensures c.bodies[i] !! c.bodies[j] {
      BodiesDisjoint(g.o, walker, c.roots, i, j);
    }
    forall a | a in Interiors(c.seeds.included) ensures exists i: nat :: HostOf(c, i, a) {
      var i: nat :| i < |c.bodies| && a in c.bodies[i];
      assert HostOf(c, i, a);
    }
  }

  /** A walk of the final partition finds the target for this reason. */
  ghost predicate FoundAtEnd(walker: Walker, k: Task, d: Discovery, roots: seq<int>, t: int, r: Reason) {
    RoundFinds(k, d.part.derived, d.suppressed, roots, WalksBy(walker, k.o.Hi(), roots), t, r)
  }

  /** Where an emitted reason comes from: the capture, a promotion, a walk, or a covering walk. */
  ghost predicate Accounted(walker: Walker, g: Gate, cap: Capture, k: Task, d: Discovery, c: Classified, a: int, r: Reason) {
    || Initial(g, cap, a) == Some(r)
    || (r.DispatchRoot? && Initial(g, cap, a) == Some(DispatchInterior) && IsValid(g.o.Code()(a)))
    || FoundAtEnd(walker, k, d, c.roots, a, r)
    || (r.DispatchInterior? && a !in ToSet(c.roots) && a in UnionOf(c.bodies) && exists why :: FoundAtEnd(walker, k, d, c.roots, a, why))
  }

  lemma FinalOf(included: map<int, Reason>, part: Partition, covered: set<int>, now: map<int, Reason>, a: int)
    requires Final(included, part, covered, now) && a in now
    ensures a in part.derived ==> now[a] == if a in part.known then part.derived[a] else DispatchInterior
    ensures a in part.derived && a !in part.known ==> a in covered
    ensures a !in part.derived ==> a in included && now[a] == included[a]
  {
    assert Lookup(now, a) == FinalReason(included, part, covered, a);
  }

  lemma StableDerives(walker: Walker, k: Task, d: Discovery)
    requires Stable(StepOf(k, walker), d)
    ensures var roots := Sorted(d.part.known);
      d.part.derived == NextReasons(k, d.part.derived, d.suppressed, roots, WalksBy(walker, k.o.Hi(), roots))
  {
    assert StepOf(k, walker)(d.part, d.suppressed) == Next(k, walker, d.part, d.suppressed);
  }

  lemma DerivedIsFound(k: Task, derived: map<int, Reason>, suppressed: set<int>, roots: seq<int>, walks: seq<Walk>, t: int)
    requires |roots| == |walks| && derived == NextReasons(k, derived, suppressed, roots, walks)
    ensures t in derived <==> exists r :: RoundFinds(k, derived, suppressed, roots, walks, t, r)
    ensures t in derived ==> RoundFinds(k, derived, suppressed, roots, walks, t, derived[t])
    ensures t in derived ==> (derived[t].DirectJalTarget? <==> RoundFinds(k, derived, suppressed, roots, walks, t, DirectJalTarget))
  {
    RoundIsExact(k, derived, suppressed, roots, walks, t);
  }

  /** A derived reason of the final partition is one its own walks find, what they find is derived, and what they call, as called. */
  lemma DerivedAtEnd(walker: Walker, k: Task, d: Discovery, t: int)
    requires Stable(StepOf(k, walker), d)
    ensures t in d.part.derived <==> exists r :: FoundAtEnd(walker, k, d, Sorted(d.part.known), t, r)
    ensures t in d.part.derived ==> FoundAtEnd(walker, k, d, Sorted(d.part.known), t, d.part.derived[t])
    ensures t in d.part.derived ==>
      (d.part.derived[t].DirectJalTarget? <==> FoundAtEnd(walker, k, d, Sorted(d.part.known), t, DirectJalTarget))
  {
    var roots := Sorted(d.part.known);
    var walks := WalksBy(walker, k.o.Hi(), roots);
    StableDerives(walker, k, d);
    DerivedIsFound(k, d.part.derived, d.suppressed, roots, walks, t);
    forall r ensures FoundAtEnd(walker, k, d, roots, t, r) <==> RoundFinds(k, d.part.derived, d.suppressed, roots, walks, t, r) {}
  }

  /** Every emitted reason is accounted for. */
  lemma EveryReasonAccounted(walker: Walker, g: Gate, cap: Capture, admitted: map<int, Reason>, k: Task, d: Discovery, c: Classified, a: int)
    requires Finished(walker, g, cap, admitted, k, d, c) && a in c.seeds.included
    ensures Accounted(walker, g, cap, k, d, c, a, c.seeds.included[a])
  {
    FinalOf(k.included, d.part, UnionOf(c.bodies), c.seeds.included, a);
    if a in d.part.derived {
      assert d.part != Explicit(k.Kept());
      DerivedAtEnd(walker, k, d, a);
    } else {
      assert Lookup(admitted, a) == Initial(g, cap, a);
    }
  }

  /** Every root the capture gives is emitted as a root, for the capture's reason. */
  lemma CapturedRootsStay(walker: Walker, g: Gate, cap: Capture, admitted: map<int, Reason>, k: Task, d: Discovery, c: Classified, a: int)
    requires Finished(walker, g, cap, admitted, k, d, c)
    requires Initial(g, cap, a).Some? && !Initial(g, cap, a).value.DispatchInterior?
    ensures a in c.roots && Lookup(c.seeds.included, a) == Initial(g, cap, a)
  {
    assert Lookup(admitted, a) == Initial(g, cap, a);
    assert a in RootsOf(admitted) && a in k.initial && a in k.Kept() && a in d.part.known;
    assert a in ToSet(Sorted(d.part.known));
    assert Lookup(c.seeds.included, a) == FinalReason(k.included, d.part, UnionOf(c.bodies), a);
  }

  /** Where a root or an interior ends up. */
  lemma FinalPlace(included: map<int, Reason>, part: Partition, covered: set<int>, now: map<int, Reason>, a: int)
    requires Final(included, part, covered, now)
    ensures a in part.derived && a !in part.known && a in covered ==> Lookup(now, a) == Some(DispatchInterior)
    ensures a in part.derived && a in part.known ==> a in now
    ensures a !in part.derived && a in included && (included[a].DispatchInterior? ==> a in covered) ==> a in now
  {
    assert Lookup(now, a) == FinalReason(included, part, covered, a);
  }

  /** A derived root that the final partition lacks is owned by the roots that are left. */
  lemma DroppedIsOwned(walker: Walker, k: Task, d: Discovery, t: int)
    requires Stable(StepOf(k, walker), d) && t in d.part.derived && t !in d.part.known
    ensures OwnedByRest(walker, k.o.Hi(), k.Kept() + d.part.derived.Keys, d.part.known, t)
  {
    NormalisedExactly(walker, k.o.Hi(), k.Kept(), d.part.derived.Keys);
    assert d.part.known == Normalised(walker, k.o.Hi(), k.Kept(), d.part.derived.Keys);
  }

  /** When the discovery has settled, a derived target is a root, or owned by one and an alias when a body holds it. */
  lemma DerivedIsSettled(walker: Walker, k: Task, d: Discovery, covered: set<int>, now: map<int, Reason>, t: int)
    requires Stable(StepOf(k, walker), d) && Final(k.included, d.part, covered, now) && t in d.part.derived
    ensures t in d.part.known || OwnedByRest(walker, k.o.Hi(), k.Kept() + d.part.derived.Keys, d.part.known, t)
    ensures t in d.part.known ==> t in now
    ensures t !in d.part.known && t in covered ==> Lookup(now, t) == Some(DispatchInterior)
  {
    FinalPlace(k.included, d.part, covered, now, t);
    if t !in d.part.known { DroppedIsOwned(walker, k, d, t); }
  }

  /** A target that is free to become a root: not captured as one, and not suppressed. */
  predicate Free(k: Task, d: Discovery, t: int) { t !in k.initial && t !in d.suppressed }

  lemma CalleeIsDerived(walker: Walker, k: Task, d: Discovery, i: nat, t: int)
    requires Stable(StepOf(k, walker), d) && i < |Sorted(d.part.known)| && Free(k, d, t)
    requires var w := WalkAt(walker, k.o.Hi(), Sorted(d.part.known), i); t in w.directJals || t in w.indirect
    ensures t in d.part.derived
    ensures t in WalkAt(walker, k.o.Hi(), Sorted(d.part.known), i).directJals ==> d.part.derived[t].DirectJalTarget?
  {
    var roots := Sorted(d.part.known);
    var walks := WalksBy(walker, k.o.Hi(), roots);
    StableDerives(walker, k, d);
    RoundIsExact(k, d.part.derived, d.suppressed, roots, walks, t);
    var why := if t in walks[i].directJals then DirectJalTarget else StaticIndirectTarget;
    assert FoundInWalk(k, d.part.derived, d.suppressed, roots[i], walks[i], t, why);
    assert RoundFinds(k, d.part.derived, d.suppressed, roots, walks, t, why);
  }

  /**
   In a settled discovery no callee is lost. What the walk of an emitted root calls, by `jal` or by a constant in a
   register, is emitted as a root, and for the `jal` if there is one, or a root that is left owns it.
   */
  lemma CalleesAreEmitted(walker: Walker, g: Gate, cap: Capture, admitted: map<int, Reason>, k: Task, d: Discovery, c: Classified,
                          i: nat, t: int)
    requires Finished(walker, g, cap, admitted, k, d, c) && Stable(StepOf(k, walker), d) && i < |c.roots| && Free(k, d, t)
    requires var w := WalkAt(walker, g.o.Hi(), c.roots, i); t in w.directJals || t in w.indirect
    ensures t in c.roots || OwnedByRest(walker, g.o.Hi(), k.Kept() + d.part.derived.Keys, ToSet(c.roots), t)
    ensures t in c.roots && t in WalkAt(walker, g.o.Hi(), c.roots, i).directJals ==>
      Lookup(c.seeds.included, t) == Some(DirectJalTarget)
  {
    CalleeIsDerived(walker, k, d, i, t);
    assert ToSet(c.roots) == d.part.known;
    if t !in d.part.known { DroppedIsOwned(walker, k, d, t); }
    assert Lookup(c.seeds.included, t) == FinalReason(k.included, d.part, UnionOf(c.bodies), t);
  }

  /**
   In the kernel window a captured interior with a valid word is not lost: it is emitted, unless a walk made it a
   derived root and a root that is left owns it.
   */
  lemma KernelInteriorsStay(walker: Walker, k: Task, d: Discovery, covered: set<int>, now: map<int, Reason>, a: int)
    requires Ended(walker, k, d) && Final(k.included, d.part, covered, now) && Orphans(k.o, k.included, covered) == {}
    requires a in k.included && IsValid(k.o.Code()(a))
    ensures a in now || OwnedByRest(walker, k.o.Hi(), k.Kept() + d.part.derived.Keys, d.part.known, a)
  {
    assert a !in Orphans(k.o, k.included, covered);
    FinalPlace(k.included, d.part, covered, now, a);
    if a in d.part.derived && a !in d.part.known { DroppedIsOwned(walker, k, d, a); }
  }

  lemma ClassificationIsPartition(walker: Walker, o: Overlay, cap: Capture, admitted: map<int, Reason>, c: Classified)
    requires AllBounded(o, walker) && Admissible(o, cap) && Classifies(walker, o, cap, admitted, c)
    ensures WellPartitioned(walker, o.Hi(), c)
  {
    var k, d := ClassificationFinishes(walker, o, cap, admitted, c);
    EmissionIsPartition(walker, GateOf(walker, o, cap), cap, admitted, k, d, c);
  }

  /** classify_overlay_seeds; `None` where the source raises. */
  method ClassifyOverlaySeeds(o: Overlay, cap: Capture) returns (r: Option<Classified>)
    ensures r.Some? <==> Admissible(o, cap)
    ensures r.Some? ==> exists admitted :: Classifies(WalkerOf(o), o, cap, admitted, r.value)
    ensures r.Some? ==> WellPartitioned(WalkerOf(o), o.Hi(), r.value)
  {
    if !Admissible(o, cap) {
      return None;
    }
    ghost var walker := WalkerOf(o);
    var tables := CapturedTables(o, cap, walker);
    var g := Gate(o, cap.gameText, tables);
    var s := Admit(g, cap);
    DiscoveryStarts(g, cap, s.included);
    WalkerIsBounded(o);
    PromoteEnds(walker, s.included, Start(o, s.included), Undiscovered(s.included));
    var k, d := DiscoverAndPromote(Start(o, s.included), Undiscovered(s.included), walker);
    var c := Emit(g, cap, s.(included := k.included), d.part, walker);
    assert Classifies(walker, o, cap, s.included, c);
    ClassificationIsPartition(walker, o, cap, s.included, c);
    r := Some(c);
  }
}
