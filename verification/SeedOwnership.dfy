/** classify_overlay_seeds, second part: the ownership fixed point over derived roots. */
module SeedOwnership {
  import opened Prelude
  import opened Sorting
  import opened OverlayWalk
  import opened SeedAdmission

  const ROUND_LIMIT := 64
  const SUPPRESSION_LIMIT := 64

  /** The walk roots and the reasons of the derived ones. */
  datatype Partition = Partition(known: set<int>, derived: map<int, Reason>)

  /** What a discovery works on: the image, the reasons so far, and the initial and the promoted roots. */
  datatype Task = Task(o: Overlay, included: map<int, Reason>, initial: set<int>, promoted: set<int>) {
    function Kept(): set<int> { initial + promoted }
  }

  // ---- One round -----------------------------------------------------------

  /** A source whose own reason is strong enough to vouch for a branch out of it. */
  predicate StrongReason(r: Reason) {
    CallReason(r) || r.StaticDiscoveryRoot? || r.StaticDispatchEntry? || r.TomlDeclaredEntry? || r.DispatchRoot?
  }

  predicate StrongSource(k: Task, derived: map<int, Reason>, root: int) {
    || (if root in k.included then StrongReason(k.included[root])
        else if root in derived then StrongReason(derived[root])
        else root in k.promoted)
    || CallableLegacySeed(k.o, root)
  }

  /** A branch from the body of `root` to `t` makes `t` a function: same producer, and a plausible body. */
  predicate BranchVouches(o: Overlay, root: int, t: int) {
    var from, to := ProducerIn(o.producers, root), ProducerIn(o.producers, t);
    (o.producers != [] ==> from == to) && Plausible(o, t, if to.Some? then to.value.1 else o.Hi())
  }

  method LooksLikeRoot(o: Overlay, root: int, t: int) returns (ok: bool)
    ensures ok == BranchVouches(o, root, t)
  {
    var from, to := ProducerIn(o.producers, root), ProducerIn(o.producers, t);
    if o.producers != [] && from != to { return false; }
    ok := PlausibleCallableTarget(o, t, if to.Some? then to.value.1 else o.Hi());
  }

  type Voucher = int -> bool

  function VoucherOf(o: Overlay, root: int): Voucher { t => BranchVouches(o, root, t) }

  function Filtered(s: set<int>, vouches: Voucher): set<int> { set t | t in s && vouches(t) }

  lemma FilterStep(good: set<int>, items: seq<int>, n: nat)
    requires n < |items|
    ensures good * ToSet(items[..n+1]) == (good * ToSet(items[..n])) + if items[n] in good then {items[n]} else {}
  {
    NextItem(items, n);
  }

  method AddRoot(o: Overlay, root: int, t: int, found: set<int>, ghost s: set<int>) returns (more: set<int>)
    requires t in s
    ensures more == found + if t in Filtered(s, VoucherOf(o, root)) then {t} else {}
  {
    var ok := LooksLikeRoot(o, root, t);
    assert ok == VoucherOf(o, root)(t);
    more := if ok then found + {t} else found;
  }

  /** The branches out of a body that make their target a root. */
  method ForwardRoots(o: Overlay, root: int, w: Walk) returns (found: set<int>)
    ensures found == Filtered(w.forwards, VoucherOf(o, root))
  {
    found := {};
    var items := Sorted(w.forwards);
    ghost var good := Filtered(w.forwards, VoucherOf(o, root));
    for n := 0 to |items|
      invariant found == good * ToSet(items[..n])
    {
      FilterStep(good, items, n);
      NextItem(items, n);
      found := AddRoot(o, root, items[n], found, w.forwards);
    }
    assert items[..|items|] == items && good <= w.forwards;
  }

  // ---- One round -----------------------------------------------------------

  /** The new targets a walk finds: by direct call, by a constant in a register, by a branch out of the body. */
  datatype Finds = Finds(jals: set<int>, indirect: set<int>, forwards: set<int>)

  function FindsOf(k: Task, derived: map<int, Reason>, suppressed: set<int>, root: int, w: Walk): Finds {
    var barred := k.initial + suppressed;
    Finds(w.directJals - barred, w.indirect - barred,
          if StrongSource(k, derived, root) then Filtered(w.forwards, VoucherOf(k.o, root)) - barred else {})
  }

  method FindIn(k: Task, derived: map<int, Reason>, suppressed: set<int>, root: int, w: Walk) returns (f: Finds)
    ensures f == FindsOf(k, derived, suppressed, root, w)
  {
    var barred := k.initial + suppressed;
    var forwards: set<int> := {};
    if StrongSource(k, derived, root) {
      forwards := ForwardRoots(k.o, root, w);
    }
    f := Finds(w.directJals - barred, w.indirect - barred, forwards - barred);
  }

  function Reasons(s: set<int>, r: Reason): map<int, Reason> { map t | t in s :: r }

  /** Direct calls outrank what earlier walks gave, the rest only fills gaps. */
  function Merge(f: Finds, next: map<int, Reason>): map<int, Reason> {
    Reasons(f.forwards, StaticBranchRoot) + (Reasons(f.indirect, StaticIndirectTarget) + (next + Reasons(f.jals, DirectJalTarget)))
  }

  function DerivedBy(finds: seq<Finds>, n: nat): map<int, Reason>
    requires n <= |finds|
  {
    if n == 0 then map[] else Merge(finds[n-1], DerivedBy(finds, n - 1))
  }

  /** What the walks from the roots find. */
  function AllFinds(k: Task, derived: map<int, Reason>, suppressed: set<int>, roots: seq<int>, walks: seq<Walk>): seq<Finds>
    requires |roots| == |walks|
  {
    seq(|roots|, i requires 0 <= i < |roots| => FindsOf(k, derived, suppressed, roots[i], walks[i]))
  }

  /** The derived reasons of the next round. */
  function NextReasons(k: Task, derived: map<int, Reason>, suppressed: set<int>, roots: seq<int>, walks: seq<Walk>): map<int, Reason>
    requires |roots| == |walks|
  {
    DerivedBy(AllFinds(k, derived, suppressed, roots, walks), |roots|)
  }

  /** The loop of one discovery round over the walks of the current partition. */
  method DeriveReasons(k: Task, derived: map<int, Reason>, suppressed: set<int>, roots: seq<int>, walks: seq<Walk>)
    returns (next: map<int, Reason>)
    requires |roots| == |walks|
    ensures next == NextReasons(k, derived, suppressed, roots, walks)
  {
    ghost var finds := AllFinds(k, derived, suppressed, roots, walks);
    next := map[];
    for n := 0 to |roots|
      invariant next == DerivedBy(finds, n)
    {
      var f := FindIn(k, derived, suppressed, roots[n], walks[n]);
      assert f == finds[n];
      next := Merge(f, next);
    }
  }

  predicate FoundIn(f: Finds, t: int, r: Reason) {
    match r
    case DirectJalTarget => t in f.jals
    case StaticIndirectTarget => t in f.indirect
    case StaticBranchRoot => t in f.forwards
    case _ => false
  }

  /** One of the first `n` walks finds the target for this reason. */
  predicate FoundBy(finds: seq<Finds>, n: nat, t: int, r: Reason)
    requires n <= |finds|
  {
    exists i: nat :: i < n && FoundIn(finds[i], t, r)
  }

  /** Exactly the targets found are derived, each for a reason it is found for, and for a direct call if there is one. */
  ghost predicate DerivedAt(finds: seq<Finds>, n: nat, next: map<int, Reason>, t: int)
    requires n <= |finds|
  {
    && (t in next <==> exists r :: FoundBy(finds, n, t, r))
    && (t in next ==> FoundBy(finds, n, t, next[t]))
    && (t in next && FoundBy(finds, n, t, DirectJalTarget) ==> next[t].DirectJalTarget?)
  }

  lemma FoundOneMore(finds: seq<Finds>, n: nat, t: int)
    requires n < |finds|
    ensures forall r :: FoundBy(finds, n + 1, t, r) <==> FoundBy(finds, n, t, r) || FoundIn(finds[n], t, r)
  {
  }

  lemma MergeIsDerived(finds: seq<Finds>, n: nat, next: map<int, Reason>, t: int)
    requires n < |finds| && DerivedAt(finds, n, next, t)
    ensures DerivedAt(finds, n + 1, Merge(finds[n], next), t)
  {
    var f, more := finds[n], Merge(finds[n], next);
    FoundOneMore(finds, n, t);
    assert t in more <==> t in next || t in f.jals || t in f.indirect || t in f.forwards;
    assert t in more ==> more[t] == if t in f.jals then DirectJalTarget else if t in next then next[t]
                                    else if t in f.indirect then StaticIndirectTarget else StaticBranchRoot;
    assert FoundIn(f, t, DirectJalTarget) <==> t in f.jals;
    assert FoundIn(f, t, StaticIndirectTarget) <==> t in f.indirect;
    assert FoundIn(f, t, StaticBranchRoot) <==> t in f.forwards;
    if t in next { assert FoundBy(finds, n + 1, t, next[t]); }
    if t in more { assert FoundBy(finds, n + 1, t, more[t]); }
  }

  lemma {:induction false} AllDerived(finds: seq<Finds>, n: nat, t: int)
    requires n <= |finds|
    ensures DerivedAt(finds, n, DerivedBy(finds, n), t)
    decreases n
  {
    if n > 0 {
      AllDerived(finds, n - 1, t);
      MergeIsDerived(finds, n - 1, DerivedBy(finds, n - 1), t);
    }
  }

  /** A walk from `root` finds a target that is neither initial nor suppressed: by a call, by a constant, by a branch out of it. */
  predicate FoundInWalk(k: Task, derived: map<int, Reason>, suppressed: set<int>, root: int, w: Walk, t: int, r: Reason) {
    && t !in k.initial && t !in suppressed
    && match r
       case DirectJalTarget => t in w.directJals
       case StaticIndirectTarget => t in w.indirect
       case StaticBranchRoot => t in w.forwards && StrongSource(k, derived, root) && BranchVouches(k.o, root, t)
       case _ => false
  }

  /** Some walk finds the target for this reason. */
  ghost predicate RoundFinds(k: Task, derived: map<int, Reason>, suppressed: set<int>, roots: seq<int>, walks: seq<Walk>, t: int, r: Reason)
    requires |roots| == |walks|
  {
    exists i: nat :: i < |roots| && FoundInWalk(k, derived, suppressed, roots[i], walks[i], t, r)
  }

  lemma FindsAreFound(k: Task, derived: map<int, Reason>, suppressed: set<int>, root: int, w: Walk, t: int, r: Reason)
    ensures FoundIn(FindsOf(k, derived, suppressed, root, w), t, r) <==> FoundInWalk(k, derived, suppressed, root, w, t, r)
  {
  }

  lemma FoundByWalks(k: Task, derived: map<int, Reason>, suppressed: set<int>, roots: seq<int>, walks: seq<Walk>, t: int, r: Reason)
    requires |roots| == |walks|
    ensures FoundBy(AllFinds(k, derived, suppressed, roots, walks), |roots|, t, r) <==> RoundFinds(k, derived, suppressed, roots, walks, t, r)
  {
    var finds := AllFinds(k, derived, suppressed, roots, walks);
    forall i: nat | i < |roots| ensures FoundIn(finds[i], t, r) <==> FoundInWalk(k, derived, suppressed, roots[i], walks[i], t, r) {
      FindsAreFound(k, derived, suppressed, roots[i], walks[i], t, r);
    }
  }

  /** A round derives exactly what its walks find, each for a reason they find it for, and for a call exactly when one calls it. */
  lemma RoundIsExact(k: Task, derived: map<int, Reason>, suppressed: set<int>, roots: seq<int>, walks: seq<Walk>, t: int)
    requires |roots| == |walks|
    ensures var next := NextReasons(k, derived, suppressed, roots, walks);
            && (t in next <==> exists r :: RoundFinds(k, derived, suppressed, roots, walks, t, r))
            && (t in next ==> RoundFinds(k, derived, suppressed, roots, walks, t, next[t]))
            && (t in next ==> (next[t].DirectJalTarget? <==> RoundFinds(k, derived, suppressed, roots, walks, t, DirectJalTarget)))
  {
    var finds := AllFinds(k, derived, suppressed, roots, walks);
    AllDerived(finds, |roots|, t);
    forall r ensures RoundFinds(k, derived, suppressed, roots, walks, t, r) <==> FoundBy(finds, |roots|, t, r) {
      FoundByWalks(k, derived, suppressed, roots, walks, t, r);
    }
  }

  // ---- Normalisation -------------------------------------------------------

  /** `bisect_left` on a root that is present. */
  function IndexOf(roots: seq<int>, t: int): nat
    requires t in roots
    ensures IndexOf(roots, t) < |roots| && roots[IndexOf(roots, t)] == t
  {
    if roots[0] == t then 0
    else
      assert roots == [roots[0]] + roots[1..];
      1 + IndexOf(roots[1..], t)
  }

  function Without(roots: seq<int>, k: nat): seq<int>
    requires k < |roots|
  {
    roots[..k] + roots[k+1..]
  }

  /** The walk of the root just below covers this one. */
  predicate CoveredBelow(walker: Walker, hi: int, roots: seq<int>, t: int) {
    t in roots && IndexOf(roots, t) > 0 && t in walker(roots[IndexOf(roots, t) - 1], CapOf(hi, roots, IndexOf(roots, t))).visited
  }

  function Uncover(walker: Walker, hi: int, roots: seq<int>, t: int): seq<int> {
    if CoveredBelow(walker, hi, roots, t) then Without(roots, IndexOf(roots, t)) else roots
  }

  /** The roots left after the targets have been considered in turn. */
  function Uncovered(walker: Walker, hi: int, roots: seq<int>, targets: seq<int>): seq<int> {
    if targets == [] then roots
    else Uncover(walker, hi, Uncovered(walker, hi, roots, targets[..|targets|-1]), targets[|targets|-1])
  }

  lemma UncoveredSnoc(walker: Walker, hi: int, roots: seq<int>, targets: seq<int>, n: nat)
    requires n < |targets|
    ensures Uncovered(walker, hi, roots, targets[..n+1]) == Uncover(walker, hi, Uncovered(walker, hi, roots, targets[..n]), targets[n])
  {
    assert targets[..n+1][..n] == targets[..n];
  }

  method UncoverOne(o: Overlay, roots: seq<int>, target: int, ghost walker: Walker) returns (left: seq<int>)
    requires walker == WalkerOf(o)
    ensures left == Uncover(walker, o.Hi(), roots, target)
  {
    left := roots;
    if target in roots && IndexOf(roots, target) > 0 {
      var k := IndexOf(roots, target);
      var w := WalkOverlayFunction(o, roots[k-1], CapOf(o.Hi(), roots, k));
      if target in w.visited {
        left := Without(roots, k);
      }
    }
  }

  /** The derived roots that the root below covers are dropped, each after the ones before it. */
  method UncoverAll(o: Overlay, start: seq<int>, targets: seq<int>, ghost walker: Walker) returns (roots: seq<int>)
    requires walker == WalkerOf(o)
    ensures roots == Uncovered(walker, o.Hi(), start, targets)
  {
    roots := start;
    for n := 0 to |targets|
      invariant roots == Uncovered(walker, o.Hi(), start, targets[..n])
    {
      UncoveredSnoc(walker, o.Hi(), start, targets, n);
      roots := UncoverOne(o, roots, targets[n], walker);
    }
    assert targets[..|targets|] == targets;
  }

  lemma WithoutAt(roots: seq<int>, k: nat, i: nat)
    requires k < |roots| && i < |roots| - 1
    ensures |Without(roots, k)| == |roots| - 1 && Without(roots, k)[i] == roots[if i < k then i else i + 1]
  {
  }

  lemma DropRoot(roots: seq<int>, k: nat)
    requires Increasing(roots) && k < |roots|
    ensures Increasing(Without(roots, k))
    ensures ToSet(Without(roots, k)) == ToSet(roots) - {roots[k]}
  {
    var rest := Without(roots, k);
    forall i, j | 0 <= i < j < |rest| ensures rest[i] < rest[j] {
      WithoutAt(roots, k, i);
      WithoutAt(roots, k, j);
    }
    forall x | x in rest ensures x in roots && x != roots[k] {
      var i :| 0 <= i < |rest| && rest[i] == x;
      WithoutAt(roots, k, i);
    }
    forall x | x in roots && x != roots[k] ensures x in rest {
      var i :| 0 <= i < |roots| && roots[i] == x;
      WithoutAt(roots, k, if i < k then i else i - 1);
    }
  }

  /** `owner` is the next root below `t`. */
  predicate NextBelow(roots: set<int>, t: int, owner: int) {
    owner in roots && owner < t && forall x :: x in roots ==> x <= owner || t <= x
  }

  /** `cap` is the next root above `t`, or the end of the region. */
  predicate NextAbove(roots: set<int>, hi: int, t: int, cap: int) {
    if exists x :: x in roots && t < x then cap in roots && t < cap && forall x :: x in roots ==> x <= t || cap <= x else cap == hi
  }

  /** The next root that is left below `t`, walked up to the next root that there was above `t`, covers `t`. */
  ghost predicate OwnedByRest(walker: Walker, hi: int, start: set<int>, left: set<int>, t: int) {
    exists owner, cap :: NextBelow(left, t, owner) && NextAbove(start, hi, t, cap) && t in walker(owner, cap).visited
  }

  lemma BelowIsBefore(roots: seq<int>, t: int, owner: int)
    requires Increasing(roots) && t in roots
    ensures NextBelow(ToSet(roots), t, owner) <==> IndexOf(roots, t) > 0 && owner == roots[IndexOf(roots, t) - 1]
  {
    var k := IndexOf(roots, t);
    if k > 0 {
      assert roots[k-1] in ToSet(roots);
      forall x | x in ToSet(roots) ensures x <= roots[k-1] || t <= x {
        var i :| 0 <= i < |roots| && roots[i] == x;
      }
    }
    if NextBelow(ToSet(roots), t, owner) {
      var i :| 0 <= i < |roots| && roots[i] == owner;
      assert i < k;
    }
  }

  lemma AboveIsBehind(hi: int, roots: seq<int>, t: int, cap: int)
    requires Increasing(roots) && t in roots
    ensures NextAbove(ToSet(roots), hi, t, cap) <==> cap == CapOf(hi, roots, IndexOf(roots, t))
  {
    var k := IndexOf(roots, t);
    forall x | x in ToSet(roots) && t < x ensures k + 1 < |roots| && roots[k+1] <= x {
      var i :| 0 <= i < |roots| && roots[i] == x;
    }
    if k + 1 < |roots| { assert roots[k+1] in ToSet(roots) && t < roots[k+1]; }
  }

  lemma CoveredIsOwned(walker: Walker, hi: int, roots: seq<int>, t: int)
    requires Increasing(roots) && t in roots
    ensures CoveredBelow(walker, hi, roots, t) <==> OwnedByRest(walker, hi, ToSet(roots), ToSet(roots), t)
  {
    if CoveredBelow(walker, hi, roots, t) {
      var owner, cap := roots[IndexOf(roots, t) - 1], CapOf(hi, roots, IndexOf(roots, t));
      BelowIsBefore(roots, t, owner);
      AboveIsBehind(hi, roots, t, cap);
    }
    if OwnedByRest(walker, hi, ToSet(roots), ToSet(roots), t) {
      var owner, cap :| NextBelow(ToSet(roots), t, owner) && NextAbove(ToSet(roots), hi, t, cap) && t in walker(owner, cap).visited;
      BelowIsBefore(roots, t, owner);
      AboveIsBehind(hi, roots, t, cap);
    }
  }

  lemma UncoverIs(walker: Walker, hi: int, roots: seq<int>, t: int)
    requires Increasing(roots) && t in roots
    ensures Increasing(Uncover(walker, hi, roots, t))
    ensures ToSet(Uncover(walker, hi, roots, t)) == ToSet(roots) - if CoveredBelow(walker, hi, roots, t) then {t} else {}
  {
    if CoveredBelow(walker, hi, roots, t) { DropRoot(roots, IndexOf(roots, t)); }
  }

  /** Only considered targets are missing, and each exactly when what is left owns it. */
  ghost predicate Considered(walker: Walker, hi: int, start: set<int>, done: set<int>, left: set<int>) {
    && left <= start && start - done <= left
    && forall t :: t in done ==> (t !in left <==> OwnedByRest(walker, hi, start, left, t))
  }

  /** Removing a larger root changes nothing for a smaller one, and roots above an unconsidered one are all there. */
  lemma OwnershipLocal(walker: Walker, hi: int, start: set<int>, left: set<int>, other: set<int>, top: set<int>, t: int)
    requires forall x :: x < t ==> (x in left <==> x in other)
    requires forall x :: t < x ==> (x in start <==> x in top)
    ensures OwnedByRest(walker, hi, start, left, t) <==> OwnedByRest(walker, hi, top, other, t)
  {
    forall owner ensures NextBelow(left, t, owner) <==> NextBelow(other, t, owner) {}
    forall cap ensures NextAbove(start, hi, t, cap) <==> NextAbove(top, hi, t, cap) {}
  }

  lemma ConsideredStep(walker: Walker, hi: int, start: set<int>, done: set<int>, roots: seq<int>, u: int)
    requires Increasing(roots) && Considered(walker, hi, start, done, ToSet(roots))
    requires u in start && forall t :: t in done ==> t < u
    ensures Increasing(Uncover(walker, hi, roots, u))
    ensures Considered(walker, hi, start, done + {u}, ToSet(Uncover(walker, hi, roots, u)))
  {
    var left, next := ToSet(roots), ToSet(Uncover(walker, hi, roots, u));
    assert u in left;
    UncoverIs(walker, hi, roots, u);
    CoveredIsOwned(walker, hi, roots, u);
    OwnershipLocal(walker, hi, start, next, left, left, u);
    forall t | t in done ensures t !in next <==> OwnedByRest(walker, hi, start, next, t) {
      OwnershipLocal(walker, hi, start, next, left, start, t);
    }
  }

  lemma {:induction false} AllConsidered(walker: Walker, hi: int, start: seq<int>, targets: seq<int>, n: nat)
    requires Increasing(start) && Increasing(targets) && ToSet(targets) <= ToSet(start) && n <= |targets|
    ensures var roots := Uncovered(walker, hi, start, targets[..n]);
            Increasing(roots) && Considered(walker, hi, ToSet(start), ToSet(targets[..n]), ToSet(roots))
    decreases n
  {
    if n > 0 {
      AllConsidered(walker, hi, start, targets, n - 1);
      UncoveredSnoc(walker, hi, start, targets, n - 1);
      NextItem(targets, n - 1);
      assert targets[n-1] in ToSet(targets);
      ConsideredStep(walker, hi, ToSet(start), ToSet(targets[..n-1]), Uncovered(walker, hi, start, targets[..n-1]), targets[n-1]);
    }
  }

  function Normalised(walker: Walker, hi: int, kept: set<int>, derived: set<int>): set<int> {
    ToSet(Uncovered(walker, hi, Sorted(kept + derived), Sorted(derived)))
  }

  /** A derived root is dropped exactly when the roots that are left own it; no other root is. */
  lemma NormalisedExactly(walker: Walker, hi: int, kept: set<int>, derived: set<int>)
    ensures Considered(walker, hi, kept + derived, derived, Normalised(walker, hi, kept, derived))
  {
    var targets := Sorted(derived);
    AllConsidered(walker, hi, Sorted(kept + derived), targets, |targets|);
    assert targets[..|targets|] == targets;
  }

  // ---- The fixed point -----------------------------------------------------

  /** The partition after one more round. */
  function Next(k: Task, walker: Walker, part: Partition, suppressed: set<int>): Partition {
    var roots := Sorted(part.known);
    var next := NextReasons(k, part.derived, suppressed, roots, WalksBy(walker, k.o.Hi(), roots));
    Partition(Normalised(walker, k.o.Hi(), k.Kept(), next.Keys), next)
  }

  method NextRound(k: Task, part: Partition, suppressed: set<int>, ghost walker: Walker) returns (next: Partition)
    requires walker == WalkerOf(k.o)
    ensures next == Next(k, walker, part, suppressed)
  {
    var roots := Sorted(part.known);
    var walks := WalkAll(k.o, roots, walker);
    var reasons := DeriveReasons(k, part.derived, suppressed, roots, walks);
    var normalized := UncoverAll(k.o, Sorted(k.Kept() + reasons.Keys), Sorted(reasons.Keys), walker);
    next := Partition(ToSet(normalized), reasons);
  }

  /** What a discovery state is recognised by. */
  datatype State = State(known: set<int>, derived: set<int>)

  function StateOf(part: Partition): State { State(part.known, part.derived.Keys) }

  function UnionAll(s: seq<set<int>>): set<int> {
    set i, a | 0 <= i < |s| && a in s[i] :: a
  }

  /** Addresses that are in some but not all of the sets. */
  function Wavering(s: seq<set<int>>): set<int> {
    set a | a in UnionAll(s) && exists i :: 0 <= i < |s| && a !in s[i]
  }

  /** The addresses that differ between the states of a cycle. */
  function Unstable(cycle: seq<State>): set<int> {
    Wavering(seq(|cycle|, i requires 0 <= i < |cycle| => cycle[i].known)) +
    Wavering(seq(|cycle|, i requires 0 <= i < |cycle| => cycle[i].derived))
  }

  function StateIndex(history: seq<State>, state: State): nat
    requires state in history
    ensures StateIndex(history, state) < |history| && history[StateIndex(history, state)] == state
  {
    if history[|history|-1] == state && state !in history[..|history|-1] then |history| - 1
    else
      assert history == history[..|history|-1] + [history[|history|-1]];
      StateIndex(history[..|history|-1], state)
  }

  /** The roots to suppress when the state comes up again: those its cycle does not agree on. */
  function Disputed(kept: set<int>, history: seq<State>, state: State): set<int> {
    (if state in history then Unstable(history[StateIndex(history, state)..]) else {}) - kept
  }

  /** A partition with the targets suppressed so far and the passes that took. */
  datatype Discovery = Discovery(part: Partition, suppressed: set<int>, passes: nat)

  function Explicit(kept: set<int>): Partition { Partition(kept, map[]) }

  /** One more round, under the suppressed targets. */
  type Step = (Partition, set<int>) -> Partition

  function StepOf(k: Task, walker: Walker): Step { (part: Partition, suppressed: set<int>) => Next(k, walker, part, suppressed) }

  /** Where the rounds end: passes left, then rounds left, get fewer. */
  function Discover(kept: set<int>, step: Step, d: Discovery, history: seq<State>): (e: Discovery)
    requires d.passes <= SUPPRESSION_LIMIT && |history| <= ROUND_LIMIT
    ensures e.passes <= SUPPRESSION_LIMIT
    decreases SUPPRESSION_LIMIT - d.passes, ROUND_LIMIT - |history|
  {
    var state := StateOf(d.part);
    if |history| == ROUND_LIMIT || state in history then
      var disputed := Disputed(kept, history, state);
      if disputed != {} && d.passes < SUPPRESSION_LIMIT
      then Discover(kept, step, Discovery(Explicit(kept), d.suppressed + disputed, d.passes + 1), [])
      else d.(part := Explicit(kept))
    else
      var next := step(d.part, d.suppressed);
      if next == d.part then d else Discover(kept, step, d.(part := next), history + [state])
  }

  /** `seen_states` holds the position of every state of the history. */
  ghost predicate Indexed(seen: map<State, nat>, history: seq<State>) {
    forall s :: (s in seen <==> s in history) && (s in seen ==> seen[s] == StateIndex(history, s))
  }

  lemma IndexNew(seen: map<State, nat>, history: seq<State>, state: State)
    requires Indexed(seen, history) && state !in history
    ensures Indexed(seen[state := |history|], history + [state])
  {
    var longer := history + [state];
    assert longer[..|longer|-1] == history;
  }

  /** The loop over rounds, with its suppressions. */
  method DiscoverRoots(k: Task, start: Discovery, ghost walker: Walker) returns (d: Discovery)
    requires walker == WalkerOf(k.o) && start.passes <= SUPPRESSION_LIMIT
    ensures d == Discover(k.Kept(), StepOf(k, walker), start, [])
  {
    d := start;
    var kept := k.Kept();
    ghost var step := StepOf(k, walker);
    var round := 0;
    var seen: map<State, nat>, history: seq<State> := map[], [];
    while true
      invariant d.passes <= SUPPRESSION_LIMIT && round == |history| <= ROUND_LIMIT && Indexed(seen, history)
      invariant Discover(kept, step, d, history) == Discover(kept, step, start, [])
      decreases SUPPRESSION_LIMIT - d.passes, ROUND_LIMIT - |history|
    {
      round := round + 1;
      var state := StateOf(d.part);
      if round > ROUND_LIMIT || state in seen {
        var disputed := (if state in seen then Unstable(history[seen[state]..]) else {}) - kept;
        if disputed != {} && d.passes < SUPPRESSION_LIMIT {
          d := Discovery(Explicit(kept), d.suppressed + disputed, d.passes + 1);
          round, seen, history := 0, map[], [];
        } else {
          return d.(part := Explicit(kept));
        }
      } else {
        IndexNew(seen, history, state);
        var next := NextRound(k, d.part, d.suppressed, walker);
        if next == d.part { return d; }
        seen, history := seen[state := |history|], history + [state];
        d := d.(part := next);
      }
    }
  }

  // ---- What the fixed point is -------------------------------------------------

  ghost predicate AllOwned(o: Overlay, s: set<int>) { forall a :: a in s ==> Owned(o, a) }

  /**
   Every root is an address a root may have, every initial or promoted root is there unless a derived
   reason dropped it, and there is no other root than initial, promoted and derived ones.
   */
  ghost predicate Partitioned(k: Task, part: Partition) {
    && AllOwned(k.o, part.known)
    && (forall t :: t in part.derived ==> t !in k.initial && Owned(k.o, t) && CallReason(part.derived[t]))
    && part.known <= k.Kept() + part.derived.Keys && k.Kept() - part.derived.Keys <= part.known
  }

  /** One more round changes nothing. */
  predicate Stable(step: Step, d: Discovery) { step(d.part, d.suppressed) == d.part }

  lemma FindsAreOwned(k: Task, derived: map<int, Reason>, suppressed: set<int>, root: int, cap: int, w: Walk, t: int, r: Reason)
    requires Bounded(k.o, root, cap, w) && Owned(k.o, root) && FoundIn(FindsOf(k, derived, suppressed, root, w), t, r)
    ensures Owned(k.o, t) && t !in k.initial && t !in suppressed && CallReason(r)
  {
    if r.StaticBranchRoot? {
      assert VoucherOf(k.o, root)(t) && BranchVouches(k.o, root, t);
    }
  }

  lemma ReasonsAreOwned(k: Task, walker: Walker, derived: map<int, Reason>, suppressed: set<int>, roots: seq<int>, t: int)
    requires AllBounded(k.o, walker) && AllOwned(k.o, ToSet(roots))
    requires t in NextReasons(k, derived, suppressed, roots, WalksBy(walker, k.o.Hi(), roots))
    ensures Owned(k.o, t) && t !in k.initial && t !in suppressed
    ensures CallReason(NextReasons(k, derived, suppressed, roots, WalksBy(walker, k.o.Hi(), roots))[t])
  {
    var walks := WalksBy(walker, k.o.Hi(), roots);
    var r := NextReasons(k, derived, suppressed, roots, walks)[t];
    var finds := AllFinds(k, derived, suppressed, roots, walks);
    RoundIsExact(k, derived, suppressed, roots, walks, t);
    FoundByWalks(k, derived, suppressed, roots, walks, t, r);
    var i: nat :| i < |roots| && FoundIn(finds[i], t, r);
    assert roots[i] in ToSet(roots);
    FindsAreOwned(k, derived, suppressed, roots[i], CapOf(k.o.Hi(), roots, i), walks[i], t, r);
  }

  lemma NextIsPartitioned(k: Task, walker: Walker, part: Partition, suppressed: set<int>)
    requires AllBounded(k.o, walker) && AllOwned(k.o, part.known) && AllOwned(k.o, k.Kept())
    ensures Partitioned(k, Next(k, walker, part, suppressed))
  {
    var next, roots := Next(k, walker, part, suppressed), Sorted(part.known);
    forall t | t in next.derived ensures t !in k.initial && Owned(k.o, t) && CallReason(next.derived[t]) {
      ReasonsAreOwned(k, walker, part.derived, suppressed, roots, t);
    }
    NormalisedExactly(walker, k.o.Hi(), k.Kept(), next.derived.Keys);
  }

  /** Rounds lead from owned roots to partitions. */
  ghost predicate KeepsPartition(k: Task, step: Step) {
    forall part: Partition, suppressed: set<int> :: AllOwned(k.o, part.known) ==> Partitioned(k, step(part, suppressed))
  }

  /** A discovery ends in a partition that one more round leaves as it is, or in the explicit roots alone. */
  lemma {:induction false} DiscoverEnds(k: Task, step: Step, d: Discovery, history: seq<State>)
    requires d.passes <= SUPPRESSION_LIMIT && |history| <= ROUND_LIMIT
    requires KeepsPartition(k, step) && AllOwned(k.o, k.Kept()) && Partitioned(k, d.part)
    ensures var e := Discover(k.Kept(), step, d, history);
            && Partitioned(k, e.part) && d.passes <= e.passes <= SUPPRESSION_LIMIT && d.suppressed <= e.suppressed
            && (Stable(step, e) || e.part == Explicit(k.Kept()))
    decreases SUPPRESSION_LIMIT - d.passes, ROUND_LIMIT - |history|
  {
    var state := StateOf(d.part);
    if |history| == ROUND_LIMIT || state in history {
      var disputed := Disputed(k.Kept(), history, state);
      if disputed != {} && d.passes < SUPPRESSION_LIMIT {
        DiscoverEnds(k, step, Discovery(Explicit(k.Kept()), d.suppressed + disputed, d.passes + 1), []);
      }
    } else {
      var next := step(d.part, d.suppressed);
      if next != d.part { DiscoverEnds(k, step, d.(part := next), history + [state]); }
    }
  }

  // ---- When rounds settle, and when they do not ---------------------------------

  /** The partition after so many rounds. */
  function Rounds(step: Step, part: Partition, suppressed: set<int>, n: nat): Partition {
    if n == 0 then part else step(Rounds(step, part, suppressed, n - 1), suppressed)
  }

  predicate Apart(step: Step, part: Partition, suppressed: set<int>, i: nat, j: nat) {
    StateOf(Rounds(step, part, suppressed, i)) != StateOf(Rounds(step, part, suppressed, j))
  }

  /** No state comes up twice in the first rounds, and none of them changes nothing. */
  ghost predicate Wandering(step: Step, part: Partition, suppressed: set<int>, n: nat) {
    && (forall i: nat, j: nat :: i < j < n ==> Apart(step, part, suppressed, i, j))
    && forall i: nat :: i < n ==> Rounds(step, part, suppressed, i + 1) != Rounds(step, part, suppressed, i)
  }

  /** The states of the first rounds. */
  function States(step: Step, part: Partition, suppressed: set<int>, n: nat): seq<State> {
    seq(n, i requires 0 <= i < n => StateOf(Rounds(step, part, suppressed, i)))
  }

  lemma OneMoreState(step: Step, part: Partition, suppressed: set<int>, n: nat)
    ensures States(step, part, suppressed, n + 1) == States(step, part, suppressed, n) + [StateOf(Rounds(step, part, suppressed, n))]
  {
  }

  lemma NewState(step: Step, part: Partition, suppressed: set<int>, n: nat, m: nat)
    requires m < n && Wandering(step, part, suppressed, n)
    ensures StateOf(Rounds(step, part, suppressed, m)) !in States(step, part, suppressed, m)
  {
    var history := States(step, part, suppressed, m);
    forall i | 0 <= i < m ensures history[i] != StateOf(Rounds(step, part, suppressed, m)) { assert Apart(step, part, suppressed, i, m); }
  }

  /** One more round of a discovery. */
  lemma GoesRound(kept: set<int>, step: Step, d: Discovery, history: seq<State>)
    requires d.passes <= SUPPRESSION_LIMIT && |history| < ROUND_LIMIT && StateOf(d.part) !in history
    ensures step(d.part, d.suppressed) != d.part ==>
      Discover(kept, step, d, history) == Discover(kept, step, d.(part := step(d.part, d.suppressed)), history + [StateOf(d.part)])
    ensures step(d.part, d.suppressed) == d.part ==> Discover(kept, step, d, history) == d
  {
  }

  /** Up to there a discovery just goes from round to round. */
  lemma {:induction false} Wanders(kept: set<int>, step: Step, d: Discovery, n: nat, m: nat)
    requires d.passes <= SUPPRESSION_LIMIT && n <= ROUND_LIMIT && m <= n && Wandering(step, d.part, d.suppressed, n)
    ensures Discover(kept, step, d, [])
         == Discover(kept, step, d.(part := Rounds(step, d.part, d.suppressed, m)), States(step, d.part, d.suppressed, m))
    decreases m
  {
    if m == 0 {
      assert States(step, d.part, d.suppressed, 0) == [];
      assert d.(part := Rounds(step, d.part, d.suppressed, 0)) == d;
    } else {
      Wanders(kept, step, d, n, m - 1);
      NewState(step, d.part, d.suppressed, n, m - 1);
      OneMoreState(step, d.part, d.suppressed, m - 1);
      var at := d.(part := Rounds(step, d.part, d.suppressed, m - 1));
      assert Rounds(step, d.part, d.suppressed, m) != at.part;
      GoesRound(kept, step, at, States(step, d.part, d.suppressed, m - 1));
    }
  }

  /** Rounds that settle before a state comes up again, and within the limit, are the result, and nothing is suppressed. */
  lemma SettledRoundsStand(kept: set<int>, step: Step, d: Discovery, n: nat)
    requires d.passes <= 64 && n < 64 && Wandering(step, d.part, d.suppressed, n)
    requires Rounds(step, d.part, d.suppressed, n + 1) == Rounds(step, d.part, d.suppressed, n)
    requires forall i: nat :: i < n ==> Apart(step, d.part, d.suppressed, i, n)
    ensures Discover(kept, step, d, []) == d.(part := Rounds(step, d.part, d.suppressed, n))
  {
    Wanders(kept, step, d, n, n);
    var at, history := d.(part := Rounds(step, d.part, d.suppressed, n)), States(step, d.part, d.suppressed, n);
    forall i | 0 <= i < n ensures history[i] != StateOf(at.part) { assert Apart(step, d.part, d.suppressed, i, n); }
    GoesRound(kept, step, at, history);
  }

  /** An address in one state and not in another. */
  predicate Differs(x: State, y: State, a: int) { (a in x.known && a !in y.known) || (a in x.derived && a !in y.derived) }

  /** An address in some state of the cycle and not in another. */
  predicate Wavers(cycle: seq<State>, a: int) {
    exists i: nat, j: nat :: i < |cycle| && j < |cycle| && Differs(cycle[i], cycle[j], a)
  }

  function KnownIn(cycle: seq<State>): seq<set<int>> { seq(|cycle|, i requires 0 <= i < |cycle| => cycle[i].known) }

  function DerivedIn(cycle: seq<State>): seq<set<int>> { seq(|cycle|, i requires 0 <= i < |cycle| => cycle[i].derived) }

  lemma WaveringAt(s: seq<set<int>>, a: int)
    ensures a in Wavering(s) <==> exists i: nat, j: nat :: i < |s| && j < |s| && a in s[i] && a !in s[j]
  {
    if a in Wavering(s) {
      var i: nat :| i < |s| && a in s[i];
      var j: nat :| j < |s| && a !in s[j];
    }
  }

  lemma UnstableWavers(cycle: seq<State>, a: int)
    ensures a in Unstable(cycle) <==> Wavers(cycle, a)
  {
    var known, derived := KnownIn(cycle), DerivedIn(cycle);
    WaveringAt(known, a);
    WaveringAt(derived, a);
    assert Unstable(cycle) == Wavering(known) + Wavering(derived);
    if a in Wavering(known) {
      var i: nat, j: nat :| i < |known| && j < |known| && a in known[i] && a !in known[j];
      assert Differs(cycle[i], cycle[j], a);
    } else if a in Wavering(derived) {
      var i: nat, j: nat :| i < |derived| && j < |derived| && a in derived[i] && a !in derived[j];
      assert Differs(cycle[i], cycle[j], a);
    }
    if Wavers(cycle, a) {
      var i: nat, j: nat :| i < |cycle| && j < |cycle| && Differs(cycle[i], cycle[j], a);
      if a in cycle[i].known && a !in cycle[j].known {
        assert a in known[i] && a !in known[j];
      } else {
        assert a in derived[i] && a !in derived[j];
      }
    }
  }

  lemma IndexOfDistinct(history: seq<State>, m: nat)
    requires m < |history| && forall i, j :: 0 <= i < j < |history| ==> history[i] != history[j]
    ensures history[m] in history && StateIndex(history, history[m]) == m
  {
    var i := StateIndex(history, history[m]);
    assert history[i] == history[m];
  }

  lemma StatesDistinct(step: Step, part: Partition, suppressed: set<int>, n: nat)
    requires Wandering(step, part, suppressed, n)
    ensures var history := States(step, part, suppressed, n); forall i, j :: 0 <= i < j < |history| ==> history[i] != history[j]
  {
    var history := States(step, part, suppressed, n);
    forall i: nat, j: nat | i < j < |history| ensures history[i] != history[j] { assert Apart(step, part, suppressed, i, j); }
  }

  /** The rounds start over from the explicit roots without the disputed targets; with none, or no pass left, those roots stand. */
  function Restarted(kept: set<int>, step: Step, d: Discovery, disputed: set<int>): Discovery
    requires d.passes <= 64
  {
    if disputed != {} && d.passes < 64
    then Discover(kept, step, Discovery(Partition(kept, map[]), d.suppressed + disputed, d.passes + 1), [])
    else d.(part := Partition(kept, map[]))
  }

  lemma SameRestart(kept: set<int>, step: Step, d: Discovery, e: Discovery, disputed: set<int>)
    requires d.passes <= SUPPRESSION_LIMIT && e == d.(part := e.part)
    ensures Restarted(kept, step, e, disputed) == Restarted(kept, step, d, disputed)
  {
  }

  /** The end of the rounds, when the state is that of an earlier one. */
  lemma ComesAgain(kept: set<int>, step: Step, d: Discovery, history: seq<State>, m: nat)
    requires d.passes <= SUPPRESSION_LIMIT && m < |history| <= ROUND_LIMIT && history[m] == StateOf(d.part)
    requires forall i, j :: 0 <= i < j < |history| ==> history[i] != history[j]
    ensures Discover(kept, step, d, history) == Restarted(kept, step, d, Unstable(history[m..]) - kept)
  {
    IndexOfDistinct(history, m);
  }

  /**
   When a state comes up again, exactly the targets are suppressed that are in some state of its cycle and not in
   another, explicit roots excepted; the rounds start over, or the explicit roots stand when there is no such target.
   */
  lemma CyclesAreSuppressed(kept: set<int>, step: Step, d: Discovery, m: nat, n: nat) returns (disputed: set<int>)
    requires d.passes <= 64 && m < n <= 64 && Wandering(step, d.part, d.suppressed, n)
    requires !Apart(step, d.part, d.suppressed, m, n)
    ensures forall a :: a in disputed <==> a !in kept && Wavers(States(step, d.part, d.suppressed, n)[m..], a)
    ensures Discover(kept, step, d, []) == Restarted(kept, step, d, disputed)
  {
    var history := States(step, d.part, d.suppressed, n);
    disputed := Unstable(history[m..]) - kept;
    forall a ensures a in disputed <==> a !in kept && Wavers(history[m..], a) { UnstableWavers(history[m..], a); }
    Wanders(kept, step, d, n, n);
    StatesDistinct(step, d.part, d.suppressed, n);
    var at := d.(part := Rounds(step, d.part, d.suppressed, n));
    assert history[m] == StateOf(at.part);
    ComesAgain(kept, step, at, history, m);
    SameRestart(kept, step, d, at, disputed);
  }

  /** When 64 rounds neither settle nor come back to a state, the explicit roots stand. */
  lemma LongRoundsGiveUp(kept: set<int>, step: Step, d: Discovery)
    requires d.passes <= 64 && Wandering(step, d.part, d.suppressed, 64)
    requires forall i: nat :: i < 64 ==> Apart(step, d.part, d.suppressed, i, 64)
    ensures Discover(kept, step, d, []) == d.(part := Partition(kept, map[]))
  {
    Wanders(kept, step, d, 64, 64);
    var at, history := d.(part := Rounds(step, d.part, d.suppressed, 64)), States(step, d.part, d.suppressed, 64);
    forall i | 0 <= i < 64 ensures history[i] != StateOf(at.part) { assert Apart(step, d.part, d.suppressed, i, 64); }
    assert Disputed(kept, history, StateOf(at.part)) == {};
    assert Discover(kept, step, at, history) == at.(part := Explicit(kept));
  }

  lemma RoundsKeepPartition(k: Task, walker: Walker)
    requires AllBounded(k.o, walker) && AllOwned(k.o, k.Kept())
    ensures KeepsPartition(k, StepOf(k, walker))
  {
    forall part: Partition, suppressed: set<int> | AllOwned(k.o, part.known) ensures Partitioned(k, StepOf(k, walker)(part, suppressed)) {
      NextIsPartitioned(k, walker, part, suppressed);
    }
  }
}
