/** classify_overlay_seeds, first part: what the captured evidence admits, and how a set of roots is walked. */
module SeedAdmission {
  import opened Prelude
  import opened Sorting
  import opened Mips
  import opened OverlayWalk

  datatype Reason =
    | DispatchEntry | StaticDispatchEntry | FunctionPointerTarget | StaticDiscoveryRoot | TomlDeclaredEntry
    | DirectJalTarget | StaticIndirectTarget | StaticBranchRoot | DispatchRoot | DispatchInterior

  datatype Exclusion = BranchTargetOnly | ObservedPcOnly | Unknown

  /** The evidence a capture carries; `legacyMode` for captures from before the split schema. */
  datatype Capture = Capture(executed: set<int>, dispatch: set<int>, staticDispatch: set<int>, functions: set<int>,
                             discovery: set<int>, legacy: set<int>, legacyMode: bool, toml: set<int>,
                             aliases: seq<(int, int, int)>, gameText: (int, int))

  datatype Seeds = Seeds(included: map<int, Reason>, excluded: map<int, Exclusion>)

  // ---- Admission -----------------------------------------------------------

  predicate ProducersFit(o: Overlay) {
    && (forall i :: 0 <= i < |o.producers| ==> o.Lo() <= o.producers[i].0 < o.producers[i].1 <= o.Hi())
    && forall i, j :: 0 <= i < j < |o.producers| ==> o.producers[i].1 <= o.producers[j].0
  }

  /** An alias lies in the region, aligned, and within one producer when there are any. */
  predicate AliasFits(o: Overlay, alias: (int, int, int)) {
    && o.Lo() <= alias.1 <= alias.0 < alias.2 <= o.Hi() && alias.0 % 4 == 0 && alias.1 % 4 == 0 && alias.2 % 4 == 0
    && (o.producers != [] ==> exists r :: r in o.producers && r.0 <= alias.1 && alias.0 < r.1 && alias.2 <= r.1 && r.0 <= alias.0)
  }

  /** The checks whose failure makes the source raise. */
  predicate Admissible(o: Overlay, cap: Capture) {
    ProducersFit(o) && cap.staticDispatch <= cap.dispatch && forall i :: 0 <= i < |cap.aliases| ==> AliasFits(o, cap.aliases[i])
  }

  lemma {:induction false} ProducerFound(ranges: seq<(int, int)>, r: (int, int), a: int)
    requires r in ranges && r.0 <= a < r.1
    ensures ProducerIn(ranges, a).Some?
    decreases |ranges|
  {
    if !(ranges[0].0 <= a < ranges[0].1) {
      assert ranges == [ranges[0]] + ranges[1..];
      ProducerFound(ranges[1..], r, a);
    }
  }

  /** `_classify_target(...) == 'UNKNOWN_BAD'` */
  predicate UnknownBad(o: Overlay, gameText: (int, int), a: int) {
    var phys, lo := a % 0x2000_0000, o.Lo() % 0x2000_0000;
    && !(lo <= phys < lo + o.size)
    && !(gameText.1 > gameText.0 && gameText.0 <= phys < gameText.1)
    && !(0x1FC0_0000 <= phys < 0x1FC8_0000 || 0xBFC0_0000 <= a < 0xBFC8_0000)
  }

  /** `impossible_entry_start` */
  predicate ImpossibleStart(o: Overlay, gameText: (int, int), a: int) {
    var i := o.Code()(a);
    if !IsValid(i) then true
    else
      match i.value.flow
      case Jump(t) => UnknownBad(o, gameText, t)
      case Call(t) => InRegion(o, t) && !CallableDirectJal(o, t)
      case _ => false
  }

  predicate CallReason(r: Reason) { r.DirectJalTarget? || r.StaticIndirectTarget? || r.StaticBranchRoot? }

  /** Static call-edge evidence outranks heuristic capture metadata. */
  predicate Outranks(r: Reason) { CallReason(r) || r.StaticDiscoveryRoot? || r.StaticDispatchEntry? }

  function Lookup<V>(m: map<int, V>, a: int): Option<V> { if a in m then Some(m[a]) else None }

  /** What `include` looks at besides its arguments. */
  datatype Gate = Gate(o: Overlay, gameText: (int, int), tables: set<int>)

  /** What the gate of `include` looks at in an address. */
  datatype Signs = Signs(owned: bool, impossible: bool, aCase: bool, callable: bool)

  function SignsOf(g: Gate, a: int): Signs {
    Signs(Owned(g.o, a), ImpossibleStart(g.o, g.gameText, a), a in g.tables, CallableLegacySeed(g.o, a))
  }

  datatype Verdict = Refuse(why: Exclusion) | Interior | Take

  /** The boundary gate of `include`: a dispatched address is code, but not always a function. */
  function VerdictOn(x: Signs, r: Reason): Verdict {
    if !x.owned then Refuse(Unknown)
    else if r.DispatchEntry? || r.StaticDispatchEntry? then
      if x.impossible then Refuse(Unknown) else if x.aCase || !x.callable then Interior else Take
    else if !CallReason(r) && !r.StaticDiscoveryRoot? && !r.TomlDeclaredEntry? && x.aCase && !x.callable then Refuse(BranchTargetOnly)
    else Take
  }

  /** The reason an address has after `include`, from the one it had. */
  function Entered(x: Signs, was: Option<Reason>, r: Reason): Option<Reason> {
    match VerdictOn(x, r)
    case Refuse(_) => was
    case Interior => if was.Some? then was else Some(DispatchInterior)
    case Take =>
      if Outranks(r) || was.None? || was.value.FunctionPointerTarget? || was.value.DispatchInterior? then Some(r) else was
  }

  function Exclude(s: Seeds, a: int, e: Exclusion): Seeds { s.(excluded := s.excluded[a := e]) }

  /** `include` */
  function Include(g: Gate, s: Seeds, a: int, r: Reason): Seeds {
    var now := Entered(SignsOf(g, a), Lookup(s.included, a), r);
    var verdict := VerdictOn(SignsOf(g, a), r);
    Seeds(if now.Some? then s.included[a := now.value] else s.included,
          if verdict.Refuse? then s.excluded[a := verdict.why] else s.excluded)
  }

  /** A derived call target always enters with its own reason, and touches no other address. */
  lemma CallTargetEnters(g: Gate, s: Seeds, a: int, r: Reason)
    requires Owned(g.o, a) && CallReason(r)
    ensures Include(g, s, a, r) == s.(included := s.included[a := r])
  {
  }

  // ---- Passes over the evidence ----------------------------------------------

  /** The reason of one address after a pass of `include` over `reasons`. */
  function PassAt(g: Gate, reasons: map<int, Reason>, was: Option<Reason>, a: int): Option<Reason> {
    if a in reasons then Entered(SignsOf(g, a), was, reasons[a]) else was
  }

  ghost predicate Passed(g: Gate, reasons: map<int, Reason>, done: set<int>, s: Seeds, t: Seeds) {
    forall a :: Lookup(t.included, a) == if a in done then PassAt(g, reasons, Lookup(s.included, a), a) else Lookup(s.included, a)
  }

  lemma PassStep(g: Gate, reasons: map<int, Reason>, done: set<int>, s: Seeds, t: Seeds, a: int)
    requires Passed(g, reasons, done, s, t) && a in reasons && a !in done
    ensures Passed(g, reasons, done + {a}, s, Include(g, t, a, reasons[a]))
  {
    var u := Include(g, t, a, reasons[a]);
    forall b ensures Lookup(u.included, b) ==
        if b in done + {a} then PassAt(g, reasons, Lookup(s.included, b), b) else Lookup(s.included, b) {
      assert Lookup(t.included, b) == if b in done then PassAt(g, reasons, Lookup(s.included, b), b) else Lookup(s.included, b);
    }
  }

  /** One pass of `include` over an evidence set. */
  method IncludeAll(g: Gate, s: Seeds, addresses: set<int>, reason: Reason) returns (t: Seeds)
    ensures Passed(g, All(addresses, reason), addresses, s, t)
  {
    t := s;
    var items := Sorted(addresses);
    ghost var reasons := All(addresses, reason);
    for n := 0 to |items|
      invariant Passed(g, reasons, ToSet(items[..n]), s, t)
    {
      NextItem(items, n);
      PassStep(g, reasons, ToSet(items[..n]), s, t, items[n]);
      t := Include(g, t, items[n], reason);
    }
    assert items[..|items|] == items;
  }

  function All(addresses: set<int>, reason: Reason): map<int, Reason> { map a | a in addresses :: reason }

  /** A static discovery entry is strong only with a callable boundary or a sealed probe. */
  predicate StrongDiscovery(o: Overlay, a: int) {
    InRegion(o, a) && (CallableLegacySeed(o, a) || Plausible(o, a, o.Hi()))
  }

  function Discoveries(o: Overlay, addresses: set<int>): map<int, Reason> {
    map a | a in addresses :: if StrongDiscovery(o, a) then StaticDiscoveryRoot else FunctionPointerTarget
  }

  method DiscoveryReason(o: Overlay, a: int) returns (reason: Reason)
    requires InRegion(o, a)
    ensures reason == if StrongDiscovery(o, a) then StaticDiscoveryRoot else FunctionPointerTarget
  {
    var strong := CallableLegacySeed(o, a);
    if !strong {
      strong := PlausibleCallableTarget(o, a, o.Hi());
    }
    reason := if strong then StaticDiscoveryRoot else FunctionPointerTarget;
  }

  method IncludeDiscovery(g: Gate, s: Seeds, addresses: set<int>) returns (t: Seeds)
    ensures Passed(g, Discoveries(g.o, addresses), addresses, s, t)
  {
    t := s;
    var items := Sorted(addresses);
    ghost var reasons := Discoveries(g.o, addresses);
    for n := 0 to |items|
      invariant Passed(g, reasons, ToSet(items[..n]), s, t)
    {
      var a := items[n];
      NextItem(items, n);
      PassStep(g, reasons, ToSet(items[..n]), s, t, a);
      if !InRegion(g.o, a) {
        t := Exclude(t, a, Unknown);
      } else {
        var reason := DiscoveryReason(g.o, a);
        t := Include(g, t, a, reason);
      }
    }
    assert items[..|items|] == items;
  }

  function AliasEntries(cap: Capture, n: nat): set<int>
    requires n <= |cap.aliases|
  {
    set i | 0 <= i < n :: cap.aliases[i].0
  }

  /** Current alias recipes make their entries interior candidates, whatever else they are. */
  method IncludeAliases(cap: Capture, s: Seeds) returns (t: Seeds)
    ensures Aliased(cap, |cap.aliases|, s, t)
  {
    t := s;
    for i := 0 to |cap.aliases|
      invariant Aliased(cap, i, s, t)
    {
      ghost var before := t;
      t := t.(included := t.included[cap.aliases[i].0 := DispatchInterior]);
      AliasStep(cap, i, s, before);
    }
  }

  ghost predicate Aliased(cap: Capture, n: nat, s: Seeds, t: Seeds)
    requires n <= |cap.aliases|
  {
    forall a :: Lookup(t.included, a) == if a in AliasEntries(cap, n) then Some(DispatchInterior) else Lookup(s.included, a)
  }

  lemma AliasStep(cap: Capture, i: nat, s: Seeds, t: Seeds)
    requires i < |cap.aliases| && Aliased(cap, i, s, t)
    ensures Aliased(cap, i + 1, s, t.(included := t.included[cap.aliases[i].0 := DispatchInterior]))
  {
    assert AliasEntries(cap, i + 1) == AliasEntries(cap, i) + {cap.aliases[i].0};
  }

  // ---- The precedence of the evidence ------------------------------------------

  /** Which of the capture's evidence names an address. */
  datatype Evidence = Evidence(dispatch: bool, exported: bool, pointer: bool, discovery: bool, strong: bool, toml: bool, legacy: bool)

  function EvidenceOf(g: Gate, cap: Capture, a: int): Evidence {
    Evidence(a in cap.dispatch, a in cap.staticDispatch, a in cap.functions, a in cap.discovery, StrongDiscovery(g.o, a),
             a in cap.toml, a in Legacy(g, cap))
  }

  function Legacy(g: Gate, cap: Capture): set<int> {
    if cap.legacyMode then set a | a in cap.legacy && InRegion(g.o, a) && CallableLegacySeed(g.o, a) else {}
  }

  /** The strongest evidence gives the reason. A pointer to a mere case label is no evidence. */
  function Precedence(x: Signs, e: Evidence): Option<Reason> {
    if !x.owned then None
    else if e.discovery && e.strong then Some(StaticDiscoveryRoot)
    else if e.dispatch && !x.impossible && x.callable && !x.aCase then Some(if e.exported then StaticDispatchEntry else DispatchEntry)
    else if e.toml then Some(TomlDeclaredEntry)
    else if (e.pointer || e.discovery || e.legacy) && (x.aCase ==> x.callable) then Some(FunctionPointerTarget)
    else if e.dispatch && !x.impossible then Some(DispatchInterior)
    else None
  }

  /** The reason the capture gives an address. */
  function Initial(g: Gate, cap: Capture, a: int): Option<Reason> {
    if a in AliasEntries(cap, |cap.aliases|) then Some(DispatchInterior)
    else Precedence(SignsOf(g, a), EvidenceOf(g, cap, a))
  }

  function EnteredIf(x: Signs, named: bool, was: Option<Reason>, r: Reason): Option<Reason> {
    if named then Entered(x, was, r) else was
  }

  /** The passes over one address: dispatches, functions, discoveries, declarations, then old captures. */
  function Passes(x: Signs, e: Evidence): Option<Reason> {
    var dispatched := EnteredIf(x, e.dispatch && !e.exported, None, DispatchEntry);
    var exported := EnteredIf(x, e.exported, dispatched, StaticDispatchEntry);
    var pointed := EnteredIf(x, e.pointer, exported, FunctionPointerTarget);
    var discovered := EnteredIf(x, e.discovery, pointed, if e.strong then StaticDiscoveryRoot else FunctionPointerTarget);
    var declared := EnteredIf(x, e.toml, discovered, TomlDeclaredEntry);
    EnteredIf(x, e.legacy, declared, FunctionPointerTarget)
  }

  /** The order of the passes amounts to the precedence of the evidence. */
  lemma PassesByPrecedence(x: Signs, e: Evidence)
    requires e.exported ==> e.dispatch
    ensures Passes(x, e) == Precedence(x, e)
  {
  }

  /** The classification of the captured evidence, before any derived root. */
  method Admit(g: Gate, cap: Capture) returns (s: Seeds)
    requires Admissible(g.o, cap)
    ensures forall a :: Lookup(s.included, a) == Initial(g, cap, a)
  {
    var s0 := Seeds(map[], map[]);
    var s1 := IncludeAll(g, s0, cap.dispatch - cap.staticDispatch, DispatchEntry);
    var s2 := IncludeAll(g, s1, cap.staticDispatch, StaticDispatchEntry);
    var s3 := IncludeAll(g, s2, cap.functions, FunctionPointerTarget);
    var s4 := IncludeDiscovery(g, s3, cap.discovery);
    var s5 := IncludeAll(g, s4, cap.toml, TomlDeclaredEntry);
    var s6 := s5;
    if cap.legacyMode {
      s6 := IncludeAll(g, s5, Legacy(g, cap), FunctionPointerTarget);
    }
    s := IncludeAliases(cap, s6);
    forall a ensures Lookup(s.included, a) == Initial(g, cap, a) {
      var x, e := SignsOf(g, a), EvidenceOf(g, cap, a);
      var r1 := EnteredIf(x, e.dispatch && !e.exported, None, DispatchEntry);
      var r2 := EnteredIf(x, e.exported, r1, StaticDispatchEntry);
      var r3 := EnteredIf(x, e.pointer, r2, FunctionPointerTarget);
      assert Lookup(s1.included, a) == r1;
      assert Lookup(s2.included, a) == r2;
      assert Lookup(s3.included, a) == r3;
      assert Lookup(s6.included, a) == Passes(x, e);
      PassesByPrecedence(x, e);
    }
  }

  /** Every initial reason has an address a root may have. */
  lemma InitialIsOwned(g: Gate, cap: Capture, a: int)
    requires Admissible(g.o, cap) && Initial(g, cap, a).Some?
    ensures Owned(g.o, a)
  {
    if a in AliasEntries(cap, |cap.aliases|) {
      var i :| 0 <= i < |cap.aliases| && cap.aliases[i].0 == a;
      assert AliasFits(g.o, cap.aliases[i]);
      if g.o.producers != [] {
        var r :| r in g.o.producers && r.0 <= cap.aliases[i].1 && a < r.1 && cap.aliases[i].2 <= r.1 && r.0 <= a;
        ProducerFound(g.o.producers, r, a);
      }
    }
  }

  // ---- Walking a set of roots ----------------------------------------------

  /** The walk of every entry and hard cap. */
  type Walker = (int, int) -> Walk

  ghost function WalkerOf(o: Overlay): Walker { (entry: int, hardCap: int) => WalkOf(Frame(o, entry, hardCap)) }

  /** The next root above, or the end of the region. */
  function CapOf(hi: int, roots: seq<int>, i: nat): int
    requires i < |roots|
  {
    if i + 1 < |roots| then roots[i+1] else hi
  }

  /** The walk of one root up to the next root. */
  function WalkAt(walker: Walker, hi: int, roots: seq<int>, i: nat): Walk
    requires i < |roots|
  {
    walker(roots[i], CapOf(hi, roots, i))
  }

  function WalksBy(walker: Walker, hi: int, roots: seq<int>): seq<Walk> {
    seq(|roots|, i requires 0 <= i < |roots| => WalkAt(walker, hi, roots, i))
  }

  /** Every root is walked up to the next one. */
  method WalkAll(o: Overlay, roots: seq<int>, ghost walker: Walker) returns (walks: seq<Walk>)
    requires walker == WalkerOf(o)
    ensures walks == WalksBy(walker, o.Hi(), roots)
  {
    walks := [];
    for n := 0 to |roots|
      invariant |walks| == n && forall i: nat :: i < n ==> walks[i] == WalkAt(walker, o.Hi(), roots, i)
    {
      var w := WalkOverlayFunction(o, roots[n], CapOf(o.Hi(), roots, n));
      walks := walks + [w];
    }
  }

  function BodiesOf(walks: seq<Walk>): seq<set<int>> {
    seq(|walks|, i requires 0 <= i < |walks| => walks[i].visited)
  }

  function UnionOf(bodies: seq<set<int>>): set<int> {
    set i, a | 0 <= i < |bodies| && a in bodies[i] :: a
  }

  /** A walk stays between its entry and its hard cap, and what it finds is in the region. */
  ghost predicate Bounded(o: Overlay, entry: int, hardCap: int, w: Walk) {
    && (forall a :: a in w.visited ==> entry <= a < hardCap && InRegion(o, a))
    && (forall b :: b in w.directJals + w.indirect ==> Owned(o, b)) && (forall b :: b in w.forwards ==> InRegion(o, b))
  }

  ghost predicate AllBounded(o: Overlay, walker: Walker) {
    forall entry, hardCap :: Bounded(o, entry, hardCap, walker(entry, hardCap))
  }

  lemma CallsAreOwned(f: Frame, i: Insn, a: int, b: int)
    requires Calls(f, i, a, b) || RegisterCalls(f, i, a, b)
    ensures Owned(f.o, b)
  {
  }

  lemma EvidenceIsBounded(f: Frame, w: Walk, expanded: set<int>)
    requires Contained(f, w) && Evidenced(f, w, expanded)
    ensures Bounded(f.o, f.entry, f.hardCap, w)
  {
    forall b | b in w.directJals ensures Owned(f.o, b) {
      var a :| a in expanded && CallGraph(f)(a, b);
      CallsAreOwned(f, f.o.Code()(a).value, a, b);
    }
    forall b | b in w.indirect ensures Owned(f.o, b) {
      var a :| a in expanded && RegisterCallGraph(f)(a, b);
      CallsAreOwned(f, f.o.Code()(a).value, a, b);
    }
    forall b | b in w.forwards ensures InRegion(f.o, b) {
      var a :| a in expanded && ForwardGraph(f)(a, b);
      assert LeavesForwards(f, f.o.Code()(a).value, b);
    }
  }

  lemma WalkIsBounded(f: Frame)
    ensures Bounded(f.o, f.entry, f.hardCap, WalkOf(f))
  {
    var expanded := WalkIsExact(f);
    EvidenceIsBounded(f, WalkOf(f), expanded);
  }

  lemma WalkerIsBounded(o: Overlay)
    ensures AllBounded(o, WalkerOf(o))
  {
    forall entry, hardCap ensures Bounded(o, entry, hardCap, WalkerOf(o)(entry, hardCap)) {
      WalkIsBounded(Frame(o, entry, hardCap));
    }
  }

  /** Bodies of distinct roots are disjoint: a walk stays below the next root. */
  lemma BodiesDisjoint(o: Overlay, walker: Walker, roots: seq<int>, i: nat, j: nat)
    requires AllBounded(o, walker) && Increasing(roots) && i < j < |roots|
    ensures WalkAt(walker, o.Hi(), roots, i).visited !! WalkAt(walker, o.Hi(), roots, j).visited
  {
    var low, high := WalkAt(walker, o.Hi(), roots, i), WalkAt(walker, o.Hi(), roots, j);
    assert Bounded(o, roots[i], CapOf(o.Hi(), roots, i), low) && Bounded(o, roots[j], CapOf(o.Hi(), roots, j), high);
    forall a | a in low.visited ensures a < roots[j] { assert CapOf(o.Hi(), roots, i) <= roots[j]; }
    forall a | a in high.visited ensures roots[j] <= a {}
  }
}
