/** The conditions of the seed classifier spelled out over raw words, evidence sets and walks. */
module SeedTerms {
  import opened Prelude
  import opened Sorting
  import opened Mips
  import opened ConstantTransfer
  import opened OverlayWalk
  import opened WalkTerms
  import opened SeedAdmission
  import opened SeedOwnership
  import opened SeedClassifier

  // ---- What is refused outright -------------------------------------------------

  /** Aligned, in order, inside the capture; where producers are given, its start, its entry and its last byte lie in one. */
  ghost predicate AliasAllowed(o: Overlay, entry: int, start: int, end: int) {
    && o.m.load <= start <= entry < end <= o.m.load + o.size && entry % 4 == 0 && start % 4 == 0 && end % 4 == 0
    && (o.producers != [] ==>
         exists r :: r in o.producers && InRange(r, start) && InRange(r, entry) && InRange(r, end - 1))
  }

  lemma AliasExactly(o: Overlay, alias: (int, int, int))
    ensures AliasFits(o, alias) <==> AliasAllowed(o, alias.0, alias.1, alias.2)
  {
    if AliasFits(o, alias) && o.producers != [] {
      var r :| r in o.producers && r.0 <= alias.1 && alias.0 < r.1 && alias.2 <= r.1 && r.0 <= alias.0;
      assert InRange(r, alias.1) && InRange(r, alias.0) && InRange(r, alias.2 - 1);
    }
    if AliasAllowed(o, alias.0, alias.1, alias.2) && o.producers != [] {
      var r :| r in o.producers && InRange(r, alias.1) && InRange(r, alias.0) && InRange(r, alias.2 - 1);
      assert r.0 <= alias.1 && alias.0 < r.1 && alias.2 <= r.1 && r.0 <= alias.0;
    }
  }

  /** Each producer is a part of the capture, and none begins before its predecessor ends. */
  ghost predicate InSequence(o: Overlay) {
    && (forall i :: 0 <= i < |o.producers| ==> PartOf(o, o.producers[i]))
    && forall i: nat :: i + 1 < |o.producers| ==> Behind(o.producers, i)
  }

  predicate PartOf(o: Overlay, r: (int, int)) { o.m.load <= r.0 && r.0 < r.1 && r.1 <= o.m.load + o.size }

  predicate Behind(producers: seq<(int, int)>, i: nat)
    requires i + 1 < |producers|
  {
    producers[i].1 <= producers[i+1].0
  }

  lemma {:induction false} SequenceApart(o: Overlay, i: nat, j: nat)
    requires InSequence(o) && i < j < |o.producers|
    ensures o.producers[i].1 <= o.producers[j].0
    decreases j
  {
    assert Behind(o.producers, j - 1) && PartOf(o, o.producers[j-1]);
    if i < j - 1 { SequenceApart(o, i, j - 1); }
  }

  lemma ProducersExactly(o: Overlay)
    ensures ProducersFit(o) <==> InSequence(o)
  {
    if InSequence(o) {
      forall i | 0 <= i < |o.producers| ensures o.Lo() <= o.producers[i].0 < o.producers[i].1 <= o.Hi() { assert PartOf(o, o.producers[i]); }
      forall i, j | 0 <= i < j < |o.producers| ensures o.producers[i].1 <= o.producers[j].0 { SequenceApart(o, i, j); }
    }
  }

  /** The captures that are classified at all. */
  lemma AdmissibleExactly(o: Overlay, cap: Capture)
    ensures Admissible(o, cap) <==> (InSequence(o) && cap.staticDispatch <= cap.dispatch &&
      forall i :: 0 <= i < |cap.aliases| ==> AliasAllowed(o, cap.aliases[i].0, cap.aliases[i].1, cap.aliases[i].2))
  {
    ProducersExactly(o);
    forall i | 0 <= i < |cap.aliases|
      ensures AliasFits(o, cap.aliases[i]) <==> AliasAllowed(o, cap.aliases[i].0, cap.aliases[i].1, cap.aliases[i].2)
    {
      AliasExactly(o, cap.aliases[i]);
    }
  }

  // ---- The signs of an address ------------------------------------------------------

  /** The address is neither in the capture, nor in the game's text, nor in the BIOS. */
  predicate Nowhere(o: Overlay, gameText: (int, int), a: int) {
    var phys, lo := a % 0x2000_0000, o.m.load % 0x2000_0000;
    && (phys < lo || phys >= lo + o.size) && (phys < gameText.0 || phys >= gameText.1)
    && (phys < 0x1FC0_0000 || phys >= 0x1FC8_0000)
  }

  /** No function begins with no word, an invalid one, a jump to nowhere, or a call of something that is no boundary. */
  predicate NoStart(o: Overlay, gameText: (int, int), a: int) {
    || !IsValidWord(WordAt(o.m, a))
    || (ClassifyCf(a, WordAt(o.m, a).value).Jump? && Nowhere(o, gameText, ClassifyCf(a, WordAt(o.m, a).value).target))
    || (ClassifyCf(a, WordAt(o.m, a).value).Call? && var t := ClassifyCf(a, WordAt(o.m, a).value).target;
        InOverlay(o, t) && (IsPointerTable(o, t) || !IsBoundary(o, t)))
  }

  lemma UnknownExactly(o: Overlay, gameText: (int, int), a: int)
    ensures UnknownBad(o, gameText, a) <==> Nowhere(o, gameText, a)
  {
    if 0xBFC0_0000 <= a < 0xBFC8_0000 { assert a % 0x2000_0000 == a - 0xA000_0000; }
  }

  lemma StartExactly(o: Overlay, gameText: (int, int), a: int)
    ensures ImpossibleStart(o, gameText, a) <==> NoStart(o, gameText, a)
  {
    if WordAt(o.m, a).Some? {
      var i := Decode(a, WordAt(o.m, a).value);
      assert o.Code()(a) == Some(i) && i.flow == ClassifyCf(a, WordAt(o.m, a).value);
      if i.flow.Jump? { UnknownExactly(o, gameText, i.flow.target); }
      if i.flow.Call? {
        BoundaryExactly(o, i.flow.target);
        TableExactly(o, i.flow.target);
      }
    }
  }

  /** An old capture's seeds count where they are boundaries; a discovery is strong at a boundary or with a plausible body. */
  lemma EvidenceExactly(g: Gate, cap: Capture, a: int)
    ensures a in Legacy(g, cap) <==> cap.legacyMode && a in cap.legacy && InOverlay(g.o, a) && IsBoundary(g.o, a)
    ensures StrongDiscovery(g.o, a) <==> InOverlay(g.o, a) && (IsBoundary(g.o, a) || Plausible(g.o, a, g.o.m.load + g.o.size))
  {
    BoundaryExactly(g.o, a);
  }

  /** An address that may not be a root. */
  predicate Foreign(o: Overlay, a: int) { !InOverlay(o, a) || (o.producers != [] && forall r :: r in o.producers ==> !InRange(r, a)) }

  lemma ForeignExactly(o: Overlay, a: int)
    ensures Foreign(o, a) <==> !Owned(o, a)
  {
    OwnedExactly(o, a);
    if r :| Linked(o.producers, a, r) {
      var i: nat :| FirstWith(o.producers, a, i) && o.producers[i] == r;
      assert o.producers[i] in o.producers && InRange(r, a);
    }
    if r :| r in o.producers && InRange(r, a) {
      ProducerFound(o.producers, r, a);
      ProducerExactly(o.producers, a, ProducerIn(o.producers, a).value);
    }
  }

  /**
   The reason the capture alone gives, from the strongest evidence down. A dispatch to a case label, or to a word that is
   no boundary, shows code but no function; a mere pointer to such a label shows nothing.
   */
  lemma InitialExactly(g: Gate, cap: Capture, a: int)
    ensures var boundary, isLabel, o := IsBoundary(g.o, a), a in g.tables, g.o;
      Initial(g, cap, a) ==
        if exists i :: 0 <= i < |cap.aliases| && cap.aliases[i].0 == a then Some(DispatchInterior)
        else if Foreign(o, a) then None
        else if a in cap.discovery && (boundary || Plausible(o, a, o.m.load + o.size)) then Some(StaticDiscoveryRoot)
        else if a in cap.dispatch && !NoStart(o, g.gameText, a) && boundary && !isLabel then
          Some(if a in cap.staticDispatch then StaticDispatchEntry else DispatchEntry)
        else if a in cap.toml then Some(TomlDeclaredEntry)
        else if (a in cap.functions || a in cap.discovery || (cap.legacyMode && a in cap.legacy && boundary)) && (!isLabel || boundary) then
          Some(FunctionPointerTarget)
        else if a in cap.dispatch && !NoStart(o, g.gameText, a) then Some(DispatchInterior)
        else None
  {
    ForeignExactly(g.o, a);
    StartExactly(g.o, g.gameText, a);
    EvidenceExactly(g, cap, a);
    BoundaryExactly(g.o, a);
  }

  // ---- Case labels, vouching, the kernel window ---------------------------------------

  /** Where the walks begin that look for case labels: what may begin a function, as far as the capture alone tells. */
  lemma PreRootExactly(o: Overlay, cap: Capture, a: int)
    ensures a in PreRoots(o, cap) <==>
      (InOverlay(o, a) && (a in cap.functions || a in cap.discovery || a in cap.toml || ((a in cap.dispatch || a in cap.legacy) && IsBoundary(o, a))))
  {
    BoundaryExactly(o, a);
  }

  /** The walk of the `i`-th root up to the next one dispatches a switch to the address. */
  predicate Dispatches(walker: Walker, hi: int, roots: seq<int>, i: nat, a: int) { i < |roots| && a in WalkAt(walker, hi, roots, i).tables }

  lemma WalkOfRoot(walker: Walker, hi: int, roots: seq<int>, i: nat)
    requires i < |roots|
    ensures |WalksBy(walker, hi, roots)| == |roots| && WalksBy(walker, hi, roots)[i] == WalkAt(walker, hi, roots, i)
  {
  }

  lemma TablesExactly(walker: Walker, hi: int, roots: seq<int>, a: int)
    ensures a in TablesIn(WalksBy(walker, hi, roots)) <==> exists i: nat :: Dispatches(walker, hi, roots, i, a)
  {
    var walks := WalksBy(walker, hi, roots);
    if a in TablesIn(walks) {
      var i: nat :| i < |walks| && a in walks[i].tables;
      WalkOfRoot(walker, hi, roots, i);
      assert Dispatches(walker, hi, roots, i, a);
    }
    if i: nat :| Dispatches(walker, hi, roots, i, a) { WalkOfRoot(walker, hi, roots, i); }
  }

  /** A case label is in the table of a switch that one of those walks meets. */
  lemma LabelExactly(walker: Walker, o: Overlay, cap: Capture, hi: int, roots: seq<int>, a: int)
    requires hi == o.m.load + o.size && roots == Sorted(PreRoots(o, cap))
    ensures a in CaseLabels(walker, o, cap) <==> exists i: nat :: Dispatches(walker, hi, roots, i, a)
  {
    TablesExactly(walker, hi, roots, a);
  }

  /** Reasons that are no mere pointer or dispatch. */
  predicate IsStrong(r: Reason) { !r.FunctionPointerTarget? && !r.DispatchEntry? && !r.DispatchInterior? }

  /** A root vouches for the branches out of its body if it is a boundary, promoted, or there for a strong reason. */
  lemma SourceExactly(k: Task, derived: map<int, Reason>, root: int)
    ensures StrongSource(k, derived, root) <==>
      || IsBoundary(k.o, root)
      || (root in k.included && IsStrong(k.included[root]))
      || (root !in k.included && root in derived && IsStrong(derived[root]))
      || (root !in k.included && root !in derived && root in k.promoted)
  {
    BoundaryExactly(k.o, root);
  }

  /** Such a branch makes a root of a plausible body in the same producer. */
  lemma VouchesExactly(o: Overlay, root: int, t: int)
    ensures BranchVouches(o, root, t) <==>
      || (o.producers == [] && Plausible(o, t, o.m.load + o.size))
      || (o.producers != [] && Together(o, root, t) && exists r :: Linked(o.producers, t, r) && Plausible(o, t, r.1))
      || (o.producers != [] && (forall r :: !Linked(o.producers, root, r) && !Linked(o.producers, t, r))
          && Plausible(o, t, o.m.load + o.size))
  {
    TogetherExactly(o, root, t);
    var from, to := ProducerIn(o.producers, root), ProducerIn(o.producers, t);
    forall r ensures to == Some(r) <==> Linked(o.producers, t, r) { ProducerExactly(o.producers, t, r); }
    forall r ensures from == Some(r) <==> Linked(o.producers, root, r) { ProducerExactly(o.producers, root, r); }
    if to.Some? { assert Linked(o.producers, t, to.value); }
    if from.Some? { assert Linked(o.producers, root, from.value); }
  }

  /** In the first 64 kilobytes orphans are promoted: captured interiors with a valid word that no walk covers. */
  lemma OrphanExactly(o: Overlay, included: map<int, Reason>, covered: set<int>, a: int)
    ensures InKernelWindow(o) <==> o.m.load % 0x2000_0000 < 0x1_0000
    ensures a in Orphans(o, included, covered) <==>
      a in included && included[a] == DispatchInterior && a !in covered && IsValidWord(WordAt(o.m, a))
  {
  }

  // ---- Where walks end and discoveries begin -----------------------------------------------

  /** The next root, or the end of the capture. */
  function NextRoot(o: Overlay, roots: seq<int>, i: nat): int
    requires i < |roots|
  {
    if i == |roots| - 1 then o.m.load + o.size else roots[i+1]
  }

  /** Each root is walked from itself to the next one. */
  lemma WalkExactly(o: Overlay, roots: seq<int>, i: nat)
    requires i < |roots|
    ensures WalkAt(WalkerOf(o), o.m.load + o.size, roots, i) == WalkOf(Frame(o, roots[i], NextRoot(o, roots, i)))
  {
  }

  lemma BodyOfRoot(walker: Walker, hi: int, roots: seq<int>, i: nat)
    requires i < |roots|
    ensures |BodiesOf(WalksBy(walker, hi, roots))| == |roots|
    ensures BodiesOf(WalksBy(walker, hi, roots))[i] == WalkAt(walker, hi, roots, i).visited
  {
    WalkOfRoot(walker, hi, roots, i);
  }

  /** The emitted bodies are what the walks visit from each emitted root to the next, in ascending order. */
  lemma BodiesExactly(o: Overlay, g: Gate, cap: Capture, included: map<int, Reason>, part: Partition, c: Classified, i: nat)
    requires Emitted(WalkerOf(o), g, cap, included, part, c) && g.o == o && i < |c.roots|
    ensures Increasing(c.roots) && |c.bodies| == |c.roots|
    ensures c.bodies[i] == WalkOf(Frame(o, c.roots[i], NextRoot(o, c.roots, i))).visited
  {
    WalkExactly(o, c.roots, i);
    BodyOfRoot(WalkerOf(o), o.Hi(), c.roots, i);
  }

  /** An address is covered if it is in some body. */
  lemma UnionExactly(bodies: seq<set<int>>, a: int)
    ensures a in UnionOf(bodies) <==> exists body :: body in bodies && a in body
  {
    if a in UnionOf(bodies) {
      var i :| 0 <= i < |bodies| && a in bodies[i];
      assert bodies[i] in bodies;
    }
    if body :| body in bodies && a in body {
      var i :| 0 <= i < |bodies| && bodies[i] == body;
    }
  }

  /** A discovery begins with the captured roots and nothing derived, suppressed or promoted. */
  lemma DiscoveryBegins(o: Overlay, admitted: map<int, Reason>, a: int)
    ensures Undiscovered(admitted) == Discovery(Partition(Start(o, admitted).initial, map[]), {}, 0)
    ensures Start(o, admitted).included == admitted && Start(o, admitted).promoted == {}
    ensures a in Start(o, admitted).initial <==> a in admitted && admitted[a] != DispatchInterior
  {
  }

  // ---- Why a candidate is left out ------------------------------------------------------

  /** The walk of the `i`-th root branches to the address, dispatches to it, or branches out to it. */
  predicate LeadsTo(walker: Walker, hi: int, roots: seq<int>, i: nat, a: int) {
    i < |roots| && var w := WalkAt(walker, hi, roots, i); a in w.branches || a in w.tables || a in w.forwards
  }

  lemma BranchesExactly(walker: Walker, hi: int, roots: seq<int>, a: int)
    ensures a in BranchesOf(WalksBy(walker, hi, roots)) <==> exists i: nat :: LeadsTo(walker, hi, roots, i, a)
  {
    var walks := WalksBy(walker, hi, roots);
    if a in BranchesOf(walks) {
      var i: nat :| i < |walks| && a in walks[i].branches + walks[i].tables + walks[i].forwards;
      WalkOfRoot(walker, hi, roots, i);
      assert LeadsTo(walker, hi, roots, i, a);
    }
    if i: nat :| LeadsTo(walker, hi, roots, i, a) {
      WalkOfRoot(walker, hi, roots, i);
      assert a in walks[i].branches + walks[i].tables + walks[i].forwards;
    }
  }

  predicate Seen(cap: Capture, a: int) {
    a in cap.executed || a in cap.dispatch || a in cap.functions || a in cap.discovery || a in cap.legacy || a in cap.toml
  }

  /** What the capture saw and the classification does not emit is a branch target, merely observed, or unknown. */
  lemma RejectedExactly(walker: Walker, g: Gate, cap: Capture, included: map<int, Reason>, part: Partition, c: Classified, hi: int, a: int)
    requires hi == g.o.m.load + g.o.size
    requires Emitted(walker, g, cap, included, part, c) && Seen(cap, a) && InOverlay(g.o, a) && a !in c.seeds.included
    ensures a in c.seeds.excluded
    ensures c.seeds.excluded[a] ==
      if a in g.tables || exists i: nat :: LeadsTo(walker, hi, c.roots, i, a) then BranchTargetOnly
      else if a in cap.executed || a in cap.legacy then ObservedPcOnly
      else Unknown
  {
    assert a in Candidates(g.o, cap);
    BranchesExactly(walker, hi, c.roots, a);
    assert Lookup(c.seeds.excluded, a) == Some(Reject(cap, BranchesOf(WalksBy(walker, hi, c.roots)) + g.tables, a));
  }
}
