/** The walks' conditions spelled out over raw words, and the converse of the probe: an enclosed body is plausible. */
module WalkTerms {
  import opened Prelude
  import opened Mips
  import opened MipsLaws
  import opened ConstantTransfer
  import opened Reachability
  import opened OverlayWalk

  // ---- Regions and producers --------------------------------------------------

  predicate InRange(r: (int, int), a: int) { r.0 <= a < r.1 }

  /** The first producer that has the address. */
  ghost predicate Linked(producers: seq<(int, int)>, a: int, r: (int, int)) {
    exists i: nat :: FirstWith(producers, a, i) && producers[i] == r
  }

  predicate FirstWith(producers: seq<(int, int)>, a: int, i: nat) {
    i < |producers| && InRange(producers[i], a) && forall j :: 0 <= j < i ==> !InRange(producers[j], a)
  }

  lemma {:induction false} ProducerExactly(producers: seq<(int, int)>, a: int, r: (int, int))
    ensures ProducerIn(producers, a) == Some(r) <==> Linked(producers, a, r)
    decreases |producers|
  {
    if producers != [] {
      var rest := producers[1..];
      ProducerExactly(rest, a, r);
      if i: nat :| FirstWith(rest, a, i) && rest[i] == r {
        if !InRange(producers[0], a) { assert FirstWith(producers, a, i + 1); }
      }
      if i: nat :| FirstWith(producers, a, i) && producers[i] == r {
        if i > 0 { assert FirstWith(rest, a, i - 1) && rest[i-1] == r; }
      }
      if InRange(producers[0], a) { assert FirstWith(producers, a, 0); }
    }
  }

  /** Both lie in the same producer. */
  ghost predicate Together(o: Overlay, a: int, b: int) { exists r :: Linked(o.producers, a, r) && Linked(o.producers, b, r) }

  lemma TogetherExactly(o: Overlay, a: int, b: int)
    ensures Together(o, a, b) <==> ProducerIn(o.producers, a).Some? && ProducerIn(o.producers, b) == ProducerIn(o.producers, a)
  {
    if Together(o, a, b) {
      var r :| Linked(o.producers, a, r) && Linked(o.producers, b, r);
      ProducerExactly(o.producers, a, r);
      ProducerExactly(o.producers, b, r);
    }
    if ProducerIn(o.producers, a).Some? && ProducerIn(o.producers, b) == ProducerIn(o.producers, a) {
      var r := ProducerIn(o.producers, a).value;
      ProducerExactly(o.producers, a, r);
      ProducerExactly(o.producers, b, r);
    }
  }

  /** An aligned address of the region. */
  predicate InOverlay(o: Overlay, a: int) { o.m.load <= a < o.m.load + o.size && a % 4 == 0 }

  lemma OwnedExactly(o: Overlay, a: int)
    ensures Owned(o, a) <==> InOverlay(o, a) && (o.producers != [] ==> exists r :: Linked(o.producers, a, r))
  {
    if ProducerIn(o.producers, a).Some? { ProducerExactly(o.producers, a, ProducerIn(o.producers, a).value); }
    if r :| Linked(o.producers, a, r) { ProducerExactly(o.producers, a, r); }
  }

  /** What belongs to a function: aligned, of the region, from the entry up to the cap, and in the entry's producer. */
  lemma FunctionExactly(f: Frame, a: int)
    ensures InFunction(f, a) <==>
      InOverlay(f.o, a) && f.entry <= a < f.hardCap && (f.o.producers != [] ==> Together(f.o, f.entry, a))
  {
    TogetherExactly(f.o, f.entry, a);
  }

  /** Switch tables of a function must lie in its entry's producer, or in the capture where there is none. */
  lemma RangeExactly(f: Frame, r: (int, int))
    ensures Linked(f.o.producers, f.entry, r) ==> f.Range() == r
    ensures (forall q :: !Linked(f.o.producers, f.entry, q)) ==> f.Range() == (f.o.m.load, f.o.m.load + f.o.size)
  {
    var owner := ProducerIn(f.o.producers, f.entry);
    if owner.Some? { ProducerExactly(f.o.producers, f.entry, owner.value); }
    ProducerExactly(f.o.producers, f.entry, r);
  }

  // ---- What may be called --------------------------------------------------------

  /** The word is the aligned address of a captured byte. */
  predicate PointsInside(o: Overlay, w: Option<Word>) {
    w.Some? && w.value % 4 == 0 && o.m.load <= w.value < o.m.load + |o.m.data|
  }

  /** Three words in a row that are pointers into the capture. */
  predicate IsPointerTable(o: Overlay, a: int) {
    PointsInside(o, WordAt(o.m, a)) && PointsInside(o, WordAt(o.m, a + 4)) && PointsInside(o, WordAt(o.m, a + 8))
  }

  lemma PointerExactly(o: Overlay, a: int)
    ensures LocalPointer(o, a) <==> PointsInside(o, WordAt(o.m, a))
  {
  }

  lemma TableExactly(o: Overlay, a: int)
    ensures DensePointerTable(o, a) <==> IsPointerTable(o, a)
  {
    PointerExactly(o, a);
    PointerExactly(o, a + 4);
    PointerExactly(o, a + 8);
  }

  /**
   A function may begin at a valid word at the very start, two words behind a `jr ra`, or at an `addiu sp, sp` with a
   negative immediate that is in no delay slot.
   */
  predicate IsBoundary(o: Overlay, a: int) {
    && IsValidWord(WordAt(o.m, a))
    && (a == o.m.load || WordAt(o.m, a - 8) == Some(0x03E0_0008)
        || (0x27BD_8000 <= WordAt(o.m, a).value <= 0x27BD_FFFF && !IsControlFlow(WordAt(o.m, a - 4))))
  }

  lemma FrameExactly(w: Word)
    ensures Op(w) == 9 && Rs(w) == 29 && Rt(w) == 29 && Imm(w) >= 0x8000 <==> 0x27BD_8000 <= w <= 0x27BD_FFFF
  {
    var high := w / 0x1_0000;
    assert w / 0x20_0000 == high / 0x20 && w / 0x400_0000 == high / 0x400;
    assert high == Op(w) * 0x400 + Rs(w) * 0x20 + Rt(w);
  }

  lemma BoundaryExactly(o: Overlay, a: int)
    ensures CallableLegacySeed(o, a) <==> IsBoundary(o, a)
  {
    ListingAgrees(o.m, a - 4);
    if WordAt(o.m, a).Some? { FrameExactly(WordAt(o.m, a).value); }
  }

  /** The rule for calls: across producers only where that is allowed, and then to a boundary or a plausible body. */
  lemma CallableExactly(o: Overlay, source: int, target: int)
    ensures Callable(o, source, target) <==> (!IsPointerTable(o, target) &&
      (|| o.producers == [] || Together(o, source, target)
       || (o.crossCalls && (exists r :: Linked(o.producers, source, r)) && exists r :: MayEnter(o, target, r))))
  {
    TableExactly(o, target);
    BoundaryExactly(o, target);
    TogetherExactly(o, source, target);
    var from, to := ProducerIn(o.producers, source), ProducerIn(o.producers, target);
    if from.Some? { ProducerExactly(o.producers, source, from.value); }
    if to.Some? { ProducerExactly(o.producers, target, to.value); }
    if r :| Linked(o.producers, source, r) { ProducerExactly(o.producers, source, r); }
    if r :| MayEnter(o, target, r) { ProducerExactly(o.producers, target, r); }
    if to.Some? && (IsBoundary(o, target) || Plausible(o, target, to.value.1)) { assert MayEnter(o, target, to.value); }
  }

  /** The target is a boundary, or has a plausible body in its producer. */
  ghost predicate MayEnter(o: Overlay, target: int, r: (int, int)) {
    Linked(o.producers, target, r) && (IsBoundary(o, target) || Plausible(o, target, r.1))
  }

  // ---- The probe finds what is there ----------------------------------------------

  /** From the target on, at most 0x4000 bytes, the producer and the region. */
  function CapAt(o: Overlay, target: int, producerHi: int): int {
    var end := if o.m.load + o.size < producerHi then o.m.load + o.size else producerHi;
    if target + 0x4000 < end then target + 0x4000 else end
  }

  ghost function ProbeGraph(p: Program, target: int, cap: int): Graph {
    (a: int, b: int) => p(a).Some? && ProbeLeads(p(a).value, a, b, target, cap)
  }

  /** A valid aligned word of the probe. */
  predicate Sane(p: Program, target: int, cap: int, a: int) { target <= a < cap && a % 4 == 0 && p(a).Some? && p(a).value.valid }

  /** A plausible target has fewer than 2048 addresses, each a sane word below the cap. */
  lemma PlausibleIsInside(o: Overlay, target: int, producerHi: int) returns (body: set<int>, expanded: set<int>)
    requires Plausible(o, target, producerHi)
    ensures OverlayWalk.Sealed(o.Code(), target, CapAt(o, target, producerHi), body, expanded)
    ensures target in body && |body| < 2048 && forall a :: a in body ==> Sane(o.Code(), target, CapAt(o, target, producerHi), a)
  {
    PlausibleIsSealed(o, target, producerHi);
    assert CapAt(o, target, producerHi) == ProbeCap(o, target, producerHi);
    body, expanded :| OverlayWalk.Sealed(o.Code(), target, CapAt(o, target, producerHi), body, expanded);
  }

  /** Whatever control reaches from the target is a sane word, and so are the delay slots, which nothing leads into. */
  ghost predicate Encloses(p: Program, target: int, cap: int, body: set<int>, straight: set<int>) {
    && target in straight && straight <= body && |body| < 2048
    && forall a :: a in straight ==> Sane(p, target, cap, a) && EnclosedAt(p, target, cap, body, straight, a)
  }

  ghost predicate EnclosedAt(p: Program, target: int, cap: int, body: set<int>, straight: set<int>, a: int) {
    p(a).Some? && (forall b :: ProbeLeads(p(a).value, a, b, target, cap) ==> b in straight)
    && (Slotted(p(a).value) ==> a + 4 in body && a + 4 !in straight && Sane(p, target, cap, a + 4))
  }

  /** The probe has stayed inside, and has seen a return if it has been at one. */
  ghost predicate Stays(p: Program, target: int, cap: int, s: Probe, now: set<int>, body: set<int>, straight: set<int>) {
    && !s.bad && now <= straight && s.body <= body && (forall a :: a in s.body && a in straight ==> a in now)
    && (forall b :: b in s.work ==> b in straight) && (target in now || target in s.work)
    && Follows(ProbeSuccessors(p, target, cap), Slots(p), s.body, now, s.work)
    && (HasReturn(p, now) ==> s.returned)
  }

  lemma StaysDrops(p: Program, target: int, cap: int, s: Probe, now: set<int>, body: set<int>, straight: set<int>)
    requires Stays(p, target, cap, s, now, body, straight) && s.work != [] && s.work[0] in s.body
    ensures Stays(p, target, cap, s.(work := s.work[1..]), now, body, straight)
  {
    assert s.work == [s.work[0]] + s.work[1..];
    FollowsDrops(ProbeSuccessors(p, target, cap), Slots(p), s.body, now, s.work);
  }

  lemma SlotsOf(p: Program, a: int)
    requires p(a).Some?
    ensures JumpTable.DelaySlot(p(a).value, a) == Slots(p)(a) == if Slotted(p(a).value) then {a + 4} else {}
  {
    SlottedIsDelay(p(a).value, a);
  }

  lemma NextsOf(p: Program, target: int, cap: int, a: int)
    requires p(a).Some?
    ensures forall b :: b in ProbeNext(p(a).value, a, target, cap) <==> ProbeLeads(p(a).value, a, b, target, cap)
    ensures forall b :: b in ProbeSuccessors(p, target, cap)(a) ==> b in ProbeNext(p(a).value, a, target, cap)
  {
    forall b ensures b in ProbeNext(p(a).value, a, target, cap) <==> ProbeLeads(p(a).value, a, b, target, cap) {
      ProbeNextLeads(p(a).value, a, b, target, cap);
    }
  }

  lemma TurnOf(p: Program, target: int, cap: int, s: Probe, body: set<int>, straight: set<int>)
    requires Encloses(p, target, cap, body, straight) && s.work != [] && s.work[0] in straight && s.work[0] !in s.body
    ensures p(s.work[0]).Some?
    ensures ProbeTurn(p, target, cap, s) ==
      Probe(s.body + {s.work[0]} + Slots(p)(s.work[0]), s.work[1..] + ProbeNext(p(s.work[0]).value, s.work[0], target, cap),
            s.returned || p(s.work[0]).value.flow.Return?, false)
  {
    var pc := s.work[0];
    assert Sane(p, target, cap, pc) && EnclosedAt(p, target, cap, body, straight, pc);
    SlotsOf(p, pc);
  }

  lemma StaysExpands(p: Program, target: int, cap: int, s: Probe, now: set<int>, body: set<int>, straight: set<int>)
    requires Encloses(p, target, cap, body, straight) && Stays(p, target, cap, s, now, body, straight)
    requires s.work != [] && s.work[0] !in s.body
    ensures Stays(p, target, cap, ProbeTurn(p, target, cap, s), now + {s.work[0]}, body, straight)
  {
    var pc := s.work[0];
    assert s.work == [pc] + s.work[1..];
    TurnOf(p, target, cap, s, body, straight);
    assert EnclosedAt(p, target, cap, body, straight, pc);
    SlotsOf(p, pc);
    NextsOf(p, target, cap, pc);
    FollowsVisits(ProbeSuccessors(p, target, cap), Slots(p), s.body, now, s.work, ProbeNext(p(pc).value, pc, target, cap));
    ReturnSeen(p, s, now, pc);
  }

  lemma ReturnSeen(p: Program, s: Probe, now: set<int>, pc: int)
    requires p(pc).Some? && (HasReturn(p, now) ==> s.returned)
    ensures HasReturn(p, now + {pc}) ==> s.returned || p(pc).value.flow.Return?
  {
    if HasReturn(p, now + {pc}) {
      var a :| a in now + {pc} && Returns(p, a);
      if a != pc { assert a in now && HasReturn(p, now); }
    }
  }

  lemma {:induction false} ProbeStays(p: Program, target: int, cap: int, s: Probe, now: set<int>, body: set<int>, straight: set<int>)
    returns (last: set<int>)
    requires Encloses(p, target, cap, body, straight) && Stays(p, target, cap, s, now, body, straight)
    ensures Stays(p, target, cap, ProbeEnd(p, target, cap, s), last, body, straight) && ProbeEnd(p, target, cap, s).work == []
    decreases !s.bad, PROBE_LIMIT - |s.body|, |s.work|
  {
    Sorting.SubsetSize(s.body, body);
    if s.work == [] {
      last := now;
    } else {
      ProbeShrinks(p, target, cap, s);
      if s.work[0] in s.body {
        StaysDrops(p, target, cap, s, now, body, straight);
        last := ProbeStays(p, target, cap, s.(work := s.work[1..]), now, body, straight);
      } else {
        StaysExpands(p, target, cap, s, now, body, straight);
        last := ProbeStays(p, target, cap, ProbeTurn(p, target, cap, s), now + {s.work[0]}, body, straight);
      }
    }
  }

  lemma ClosedBehind(p: Program, target: int, cap: int, s: Probe, now: set<int>, body: set<int>, straight: set<int>, a: int, b: int)
    requires Encloses(p, target, cap, body, straight) && Stays(p, target, cap, s, now, body, straight) && s.work == []
    requires a in now && ProbeGraph(p, target, cap)(a, b)
    ensures b in now
  {
    assert EnclosedAt(p, target, cap, body, straight, a);
    SuccessorOf(p, target, cap, a, b);
    assert Reachability.Expanded(ProbeSuccessors(p, target, cap), Slots(p), s.body, [], a);
  }

  /**
   A call target is plausible if its first word is valid, not a nop and no pointer table, all that control reaches from it
   within the cap is at most 2047 sane words with their delay slots, and a return is among what it reaches.
   */
  lemma EnclosedIsPlausible(o: Overlay, target: int, producerHi: int, body: set<int>, straight: set<int>, r: int)
    requires Encloses(o.Code(), target, CapAt(o, target, producerHi), body, straight)
    requires WordAt(o.m, target) != Some(0) && !IsPointerTable(o, target)
    requires Reachable(ProbeGraph(o.Code(), target, CapAt(o, target, producerHi)), {target}, r)
    requires o.Code()(r).Some? && o.Code()(r).value.flow.Return?
    ensures Plausible(o, target, producerHi)
  {
    var p, cap, s := o.Code(), CapAt(o, target, producerHi), ProbeStart(target);
    assert cap == ProbeCap(o, target, producerHi);
    TableExactly(o, target);
    assert Stays(p, target, cap, s, {}, body, straight);
    var last := ProbeStays(p, target, cap, s, {}, body, straight);
    var end, g := ProbeEnd(p, target, cap, s), ProbeGraph(p, target, cap);
    forall a, b | a in last && g(a, b) ensures b in last { ClosedBehind(p, target, cap, end, last, body, straight, a, b); }
    var path :| Connects(g, {target}, r, path);
    ClosedHolds(g, {target}, last, path);
    assert Returns(p, r) && HasReturn(p, last);
    Sorting.SubsetSize(end.body, body);
    assert Sane(p, target, cap, target);
  }
}
