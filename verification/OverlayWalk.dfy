/**
 _walk_overlay_function and plausible_callable_target: bounded control-flow walks over one overlay image.
 A delay slot is marked without being expanded, so the walk is sound and contained, not complete.
 */
module OverlayWalk {
  import opened Prelude
  import opened Mips
  import opened Machine
  import opened Reachability
  import opened Sorting
  import opened ConstantTransfer
  import opened JumpTable

  /** An image, its declared size, the linked producers inside it, and whether calls may cross between them. */
  datatype Overlay = Overlay(m: Image, size: nat, producers: seq<(int, int)>, crossCalls: bool) {
    function Lo(): int { m.load }
    function Hi(): int { m.load + size }
    function Code(): Program { Listing(m) }
  }

  function ProducerIn(ranges: seq<(int, int)>, a: int): Option<(int, int)> {
    if ranges == [] then None
    else if ranges[0].0 <= a < ranges[0].1 then Some(ranges[0])
    else ProducerIn(ranges[1..], a)
  }

  predicate InRegion(o: Overlay, a: int) { o.Lo() <= a < o.Hi() && a % 4 == 0 }

  /** An address a root or a call may have: in the region, and owned by a producer when there are any. */
  predicate Owned(o: Overlay, a: int) {
    InRegion(o, a) && (o.producers != [] ==> ProducerIn(o.producers, a).Some?)
  }

  predicate IsValid(i: Option<Insn>) { i.Some? && i.value.valid }

  predicate IsJrRa(i: Option<Insn>) { i.Some? && i.value.word == 0x03E0_0008 }

  predicate OpensFrame(i: Option<Insn>) {
    i.Some? && i.value.op == 9 && i.value.rs == 29 && i.value.rt == 29 && i.value.imm >= 0x8000
  }

  /** `_callable_legacy_seed`: the region's start, an address behind a return, or a stack frame opened in sequence. */
  predicate CallableLegacySeed(o: Overlay, a: int) {
    var p := o.Code();
    IsValid(p(a)) && (a == o.Lo() || IsJrRa(p(a - 8)) || (OpensFrame(p(a)) && !Transfers(p(a - 4))))
  }

  /** One word of `_dense_local_pointer_table`. */
  predicate LocalPointer(o: Overlay, a: int) {
    var i := o.Code()(a);
    i.Some? && i.value.word % 4 == 0 && o.Lo() <= i.value.word < o.Lo() + |o.m.data|
  }

  predicate DensePointerTable(o: Overlay, a: int) {
    LocalPointer(o, a) && LocalPointer(o, a + 4) && LocalPointer(o, a + 8)
  }

  /** `_callable_direct_jal_target` */
  predicate CallableDirectJal(o: Overlay, a: int) { !DensePointerTable(o, a) && CallableLegacySeed(o, a) }

  /** Where execution goes on in sequence after an instruction and its delay slot. */
  function FallThrough(i: Insn, pc: int): Option<int> {
    match i.flow
    case Normal => Some(pc + 4)
    case Jump(_) => None
    case JumpRegister => None
    case Return => None
    case _ => Some(pc + 8)
  }

  function BranchTo(i: Insn): Option<int> {
    match i.flow
    case Branch(t) => Some(t)
    case Jump(t) => Some(t)
    case _ => None
  }

  /** The word behind the instruction runs with it. */
  predicate Slotted(i: Insn) { !i.flow.Normal? && !i.flow.BranchNeverLikely? }

  // ---- plausible_callable_target -------------------------------------------

  const PROBE_LIMIT := 2048

  predicate Inside(target: int, cap: int, a: int) { target <= a < cap && a % 4 == 0 }

  /** An address of the probe with a valid word. */
  predicate Proven(p: Program, target: int, cap: int, a: int) { Inside(target, cap, a) && IsValid(p(a)) }

  /** Where the probe has to go on: in sequence, and to branch targets inside it. */
  function ProbeNext(i: Insn, pc: int, target: int, cap: int): seq<int> {
    (if FallThrough(i, pc).Some? then [FallThrough(i, pc).value] else []) +
    (if BranchTo(i).Some? && Inside(target, cap, BranchTo(i).value) then [BranchTo(i).value] else [])
  }

  /** Where control goes on in sequence, wherever that is, and at a branch target inside the probe. */
  predicate ProbeLeads(i: Insn, a: int, b: int, target: int, cap: int) {
    match i.flow
    case Normal => b == a + 4
    case Branch(t) => b == a + 8 || (b == t && Inside(target, cap, t))
    case BranchNever => b == a + 8
    case BranchNeverLikely => b == a + 8
    case Jump(t) => b == t && Inside(target, cap, t)
    case Call(_) => b == a + 8
    case CallRegister => b == a + 8
    case JumpRegister => false
    case Return => false
  }

  lemma ProbeNextLeads(i: Insn, a: int, b: int, target: int, cap: int)
    ensures b in ProbeNext(i, a, target, cap) <==> ProbeLeads(i, a, b, target, cap)
  {
  }

  function ProbeSuccessors(p: Program, target: int, cap: int): Successors {
    a => if p(a).None? then {} else
      set b | b in {a + 4, a + 8} + (if BranchTo(p(a).value).Some? then {BranchTo(p(a).value).value} else {})
              && ProbeLeads(p(a).value, a, b, target, cap)
  }

  function Slots(p: Program): Successors {
    a => if p(a).Some? && Slotted(p(a).value) then {a + 4} else {}
  }

  predicate Returns(p: Program, a: int) { p(a).Some? && p(a).value.flow.Return? }

  /** Everything the instruction leads to is in the body. */
  ghost predicate KeptIn(target: int, cap: int, body: set<int>, a: int, i: Insn) {
    (forall b :: ProbeLeads(i, a, b, target, cap) ==> b in body) && (Slotted(i) ==> a + 4 in body)
  }

  /**
   A bounded body around the target: valid words only, every fall-through and every branch inside the
   probe stays in it, and some path returns.
   */
  ghost predicate Sealed(p: Program, target: int, cap: int, body: set<int>, expanded: set<int>) {
    && target in expanded && expanded <= body && |body| < PROBE_LIMIT
    && (forall a :: a in body ==> Proven(p, target, cap, a))
    && (forall a :: a in expanded ==> p(a).Some? && KeptIn(target, cap, body, a, p(a).value))
    && (forall a :: a in body && a !in expanded ==> a - 4 in expanded && p(a - 4).Some? && Slotted(p(a - 4).value))
    && HasReturn(p, expanded)
  }

  ghost predicate HasReturn(p: Program, expanded: set<int>) { exists a :: a in expanded && Returns(p, a) }

  datatype Probe = Probe(body: set<int>, work: seq<int>, returned: bool, bad: bool)

  ghost predicate Probing(p: Program, target: int, cap: int, s: Probe, expanded: set<int>) {
    && (target in expanded || (s.work != [] && s.work[0] == target && s.body == {}))
    && (forall a :: a in s.body ==> Proven(p, target, cap, a))
    && Follows(ProbeSuccessors(p, target, cap), Slots(p), s.body, expanded, s.work)
    && (s.returned ==> HasReturn(p, expanded))
  }

  predicate SlotFits(p: Program, target: int, cap: int, slot: set<int>) {
    forall a :: a in slot ==> Proven(p, target, cap, a)
  }

  lemma SlottedIsDelay(i: Insn, pc: int)
    ensures DelaySlot(i, pc) == if Slotted(i) then {pc + 4} else {}
  {
  }

  lemma SlotProven(p: Program, target: int, cap: int, i: Insn, pc: int)
    requires DelaySlot(i, pc) == {} || Proven(p, target, cap, pc + 4)
    ensures SlotFits(p, target, cap, DelaySlot(i, pc))
  {
  }

  lemma ProbeVisits(p: Program, target: int, cap: int, s: Probe, expanded: set<int>, i: Insn, t: Probe)
    requires s.work != [] && Probing(p, target, cap, s, expanded) && s.work[0] !in s.body
    requires Proven(p, target, cap, s.work[0]) && p(s.work[0]) == Some(i)
    requires SlotFits(p, target, cap, DelaySlot(i, s.work[0]))
    requires t.body == s.body + {s.work[0]} + DelaySlot(i, s.work[0])
    requires t.work == s.work[1..] + ProbeNext(i, s.work[0], target, cap)
    requires t.returned == (s.returned || i.flow.Return?)
    ensures Probing(p, target, cap, t, expanded + {s.work[0]})
  {
    var pc := s.work[0];
    var grown := expanded + {pc};
    FollowsVisits(ProbeSuccessors(p, target, cap), Slots(p), s.body, expanded, s.work, ProbeNext(i, pc, target, cap));
    if i.flow.Return? {
      assert pc in grown && Returns(p, pc);
    } else if s.returned {
      var a :| a in expanded && Returns(p, a);
      assert a in grown && Returns(p, a);
    }
  }

  lemma Larger(body: set<int>, pc: int, slot: set<int>)
    requires pc !in body
    ensures |body + {pc} + slot| > |body|
  {
    SubsetSize(body + {pc}, body + {pc} + slot);
  }

  /** One turn of the probe. */
  function ProbeTurn(p: Program, target: int, cap: int, s: Probe): Probe
    requires s.work != []
  {
    var pc := s.work[0];
    if pc in s.body then s.(work := s.work[1..])
    else if !Proven(p, target, cap, pc) then s.(bad := true)
    else
      var i := p(pc).value;
      Probe(s.body + {pc} + DelaySlot(i, pc), s.work[1..] + ProbeNext(i, pc, target, cap), s.returned || i.flow.Return?,
            DelaySlot(i, pc) != {} && !Proven(p, target, cap, pc + 4))
  }

  predicate Goes(s: Probe) { s.work != [] && !s.bad && |s.body| < PROBE_LIMIT }

  lemma ProbeShrinks(p: Program, target: int, cap: int, s: Probe)
    requires Goes(s)
    ensures var t := ProbeTurn(p, target, cap, s);
      |t.body| > |s.body| || (t.body == s.body && |t.work| < |s.work|) || t.bad
  {
    var pc := s.work[0];
    if pc !in s.body && Proven(p, target, cap, pc) {
      Larger(s.body, pc, DelaySlot(p(pc).value, pc));
    }
  }

  /** Where the probe ends. */
  function ProbeEnd(p: Program, target: int, cap: int, s: Probe): Probe
    decreases !s.bad, PROBE_LIMIT - |s.body|, |s.work|
  {
    if !Goes(s) then s
    else
      ProbeShrinks(p, target, cap, s);
      ProbeEnd(p, target, cap, ProbeTurn(p, target, cap, s))
  }

  function ProbeCap(o: Overlay, target: int, producerHi: int): int { Min(Min(o.Hi(), producerHi), target + 0x4000) }

  function ProbeStart(target: int): Probe { Probe({}, [target], false, false) }

  /** The probe around the target runs out of work below its bound, and has seen a return. */
  predicate Plausible(o: Overlay, target: int, producerHi: int) {
    && IsValid(o.Code()(target)) && o.Code()(target).value.word != 0 && !DensePointerTable(o, target)
    && var s := ProbeEnd(o.Code(), target, ProbeCap(o, target, producerHi), ProbeStart(target));
       s.returned && !s.bad && s.work == [] && |s.body| < PROBE_LIMIT
  }

  lemma ProbeDrops(p: Program, target: int, cap: int, s: Probe, expanded: set<int>)
    requires Goes(s) && Probing(p, target, cap, s, expanded) && s.work[0] in s.body
    ensures Probing(p, target, cap, s.(work := s.work[1..]), expanded)
  {
    FollowsDrops(ProbeSuccessors(p, target, cap), Slots(p), s.body, expanded, s.work);
  }

  lemma ProbeMarks(p: Program, target: int, cap: int, s: Probe)
    requires s.work != [] && s.work[0] !in s.body && !ProbeTurn(p, target, cap, s).bad
    ensures Proven(p, target, cap, s.work[0])
    ensures var pc, t := s.work[0], ProbeTurn(p, target, cap, s);
            var i := p(pc).value;
            && SlotFits(p, target, cap, DelaySlot(i, pc))
            && t.body == s.body + {pc} + DelaySlot(i, pc) && t.work == s.work[1..] + ProbeNext(i, pc, target, cap)
            && t.returned == (s.returned || i.flow.Return?)
  {
    if Proven(p, target, cap, s.work[0]) { SlotProven(p, target, cap, p(s.work[0]).value, s.work[0]); }
  }

  lemma ProbeTurnKeeps(p: Program, target: int, cap: int, s: Probe, expanded: set<int>) returns (grown: set<int>)
    requires Goes(s) && Probing(p, target, cap, s, expanded)
    ensures ProbeTurn(p, target, cap, s).bad || Probing(p, target, cap, ProbeTurn(p, target, cap, s), grown)
  {
    var pc, t := s.work[0], ProbeTurn(p, target, cap, s);
    if pc in s.body {
      ProbeDrops(p, target, cap, s, expanded);
      return expanded;
    }
    grown := expanded + {pc};
    if !t.bad {
      assert Probing(p, target, cap, t, grown) by {
        ProbeMarks(p, target, cap, s);
        ProbeVisits(p, target, cap, s, expanded, p(pc).value, t);
      }
    }
  }

  lemma {:induction false} ProbeKeeps(p: Program, target: int, cap: int, s: Probe, expanded: set<int>) returns (grown: set<int>)
    requires Probing(p, target, cap, s, expanded)
    ensures ProbeEnd(p, target, cap, s).bad || Probing(p, target, cap, ProbeEnd(p, target, cap, s), grown)
    decreases !s.bad, PROBE_LIMIT - |s.body|, |s.work|
  {
    grown := expanded;
    if Goes(s) {
      var next := ProbeTurnKeeps(p, target, cap, s, expanded);
      ProbeShrinks(p, target, cap, s);
      if !ProbeTurn(p, target, cap, s).bad {
        grown := ProbeKeeps(p, target, cap, ProbeTurn(p, target, cap, s), next);
      }
    }
  }

  lemma SuccessorOf(p: Program, target: int, cap: int, a: int, b: int)
    requires p(a).Some? && ProbeLeads(p(a).value, a, b, target, cap)
    ensures b in ProbeSuccessors(p, target, cap)(a)
  {
  }

  lemma ExpandedStays(p: Program, target: int, cap: int, body: set<int>, expanded: set<int>, a: int)
    requires Follows(ProbeSuccessors(p, target, cap), Slots(p), body, expanded, []) && a in expanded && p(a).Some?
    ensures a in body && KeptIn(target, cap, body, a, p(a).value)
  {
    assert Reachability.Expanded(ProbeSuccessors(p, target, cap), Slots(p), body, [], a);
    forall b | ProbeLeads(p(a).value, a, b, target, cap) ensures b in body { SuccessorOf(p, target, cap, a, b); }
    if Slotted(p(a).value) { assert a + 4 in Slots(p)(a); }
  }

  lemma ProbedIsSealed(p: Program, target: int, cap: int, s: Probe, expanded: set<int>)
    requires Probing(p, target, cap, s, expanded) && s.work == [] && s.returned && |s.body| < PROBE_LIMIT
    ensures Sealed(p, target, cap, s.body, expanded)
  {
    forall a | a in expanded ensures a in s.body && p(a).Some? && KeptIn(target, cap, s.body, a, p(a).value) {
      assert Reachability.Expanded(ProbeSuccessors(p, target, cap), Slots(p), s.body, [], a);
      assert Proven(p, target, cap, a);
      ExpandedStays(p, target, cap, s.body, expanded, a);
    }
    forall a | a in s.body && a !in expanded ensures a - 4 in expanded && p(a - 4).Some? && Slotted(p(a - 4).value) {
      assert InSlot(Slots(p), expanded, a);
    }
  }

  /** A plausible target has a bounded body of valid words that nothing inside the probe leaves, with a return in it. */
  lemma PlausibleIsSealed(o: Overlay, target: int, producerHi: int)
    requires Plausible(o, target, producerHi)
    ensures exists body, expanded :: Sealed(o.Code(), target, ProbeCap(o, target, producerHi), body, expanded)
  {
    var p, cap := o.Code(), ProbeCap(o, target, producerHi);
    var expanded := ProbeKeeps(p, target, cap, ProbeStart(target), {});
    ProbedIsSealed(p, target, cap, ProbeEnd(p, target, cap, ProbeStart(target)), expanded);
  }

  /** plausible_callable_target */
  method PlausibleCallableTarget(o: Overlay, target: int, producerHi: int) returns (ok: bool)
    ensures ok == Plausible(o, target, producerHi)
  {
    var p := o.Code();
    if p(target).None? || p(target).value.word == 0 || !p(target).value.valid || DensePointerTable(o, target) {
      return false;
    }
    var cap := ProbeCap(o, target, producerHi);
    var s := ProbeStart(target);
    while Goes(s)
      invariant ProbeEnd(p, target, cap, s) == ProbeEnd(p, target, cap, ProbeStart(target))
      decreases !s.bad, PROBE_LIMIT - |s.body|, |s.work|
    {
      ProbeShrinks(p, target, cap, s);
      s := ProbeTurn(p, target, cap, s);
    }
    ok := s.returned && !s.bad && s.work == [] && |s.body| < PROBE_LIMIT;
  }

  // ---- _walk_overlay_function ----------------------------------------------

  /**
   A call from `source` may be to `target`: no pointer table; with producers, the same one or, where calls may
   cross, a target with boundary evidence of its own.
   */
  predicate Callable(o: Overlay, source: int, target: int) {
    var from, to := ProducerIn(o.producers, source), ProducerIn(o.producers, target);
    && !DensePointerTable(o, target)
    && (o.producers != [] ==>
         && from.Some? && to.Some?
         && (from == to || (o.crossCalls && (CallableDirectJal(o, target) || Plausible(o, target, to.value.1)))))
  }

  /** `callable_transfer_target` */
  method CallableTransferTarget(o: Overlay, source: int, target: int) returns (ok: bool)
    ensures ok == Callable(o, source, target)
  {
    if DensePointerTable(o, target) { return false; }
    if o.producers == [] { return true; }
    var from, to := ProducerIn(o.producers, source), ProducerIn(o.producers, target);
    if from.None? || to.None? { return false; }
    if from == to { return true; }
    if !o.crossCalls { return false; }
    if CallableDirectJal(o, target) { return true; }
    ok := PlausibleCallableTarget(o, target, to.value.1);
  }

  /** One function being walked: from its entry up to the next root. */
  datatype Frame = Frame(o: Overlay, entry: int, hardCap: int) {
    function Range(): (int, int) {
      var owner := ProducerIn(o.producers, entry);
      if owner.Some? then owner.value else (o.Lo(), o.Hi())
    }
  }

  predicate InFunction(f: Frame, a: int) {
    && f.o.Lo() <= a < f.o.Hi() && f.entry <= a < f.hardCap && a % 4 == 0
    && (f.o.producers != [] ==>
         ProducerIn(f.o.producers, f.entry).Some? && ProducerIn(f.o.producers, a) == ProducerIn(f.o.producers, f.entry))
  }

  /** What the walk found. */
  datatype Walk = Walk(visited: set<int>, directJals: set<int>, indirect: set<int>, branches: set<int>,
                       tables: set<int>, forwards: set<int>)

  const NOTHING_WALKED := Walk({}, {}, {}, {}, {}, {})

  // ---- What one instruction leads to -----------------------------------------

  /** The address of the region that the register of the jump or call at `pc` holds, if it holds a constant. */
  ghost function KnownTarget(f: Frame, i: Insn, pc: int): Option<int> {
    var constant := ConstantOf(f.o.Code(), f.entry, pc, i.rs);
    if constant.Some? && InRegion(f.o, constant.value) then Some(constant.value) else None
  }

  ghost function TablesAt(f: Frame, i: Insn, pc: int): set<int> {
    JumpTargets(f.o.Code(), f.entry, f.hardCap, f.Range().0, f.Range().1, pc, i.rs)
  }

  /** `i` is a `jal` at `a` to `b`. */
  predicate Calls(f: Frame, i: Insn, a: int, b: int) {
    i.flow == Call(b) && InRegion(f.o, b) && IsValid(f.o.Code()(b)) && Callable(f.o, a, b)
  }

  /** `i` is a `jalr`, or a `jr` out of the function, at `a` to the constant `b`. */
  ghost predicate RegisterCalls(f: Frame, i: Insn, a: int, b: int) {
    && (i.flow.CallRegister? || (i.flow.JumpRegister? && !InFunction(f, b)))
    && KnownTarget(f, i, a) == Some(b) && Callable(f.o, a, b)
  }

  /** `i` is a `jr` at `a` to the constant `b` inside the function. */
  ghost predicate RegisterJumps(f: Frame, i: Insn, a: int, b: int) {
    i.flow.JumpRegister? && KnownTarget(f, i, a) == Some(b) && InFunction(f, b)
  }

  /** `i` is a `jr` at `a` that holds no constant and dispatches a switch over `b`. */
  ghost predicate Switches(f: Frame, i: Insn, a: int, b: int) {
    i.flow.JumpRegister? && KnownTarget(f, i, a).None? && b in TablesAt(f, i, a)
  }

  /** `i` branches out of the function forwards to `b`. */
  predicate LeavesForwards(f: Frame, i: Insn, b: int) {
    (i.flow == Branch(b) || i.flow == Jump(b)) && !InFunction(f, b) && InRegion(f.o, b) && b >= f.hardCap
  }

  /** Where control goes on after the instruction at `a` and its delay slot, kind by kind; a call comes back behind its slot. */
  predicate GoesStraight(i: Insn, a: int, b: int) {
    match i.flow
    case Normal => b == a + 4
    case Branch(t) => b == a + 8 || b == t
    case BranchNever => b == a + 8
    case BranchNeverLikely => b == a + 8
    case Jump(t) => b == t
    case Call(_) => b == a + 8
    case CallRegister => b == a + 8
    case JumpRegister => false
    case Return => false
  }

  lemma StraightIsDirect(i: Insn, a: int, b: int)
    ensures GoesStraight(i, a, b) <==> FallThrough(i, a) == Some(b) || BranchTo(i) == Some(b)
  {
  }

  /** The same with the targets that are proven for a register. */
  ghost predicate GoesOn(f: Frame, i: Insn, a: int, b: int) {
    GoesStraight(i, a, b) || RegisterJumps(f, i, a, b) || Switches(f, i, a, b)
  }

  /** Control goes on inside the function at `b` after the transfer `i`; the cases of a switch are recorded wherever they are. */
  ghost predicate Branches(f: Frame, i: Insn, a: int, b: int) {
    !i.flow.Normal? && GoesOn(f, i, a, b) && (InFunction(f, b) || Switches(f, i, a, b))
  }

  /** The control flow of one instruction, its delay slot included. */
  ghost predicate Leads(f: Frame, i: Insn, a: int, b: int) { GoesOn(f, i, a, b) || (Slotted(i) && b == a + 4) }

  /** A relation between the instruction at an address and other addresses. */
  type Refers = (Insn, int, int) -> bool

  /** The relation at the addresses of one image. */
  ghost function At(f: Frame, r: Refers): Graph {
    (a: int, b: int) => f.o.Code()(a).Some? && r(f.o.Code()(a).value, a, b)
  }

  ghost function WalkGraph(f: Frame): Graph { At(f, (i: Insn, a: int, b: int) => Leads(f, i, a, b)) }
  ghost function CallGraph(f: Frame): Graph { At(f, (i: Insn, a: int, b: int) => Calls(f, i, a, b)) }
  ghost function RegisterCallGraph(f: Frame): Graph { At(f, (i: Insn, a: int, b: int) => RegisterCalls(f, i, a, b)) }
  ghost function SwitchGraph(f: Frame): Graph { At(f, (i: Insn, a: int, b: int) => Switches(f, i, a, b)) }
  ghost function ForwardGraph(f: Frame): Graph { At(f, (i: Insn, a: int, b: int) => LeavesForwards(f, i, b)) }
  ghost function BranchGraph(f: Frame): Graph { At(f, (i: Insn, a: int, b: int) => Branches(f, i, a, b)) }

  type Within = int -> bool

  function WithinFunction(f: Frame): Within { a => InFunction(f, a) }

  /** The direct successors inside the function. */
  function DirectNext(inside: Within, i: Insn, pc: int): seq<int> {
    (if FallThrough(i, pc).Some? && inside(FallThrough(i, pc).value) then [FallThrough(i, pc).value] else []) +
    (if BranchTo(i).Some? && inside(BranchTo(i).value) then [BranchTo(i).value] else [])
  }

  /** What one instruction adds besides its direct successors: register targets, table entries and calls. */
  datatype Found = Found(on: set<int>, tables: set<int>, jals: set<int>, indirect: set<int>)

  /** `x` is what the instruction at `pc` adds. */
  ghost predicate FoundAt(f: Frame, i: Insn, pc: int, x: Found) {
    && (forall b :: b in x.jals <==> Calls(f, i, pc, b)) && (forall b :: b in x.indirect <==> RegisterCalls(f, i, pc, b))
    && (forall b :: b in x.tables <==> Switches(f, i, pc, b))
    && (forall b :: b in x.on <==> Switches(f, i, pc, b) || RegisterJumps(f, i, pc, b))
  }

  ghost function TheFound(f: Frame, i: Insn, pc: int): Found {
    match i.flow
    case Call(t) => Found({}, {}, if Calls(f, i, pc, t) then {t} else {}, {})
    case CallRegister => RegisterFound(f, i, pc)
    case JumpRegister => if KnownTarget(f, i, pc).Some? then RegisterFound(f, i, pc) else Found(TablesAt(f, i, pc), TablesAt(f, i, pc), {}, {})
    case _ => Found({}, {}, {}, {})
  }

  /** What a constant register target adds. */
  ghost function RegisterFound(f: Frame, i: Insn, pc: int): Found {
    var target := KnownTarget(f, i, pc);
    if target.None? then Found({}, {}, {}, {})
    else if i.flow.JumpRegister? && InFunction(f, target.value) then Found({target.value}, {}, {}, {})
    else Found({}, {}, {}, if Callable(f.o, pc, target.value) then {target.value} else {})
  }

  lemma CallIsFound(f: Frame, i: Insn, pc: int)
    requires !i.flow.CallRegister? && !i.flow.JumpRegister?
    ensures FoundAt(f, i, pc, TheFound(f, i, pc))
  {
  }

  lemma RegisterIsFound(f: Frame, i: Insn, pc: int)
    requires i.flow.CallRegister? || (i.flow.JumpRegister? && KnownTarget(f, i, pc).Some?)
    ensures FoundAt(f, i, pc, RegisterFound(f, i, pc))
  {
  }

  lemma SwitchIsFound(f: Frame, i: Insn, pc: int, tables: set<int>)
    requires i.flow.JumpRegister? && KnownTarget(f, i, pc).None? && tables == TablesAt(f, i, pc)
    ensures FoundAt(f, i, pc, Found(tables, tables, {}, {}))
  {
    forall b ensures !Calls(f, i, pc, b) && !RegisterCalls(f, i, pc, b) && !RegisterJumps(f, i, pc, b) {}
    forall b ensures b in tables <==> Switches(f, i, pc, b) {}
  }

  lemma TheFoundIsFound(f: Frame, i: Insn, pc: int)
    ensures FoundAt(f, i, pc, TheFound(f, i, pc))
  {
    if i.flow.CallRegister? || (i.flow.JumpRegister? && KnownTarget(f, i, pc).Some?) {
      RegisterIsFound(f, i, pc);
    } else if i.flow.JumpRegister? {
      SwitchIsFound(f, i, pc, TablesAt(f, i, pc));
    } else {
      CallIsFound(f, i, pc);
    }
  }

  method ResolveTarget(f: Frame, i: Insn, pc: int) returns (target: Option<int>)
    ensures target == KnownTarget(f, i, pc)
  {
    var constant; ghost var pair;
    constant, pair := ResolveConstantTransfer(f.o.Code(), f.entry, pc, i.rs);
    target := if constant.Some? && InRegion(f.o, constant.value) then Some(constant.value) else None;
  }

  /** The `jal`, `jalr` and `jr` branches of the walk. */
  method VisitAddress(f: Frame, i: Insn, pc: int) returns (x: Found)
    ensures x == TheFound(f, i, pc)
  {
    x := Found({}, {}, {}, {});
    if i.flow.Call? {
      var target := i.flow.target;
      if InRegion(f.o, target) && IsValid(f.o.Code()(target)) {
        var ok := CallableTransferTarget(f.o, pc, target);
        x := x.(jals := if ok then {target} else {});
      }
    } else if i.flow.CallRegister? || i.flow.JumpRegister? {
      var target := ResolveTarget(f, i, pc);
      if target.Some? && i.flow.JumpRegister? && InFunction(f, target.value) {
        x := x.(on := {target.value});
      } else if target.Some? {
        var ok := CallableTransferTarget(f.o, pc, target.value);
        x := x.(indirect := if ok then {target.value} else {});
      } else if i.flow.JumpRegister? {
        var tables := FindJumpTableTargets(f.o.Code(), f.entry, f.hardCap, f.Range().0, f.Range().1, pc, i.rs);
        x := x.(on := tables, tables := tables);
      }
    }
  }

  // ---- The walk --------------------------------------------------------------

  /** A branch out of the function to a later address of the region. */
  function ForwardOf(f: Frame, i: Insn): set<int> {
    if BranchTo(i).Some? && !InFunction(f, BranchTo(i).value) && InRegion(f.o, BranchTo(i).value)
       && BranchTo(i).value >= f.hardCap
    then {BranchTo(i).value} else {}
  }

  function Pushed(inside: Within, i: Insn, pc: int, on: set<int>): seq<int> {
    DirectNext(inside, i, pc) + Sorted(set b | b in on && inside(b))
  }

  /** `branch_targets` gains every successor but the next instruction in line. */
  function Recorded(inside: Within, i: Insn, pc: int, on: set<int>): set<int> {
    (if i.flow.Normal? then {} else set b | b in DirectNext(inside, i, pc)) + on
  }

  /** The delay slot, when it is inside the function. */
  function WalkSlot(inside: Within, i: Insn, pc: int): set<int> {
    if inside(pc + 4) then DelaySlot(i, pc) else {}
  }

  function Marked(f: Frame, w: Walk, i: Insn, pc: int, x: Found): Walk {
    var inside := WithinFunction(f);
    Walk(w.visited + {pc} + WalkSlot(inside, i, pc), w.directJals + x.jals, w.indirect + x.indirect,
         w.branches + Recorded(inside, i, pc, x.on), w.tables + x.tables, w.forwards + ForwardOf(f, i))
  }

  predicate Expands(f: Frame, w: Walk, pc: int) { pc !in w.visited && InFunction(f, pc) && f.o.Code()(pc).Some? }

  function Window(f: Frame): set<int> {
    set a | f.entry <= a < f.hardCap && InFunction(f, a)
  }

  /** What is left of the window. */
  function Unvisited(f: Frame, w: Walk): nat { |Window(f) - w.visited| }

  lemma WindowShrinks(f: Frame, w: Walk, i: Insn, pc: int, x: Found)
    requires Expands(f, w, pc)
    ensures Unvisited(f, Marked(f, w, i, pc, x)) < Unvisited(f, w)
  {
    var visited := Marked(f, w, i, pc, x).visited;
    assert pc in visited && w.visited <= visited;
    assert pc in Window(f) - w.visited;
    SubsetSize((Window(f) - visited) + {pc}, Window(f) - w.visited);
  }

  /** Where the walk ends. */
  ghost function WalkEnd(f: Frame, w: Walk, work: seq<int>): Walk
    decreases Unvisited(f, w), |work|
  {
    if work == [] then w
    else if !Expands(f, w, work[0]) then WalkEnd(f, w, work[1..])
    else
      var pc := work[0];
      var i := f.o.Code()(pc).value;
      var x := TheFound(f, i, pc);
      WindowShrinks(f, w, i, pc, x);
      WalkEnd(f, Marked(f, w, i, pc, x), work[1..] + Pushed(WithinFunction(f), i, pc, x.on))
  }

  ghost function WalkOf(f: Frame): Walk { WalkEnd(f, NOTHING_WALKED, [f.entry]) }

  /** _walk_overlay_function: ends, for the unvisited addresses of the window and then the worklist shrink. */
  method WalkOverlayFunction(o: Overlay, entry: int, hardCap: int) returns (w: Walk)
    ensures w == WalkOf(Frame(o, entry, hardCap))
  {
    var f, p := Frame(o, entry, hardCap), o.Code();
    var work := [entry];
    w := NOTHING_WALKED;
    while work != []
      invariant WalkEnd(f, w, work) == WalkOf(f)
      decreases Unvisited(f, w), |work|
    {
      var pc := work[0];
      work := work[1..];
      if Expands(f, w, pc) {
        var i := p(pc).value;
        var x := VisitAddress(f, i, pc);
        WindowShrinks(f, w, i, pc, x);
        work := work + Pushed(WithinFunction(f), i, pc, x.on);
        w := Marked(f, w, i, pc, x);
      }
    }
  }

  // ---- What every walk is ----------------------------------------------------

  /** Some address of the set is related to `b`. */
  ghost predicate Hit(g: Graph, s: set<int>, b: int) { exists a :: a in s && g(a, b) }

  /** The set holds exactly what is related to an address of `s`. */
  ghost predicate Exactly(g: Graph, s: set<int>, found: set<int>) {
    forall b :: b in found <==> Hit(g, s, b)
  }

  lemma ExactlyGrows(g: Graph, s: set<int>, found: set<int>, a: int, more: set<int>)
    requires Exactly(g, s, found) && forall b :: b in more <==> g(a, b)
    ensures Exactly(g, s + {a}, found + more)
  {
    forall b ensures b in found + more <==> Hit(g, s + {a}, b) {
      if b in found {
        var c :| c in s && g(c, b);
        assert c in s + {a};
      }
      if b in more { assert a in s + {a}; }
    }
  }

  /** Calls, branches, switch cases and branches out are recorded exactly when an expanded instruction has them. */
  ghost predicate Evidenced(f: Frame, w: Walk, expanded: set<int>) {
    && Exactly(CallGraph(f), expanded, w.directJals) && Exactly(RegisterCallGraph(f), expanded, w.indirect)
    && Exactly(SwitchGraph(f), expanded, w.tables) && Exactly(ForwardGraph(f), expanded, w.forwards)
    && Exactly(BranchGraph(f), expanded, w.branches)
  }

  lemma RecordedIsBranch(f: Frame, i: Insn, pc: int, x: Found, b: int)
    requires FoundAt(f, i, pc, x)
    ensures b in Recorded(WithinFunction(f), i, pc, x.on) <==> Branches(f, i, pc, b)
  {
    StraightIsDirect(i, pc, b);
    if !i.flow.Normal? {
      assert b in DirectNext(WithinFunction(f), i, pc) <==>
        InFunction(f, b) && (FallThrough(i, pc) == Some(b) || BranchTo(i) == Some(b));
    }
  }

  lemma MarkedEvidenced(f: Frame, w: Walk, expanded: set<int>, i: Insn, pc: int, x: Found)
    requires Evidenced(f, w, expanded) && f.o.Code()(pc) == Some(i) && FoundAt(f, i, pc, x)
    ensures Evidenced(f, Marked(f, w, i, pc, x), expanded + {pc})
  {
    forall b ensures b in Recorded(WithinFunction(f), i, pc, x.on) <==> Branches(f, i, pc, b) { RecordedIsBranch(f, i, pc, x, b); }
    ExactlyGrows(CallGraph(f), expanded, w.directJals, pc, x.jals);
    ExactlyGrows(RegisterCallGraph(f), expanded, w.indirect, pc, x.indirect);
    ExactlyGrows(SwitchGraph(f), expanded, w.tables, pc, x.tables);
    ExactlyGrows(ForwardGraph(f), expanded, w.forwards, pc, ForwardOf(f, i));
    ExactlyGrows(BranchGraph(f), expanded, w.branches, pc, Recorded(WithinFunction(f), i, pc, x.on));
  }

  /** Everything visited is inside the function. */
  ghost predicate Contained(f: Frame, w: Walk) { forall a :: a in w.visited ==> InFunction(f, a) }

  /** Every expanded address has a word. */
  ghost predicate Worded(f: Frame, expanded: set<int>) { forall a :: a in expanded ==> f.o.Code()(a).Some? }

  /** Marked and recorded addresses are reached from the entry along the walk's edges. */
  ghost predicate Sound(f: Frame, w: Walk) { AllReachable(WalkGraph(f), {f.entry}, w.visited + w.branches) }

  /** An address of the function with a word. */
  predicate Walkable(f: Frame, a: int) { InFunction(f, a) && f.o.Code()(a).Some? }

  /** Where control goes on from an address inside the function, as far as there are words. */
  ghost function WalkSuccessors(f: Frame): Successors {
    a => if f.o.Code()(a).None? then {} else
      set b | b in Window(f) && f.o.Code()(b).Some? && GoesOn(f, f.o.Code()(a).value, a, b)
  }

  function WalkSlots(f: Frame): Successors {
    a => if f.o.Code()(a).Some? && Slotted(f.o.Code()(a).value) && InFunction(f, a + 4) then {a + 4} else {}
  }

  /**
   Everything an expanded address leads to inside the function is visited, nothing is visited unreached,
   and everything an expanded address refers to is recorded. Only delay slots are visited unexpanded.
   */
  ghost predicate IsWalk(f: Frame, w: Walk, expanded: set<int>) {
    && Contained(f, w) && Worded(f, expanded) && Evidenced(f, w, expanded) && Sound(f, w)
    && Follows(WalkSuccessors(f), WalkSlots(f), w.visited, expanded, [])
    && (InFunction(f, f.entry) && f.o.Code()(f.entry).Some? ==> f.entry in expanded)
  }

  /** The loop invariant of the walk. */
  ghost predicate Walking(f: Frame, w: Walk, expanded: set<int>, work: seq<int>) {
    && Contained(f, w) && Worded(f, expanded) && Evidenced(f, w, expanded) && WalkState(WalkGraph(f), {f.entry}, w.visited + w.branches, work)
    && Follows(WalkSuccessors(f), WalkSlots(f), w.visited, expanded, work)
    && (f.entry in expanded || (w.visited == {} && work == [f.entry]) || !InFunction(f, f.entry) || f.o.Code()(f.entry).None?)
  }

  lemma NextIsWalkable(f: Frame, a: int, b: int)
    ensures b in WalkSuccessors(f)(a) <==> f.o.Code()(a).Some? && Walkable(f, b) && GoesOn(f, f.o.Code()(a).value, a, b)
  {
    assert b in Window(f) <==> InFunction(f, b);
  }

  lemma NotRequired(f: Frame, b: int)
    requires !InFunction(f, b) || f.o.Code()(b).None?
    ensures forall a :: b !in WalkSuccessors(f)(a)
  {
    forall a ensures b !in WalkSuccessors(f)(a) { NextIsWalkable(f, a, b); }
  }

  lemma PushedCovers(inside: Within, i: Insn, pc: int, on: set<int>, b: int)
    requires inside(b) && (FallThrough(i, pc) == Some(b) || BranchTo(i) == Some(b) || b in on)
    ensures b in Pushed(inside, i, pc, on)
  {
    var rest := Sorted(set c | c in on && inside(c));
    if b in on { assert b in ToSet(rest); }
  }

  lemma NextIsPushed(f: Frame, i: Insn, pc: int, b: int)
    requires InFunction(f, b) && GoesOn(f, i, pc, b)
    ensures b in Pushed(WithinFunction(f), i, pc, TheFound(f, i, pc).on)
  {
    var x := TheFound(f, i, pc);
    assert FoundAt(f, i, pc, x) by { TheFoundIsFound(f, i, pc); }
    StraightIsDirect(i, pc, b);
    PushedCovers(WithinFunction(f), i, pc, x.on, b);
  }

  /** The walk queues all that the instruction leads to, and marks its delay slot. */
  lemma PushedIsNext(f: Frame, i: Insn, pc: int)
    requires f.o.Code()(pc) == Some(i)
    ensures forall b :: b in WalkSuccessors(f)(pc) ==> b in Pushed(WithinFunction(f), i, pc, TheFound(f, i, pc).on)
    ensures WalkSlots(f)(pc) == WalkSlot(WithinFunction(f), i, pc)
  {
    SlottedIsDelay(i, pc);
    forall b | b in WalkSuccessors(f)(pc) ensures b in Pushed(WithinFunction(f), i, pc, TheFound(f, i, pc).on) {
      NextIsWalkable(f, pc, b);
      NextIsPushed(f, i, pc, b);
    }
  }

  lemma Skips(f: Frame, w: Walk, expanded: set<int>, work: seq<int>)
    requires Walking(f, w, expanded, work) && work != [] && !Expands(f, w, work[0])
    ensures Walking(f, w, expanded, work[1..])
  {
    if work[0] !in w.visited { NotRequired(f, work[0]); }
    FollowsDrops(WalkSuccessors(f), WalkSlots(f), w.visited, expanded, work);
    WalkDrops(WalkGraph(f), {f.entry}, w.visited + w.branches, work);
  }

  lemma PushedWithin(inside: Within, i: Insn, pc: int, on: set<int>, leads: Within)
    requires forall b :: FallThrough(i, pc) == Some(b) || b in DelaySlot(i, pc) || b in on ==> leads(b)
    requires forall b :: BranchTo(i) == Some(b) && inside(b) ==> leads(b)
    ensures forall b :: b in Pushed(inside, i, pc, on) ==> leads(b)
    ensures forall b :: b in WalkSlot(inside, i, pc) + Recorded(inside, i, pc, on) ==> leads(b)
  {
    var rest := Sorted(set b | b in on && inside(b));
    forall b | b in rest ensures leads(b) { assert b in ToSet(rest); }
  }

  lemma PushedLeads(f: Frame, i: Insn, pc: int, x: Found)
    requires FoundAt(f, i, pc, x)
    ensures forall b :: b in Pushed(WithinFunction(f), i, pc, x.on) ==> Leads(f, i, pc, b)
    ensures forall b :: b in WalkSlot(WithinFunction(f), i, pc) + Recorded(WithinFunction(f), i, pc, x.on) ==> Leads(f, i, pc, b)
  {
    PushedWithin(WithinFunction(f), i, pc, x.on, b => Leads(f, i, pc, b));
  }

  lemma MarkReaches(f: Frame, reached: set<int>, work: seq<int>, i: Insn, x: Found)
    requires work != [] && WalkState(WalkGraph(f), {f.entry}, reached, work)
    requires f.o.Code()(work[0]) == Some(i) && FoundAt(f, i, work[0], x)
    ensures var inside := WithinFunction(f);
      WalkState(WalkGraph(f), {f.entry},
                reached + {work[0]} + (WalkSlot(inside, i, work[0]) + Recorded(inside, i, work[0], x.on)),
                work[1..] + Pushed(inside, i, work[0], x.on))
  {
    var g, inside, pc := WalkGraph(f), WithinFunction(f), work[0];
    var more, marked := Pushed(inside, i, pc, x.on), WalkSlot(inside, i, pc) + Recorded(inside, i, pc, x.on);
    WalkDrops(g, {f.entry}, reached, work);
    PushedLeads(f, i, pc, x);
    forall n | 0 <= n < |more| ensures g(pc, more[n]) { assert more[n] in more; }
    WalkVisits(g, {f.entry}, reached, work[1..], pc, marked, more);
  }

  lemma MarkFollows(f: Frame, body: set<int>, expanded: set<int>, work: seq<int>, i: Insn)
    requires work != [] && Follows(WalkSuccessors(f), WalkSlots(f), body, expanded, work) && f.o.Code()(work[0]) == Some(i)
    ensures Follows(WalkSuccessors(f), WalkSlots(f), body + {work[0]} + WalkSlot(WithinFunction(f), i, work[0]),
                    expanded + {work[0]}, work[1..] + Pushed(WithinFunction(f), i, work[0], TheFound(f, i, work[0]).on))
  {
    PushedIsNext(f, i, work[0]);
    FollowsVisits(WalkSuccessors(f), WalkSlots(f), body, expanded, work,
                  Pushed(WithinFunction(f), i, work[0], TheFound(f, i, work[0]).on));
  }

  lemma MarkedReached(f: Frame, w: Walk, i: Insn, pc: int, x: Found)
    ensures var inside, y := WithinFunction(f), Marked(f, w, i, pc, x);
      && y.visited == w.visited + {pc} + WalkSlot(inside, i, pc)
      && y.visited + y.branches == w.visited + w.branches + {pc} + (WalkSlot(inside, i, pc) + Recorded(inside, i, pc, x.on))
  {
  }

  lemma Marks(f: Frame, w: Walk, expanded: set<int>, work: seq<int>, i: Insn, x: Found, y: Walk, rest: seq<int>)
    requires Walking(f, w, expanded, work) && work != [] && Expands(f, w, work[0])
    requires f.o.Code()(work[0]) == Some(i) && x == TheFound(f, i, work[0])
    requires y == Marked(f, w, i, work[0], x) && rest == work[1..] + Pushed(WithinFunction(f), i, work[0], x.on)
    ensures Walking(f, y, expanded + {work[0]}, rest)
  {
    var g, pc := WalkGraph(f), work[0];
    assert FoundAt(f, i, pc, x) by { TheFoundIsFound(f, i, pc); }
    MarkedReached(f, w, i, pc, x);
    assert Contained(f, y);
    assert Evidenced(f, y, expanded + {pc}) by {
      MarkedEvidenced(f, w, expanded, i, pc, x);
    }
    assert WalkState(g, {f.entry}, y.visited + y.branches, rest) by {
      MarkReaches(f, w.visited + w.branches, work, i, x);
    }
    assert Follows(WalkSuccessors(f), WalkSlots(f), y.visited, expanded + {pc}, rest) by {
      MarkFollows(f, w.visited, expanded, work, i);
    }
  }

  lemma {:induction false} WalkingEnds(f: Frame, w: Walk, expanded: set<int>, work: seq<int>) returns (last: set<int>)
    requires Walking(f, w, expanded, work)
    ensures Walking(f, WalkEnd(f, w, work), last, [])
    decreases Unvisited(f, w), |work|
  {
    if work == [] {
      return expanded;
    } else if !Expands(f, w, work[0]) {
      Skips(f, w, expanded, work);
      last := WalkingEnds(f, w, expanded, work[1..]);
    } else {
      var pc, i := work[0], f.o.Code()(work[0]).value;
      var x := TheFound(f, i, pc);
      var y, rest := Marked(f, w, i, pc, x), work[1..] + Pushed(WithinFunction(f), i, pc, x.on);
      Marks(f, w, expanded, work, i, x, y, rest);
      WindowShrinks(f, w, i, pc, x);
      last := WalkingEnds(f, y, expanded + {pc}, rest);
    }
  }

  lemma Begins(f: Frame)
    ensures Walking(f, NOTHING_WALKED, {}, [f.entry])
  {
    Starts(WalkGraph(f), {f.entry});
  }

  /** The walk is sound, contained, closed over what it expands, and records exactly what it expands. */
  lemma WalkIsExact(f: Frame) returns (expanded: set<int>)
    ensures IsWalk(f, WalkOf(f), expanded)
  {
    Begins(f);
    expanded := WalkingEnds(f, NOTHING_WALKED, {}, [f.entry]);
    if f.entry in expanded {
      assert Expanded(WalkSuccessors(f), WalkSlots(f), WalkOf(f).visited, [], f.entry);
    }
  }

  // ---- The walk and the machine -------------------------------------------------

  ghost predicate ClosedAt(f: Frame, visited: set<int>, a: int, i: Insn) {
    (forall b :: Walkable(f, b) && GoesOn(f, i, a, b) ==> b in visited) && (Slotted(i) && InFunction(f, a + 4) ==> a + 4 in visited)
  }

  predicate SlotOf(f: Frame, expanded: set<int>, a: int) {
    a - 4 in expanded && f.o.Code()(a - 4).Some? && Slotted(f.o.Code()(a - 4).value)
  }

  /** What the instruction kinds of the expanded addresses lead to is visited, and the rest are delay slots. */
  ghost predicate Closed(f: Frame, visited: set<int>, expanded: set<int>) {
    && (forall a :: a in expanded ==> a in visited && f.o.Code()(a).Some? && ClosedAt(f, visited, a, f.o.Code()(a).value))
    && (forall a :: a in visited ==> a in expanded || SlotOf(f, expanded, a))
  }

  lemma ExpandedCloses(f: Frame, visited: set<int>, expanded: set<int>, a: int)
    requires Follows(WalkSuccessors(f), WalkSlots(f), visited, expanded, []) && a in expanded && f.o.Code()(a).Some?
    ensures a in visited && ClosedAt(f, visited, a, f.o.Code()(a).value)
  {
    assert Reachability.Expanded(WalkSuccessors(f), WalkSlots(f), visited, [], a);
    forall b | Walkable(f, b) && GoesOn(f, f.o.Code()(a).value, a, b) ensures b in visited {
      NextIsWalkable(f, a, b);
    }
    if Slotted(f.o.Code()(a).value) && InFunction(f, a + 4) { assert a + 4 in WalkSlots(f)(a); }
  }

  /** The walk is closed under the kinds of its instructions. */
  lemma WalkIsClosed(f: Frame) returns (expanded: set<int>)
    ensures Closed(f, WalkOf(f).visited, expanded) && (Walkable(f, f.entry) ==> f.entry in expanded)
  {
    expanded := WalkIsExact(f);
    WalkCloses(f, WalkOf(f).visited, expanded);
  }

  lemma WalkCloses(f: Frame, visited: set<int>, expanded: set<int>)
    requires Worded(f, expanded) && Follows(WalkSuccessors(f), WalkSlots(f), visited, expanded, [])
    ensures Closed(f, visited, expanded)
  {
    forall a | a in expanded ensures a in visited && f.o.Code()(a).Some? && ClosedAt(f, visited, a, f.o.Code()(a).value) {
      ExpandedCloses(f, visited, expanded, a);
    }
    forall a | a in visited ensures a in expanded || SlotOf(f, expanded, a) {
      assert a in expanded || InSlot(WalkSlots(f), expanded, a);
    }
  }

  /** Control goes on from one address of the function to another, without a look at delay slots. */
  ghost function FlowGraph(f: Frame): Graph {
    (a: int, b: int) => Walkable(f, a) && Walkable(f, b) && GoesOn(f, f.o.Code()(a).value, a, b)
  }

  /** No edge from an expanded address leads into a delay slot. */
  ghost predicate SlotsApart(f: Frame, expanded: set<int>) {
    forall a, b :: a in expanded && FlowGraph(f)(a, b) ==> !SlotOf(f, expanded, b)
  }

  lemma ExpandsOn(f: Frame, visited: set<int>, expanded: set<int>, a: int, b: int)
    requires Closed(f, visited, expanded) && SlotsApart(f, expanded) && a in expanded && FlowGraph(f)(a, b)
    ensures b in expanded
  {
    assert ClosedAt(f, visited, a, f.o.Code()(a).value);
  }

  /** When no edge leads into a delay slot, the walk visits all that control reaches from the entry. */
  lemma WalkIsComplete(f: Frame) returns (expanded: set<int>)
    ensures Closed(f, WalkOf(f).visited, expanded)
    ensures Walkable(f, f.entry) && SlotsApart(f, expanded) ==>
      forall b :: Reachable(FlowGraph(f), {f.entry}, b) ==> b in WalkOf(f).visited
  {
    expanded := WalkIsClosed(f);
    var g, visited := FlowGraph(f), WalkOf(f).visited;
    if Walkable(f, f.entry) && SlotsApart(f, expanded) {
      forall a, b | a in expanded && g(a, b) ensures b in expanded { ExpandsOn(f, visited, expanded, a, b); }
      forall b | Reachable(g, {f.entry}, b) ensures b in visited {
        var path :| Connects(g, {f.entry}, b, path);
        ClosedHolds(g, {f.entry}, expanded, path);
      }
    }
  }

  /** The callee may be called from the walked function without a look at its code. */
  predicate FreelyCalled(f: Frame, b: int) {
    var own, to := ProducerIn(f.o.producers, f.entry), ProducerIn(f.o.producers, b);
    && !DensePointerTable(f.o, b)
    && (f.o.producers == [] || (to.Some? && (to == own || (f.o.crossCalls && CallableLegacySeed(f.o, b)))))
  }

  /** The instruction is a `jal` to the valid word at `b`, or a `jalr` or a `jr` out of the function to the constant `b`. */
  ghost predicate CallsTo(f: Frame, i: Insn, a: int, b: int) {
    || (i.flow == Call(b) && InRegion(f.o, b) && IsValid(f.o.Code()(b)))
    || ((i.flow.CallRegister? || (i.flow.JumpRegister? && !InFunction(f, b))) && KnownTarget(f, i, a) == Some(b))
  }

  /** No such call is missed, in no walk. */
  lemma CallsAreFound(f: Frame) returns (expanded: set<int>)
    ensures Closed(f, WalkOf(f).visited, expanded)
    ensures forall a, b :: a in expanded && FreelyCalled(f, b) && CallsTo(f, f.o.Code()(a).value, a, b) ==>
      b in if f.o.Code()(a).value.flow.Call? then WalkOf(f).directJals else WalkOf(f).indirect
  {
    expanded := WalkIsExact(f);
    var w := WalkOf(f);
    WalkCloses(f, w.visited, expanded);
    forall a, b | a in expanded && FreelyCalled(f, b) && CallsTo(f, f.o.Code()(a).value, a, b)
      ensures b in if f.o.Code()(a).value.flow.Call? then w.directJals else w.indirect
    {
      CallIsFoundAt(f, w, expanded, a, b);
    }
  }

  lemma CallIsFoundAt(f: Frame, w: Walk, expanded: set<int>, a: int, b: int)
    requires IsWalk(f, w, expanded) && a in expanded && FreelyCalled(f, b) && CallsTo(f, f.o.Code()(a).value, a, b)
    ensures b in if f.o.Code()(a).value.flow.Call? then w.directJals else w.indirect
  {
    var i := f.o.Code()(a).value;
    assert a in w.visited && InFunction(f, a) by { assert Reachability.Expanded(WalkSuccessors(f), WalkSlots(f), w.visited, [], a); }
    if i.flow.Call? {
      assert CallGraph(f)(a, b);
    } else {
      assert RegisterCallGraph(f)(a, b);
    }
  }

  // ---- Calls across producers --------------------------------------------------

  /** A body of valid words around the address that does not leave the given range in sequence or by a branch, and returns. */
  ghost predicate BodyWithin(o: Overlay, a: int, range: (int, int)) {
    exists body, expanded, cap :: cap <= range.1 && Sealed(o.Code(), a, cap, body, expanded)
  }

  /** What the target of a call has to show for itself. */
  ghost predicate CallJustified(f: Frame, b: int) {
    var own, to := ProducerIn(f.o.producers, f.entry), ProducerIn(f.o.producers, b);
    && !DensePointerTable(f.o, b)
    && (f.o.producers != [] ==>
         to.Some? && (to != own ==> f.o.crossCalls && (CallableLegacySeed(f.o, b) || BodyWithin(f.o, b, to.value))))
  }

  lemma CallableIsJustified(f: Frame, a: int, b: int)
    requires Callable(f.o, a, b) && InFunction(f, a)
    ensures CallJustified(f, b)
  {
    var to := ProducerIn(f.o.producers, b);
    if f.o.producers != [] && to != ProducerIn(f.o.producers, f.entry) && !CallableDirectJal(f.o, b) {
      PlausibleIsSealed(f.o, b, to.value.1);
      assert ProbeCap(f.o, b, to.value.1) <= to.value.1;
    }
  }

  /**
   Every call a walk finds, direct or by a register, has a callee that is no pointer table; and one in another
   producer than the walked function's is found only where calls may cross, at a boundary or with a body that stays
   within its producer.
   */
  lemma CallsAreJustified(f: Frame, b: int)
    requires b in WalkOf(f).directJals + WalkOf(f).indirect
    ensures CallJustified(f, b)
  {
    var expanded := WalkIsExact(f);
    if b in WalkOf(f).directJals {
      var a :| a in expanded && CallGraph(f)(a, b);
      CallableIsJustified(f, a, b);
    } else {
      var a :| a in expanded && RegisterCallGraph(f)(a, b);
      CallableIsJustified(f, a, b);
    }
  }
}
