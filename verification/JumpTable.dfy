/** _find_jump_table_targets: the bounded switch recogniser. */
module JumpTable {
  import opened Prelude
  import opened Mips
  import opened Machine
  import opened Reachability
  import opened Sorting

  /** The matched instructions before the `jr`, with their registers and immediates. */
  datatype Suffix = Suffix(jr: int, lw: int, reg: Reg, address: Reg, offset: int, scaled: Reg, index: Reg,
                           table: Reg, guard: Reg, count: nat, reject: int)
  {
    function Addu(): int { lw - 4 }
    function Sll(): int { lw - 8 }
    function Nop(): int { lw - 12 }
    function Beq(): int { lw - 16 }
    function Sltiu(): int { lw - 20 }
  }

  predicate IsJr(i: Option<Insn>, reg: int) {
    i.Some? && i.value.op == 0 && i.value.fn == 8 && i.value.rs == reg && i.value.rt == 0 && i.value.rd == 0 && i.value.sa == 0
  }

  /** At most one scheduling NOP between the load and the `jr`. */
  function LoadPc(p: Program, jr: int): int { if IsNop(p(jr - 4)) then jr - 8 else jr - 4 }

  function OtherInput(addu: Insn, scaled: Reg): Reg { if addu.rs == scaled then addu.rt else addu.rs }

  predicate LoadFits(l: Option<Insn>, reg: int) { l.Some? && IsLw(l.value) && l.value.rt == reg && l.value.rs != 0 }

  predicate AddFits(a: Option<Insn>, address: int) {
    a.Some? && IsAddu(a.value) && a.value.sa == 0 && a.value.rd == address
  }

  predicate ShiftFits(h: Option<Insn>, a: Insn) {
    && h.Some? && IsSll(h.value) && h.value.rs == 0 && h.value.sa == 2 && h.value.rd != 0 && h.value.rt != 0
    && (h.value.rd == a.rs || h.value.rd == a.rt)
    && OtherInput(a, h.value.rd) != 0 && OtherInput(a, h.value.rd) != h.value.rd
  }

  predicate BoundFits(g: Option<Insn>, index: int) {
    g.Some? && IsSltiu(g.value) && g.value.rs == index && g.value.rt != 0 && 1 <= g.value.imm < 512
  }

  predicate BranchFits(b: Option<Insn>, guard: Reg) {
    && b.Some? && IsBeq(b.value)
    && ((b.value.rs == 0 && b.value.rt == guard) || (b.value.rs == guard && b.value.rt == 0))
  }

  /** The straight-line suffix of the `jr`. */
  function MatchSuffix(p: Program, entry: int, hardCap: int, jr: int, reg: int): Option<Suffix> {
    var lw := LoadPc(p, jr);
    var l, a, h, b, g := p(lw), p(lw - 4), p(lw - 8), p(lw - 16), p(lw - 20);
    if !(entry <= jr < hardCap && 0 < reg < 32 && IsJr(p(jr), reg)) then None
    else if !LoadFits(l, reg) || !AddFits(a, l.value.rs) || !ShiftFits(h, a.value) || !IsNop(p(lw - 12)) then None
    else if !BoundFits(g, h.value.rt) || !BranchFits(b, g.value.rt) then None
    else
      var reject := b.value.flow.target;
      if !(entry <= reject < hardCap) || lw - 8 <= reject < jr + 8 then None
      else Some(Suffix(jr, lw, reg, l.value.rs, Signed(l.value), h.value.rd, h.value.rt,
                       OtherInput(a.value, h.value.rd), g.value.rt, g.value.imm, reject))
  }

  /** `nearest_writer`, from `pc` downwards. */
  function NearestWriter(p: Program, reg: int, pc: int, floor: int): Option<int>
    decreases pc - floor
  {
    if pc < floor || p(pc).None? then None
    else if WritesGpr(p(pc).value, reg) then Some(pc)
    else NearestWriter(p, reg, pc - 4, floor)
  }

  function WriterBefore(p: Program, entry: int, reg: int, before: int): Option<int> {
    NearestWriter(p, reg, before - 4, Max(entry, before - 0x80))
  }

  /** The `lui` at `constant`, the last definition of the table register at `define`, and the value it leaves. */
  datatype Constant = Constant(constant: int, define: int, up: Reg, upper: Word, value: Word)

  predicate PlainLui(i: Insn, reg: int) { IsLui(i) && i.rs == 0 && i.rt == reg }

  function TableConstant(p: Program, entry: int, table: Reg, addu: int): Option<Constant> {
    var define := WriterBefore(p, entry, table, addu);
    if define.None? || p(define.value).None? then None
    else
      var i := p(define.value).value;
      if PlainLui(i, table) then Some(Constant(define.value, define.value, table, i.imm * 0x1_0000, i.imm * 0x1_0000))
      else if !(IsAddiu(i) && i.rt == table && i.rs != 0) then None
      else
        var upper := WriterBefore(p, entry, i.rs, define.value);
        if upper.None? || p(upper.value).None? || !PlainLui(p(upper.value).value, i.rs) then None
        else
          var high := p(upper.value).value.imm * 0x1_0000;
          Some(Constant(upper.value, define.value, i.rs, high, Wrap(high + Signed(i))))
  }

  /** No transfer between the constant and the suffix but the bounds branch, and none just before the constant. */
  predicate Straight(p: Program, entry: int, s: Suffix, c: Constant) {
    && (forall pc :: c.constant < pc < s.Sll() && IsSource(c.constant + 4, pc, s.Sll()) ==>
         p(pc).Some? && (Transfers(p(pc)) ==> pc == s.Beq()))
    && !(c.constant >= entry + 4 && Transfers(p(c.constant - 4)))
  }

  function Base(s: Suffix, c: Constant): Word { Wrap((c.value as int) + s.offset) }

  function TableWord(p: Program, s: Suffix, c: Constant, k: nat): Option<Insn> { p(Base(s, c) + 4 * k) }

  /** One table entry: an aligned address inside the function and the producer, holding a valid word. */
  predicate EntryFits(p: Program, entry: int, hardCap: int, lo: int, hi: int, i: Option<Insn>) {
    && i.Some? && i.value.word % 4 == 0 && entry <= i.value.word < hardCap && lo <= i.value.word < hi
    && p(i.value.word).Some? && p(i.value.word).value.valid
  }

  predicate TableFits(p: Program, entry: int, hardCap: int, lo: int, hi: int, s: Suffix, c: Constant) {
    && Base(s, c) % 4 == 0 && lo <= Base(s, c) && Base(s, c) + 4 * s.count <= hi
    && forall k: nat :: k < s.count ==> EntryFits(p, entry, hardCap, lo, hi, TableWord(p, s, c, k))
  }

  /** Everything but the inbound edges. */
  function Recognise(p: Program, entry: int, hardCap: int, lo: int, hi: int, jr: int, reg: int): Option<(Suffix, Constant)> {
    var s := MatchSuffix(p, entry, hardCap, jr, reg);
    if s.None? then None
    else
      var c := TableConstant(p, entry, s.value.table, s.value.Addu());
      if c.None? || !Straight(p, entry, s.value, c.value) then None
      else if !TableFits(p, entry, hardCap, lo, hi, s.value, c.value) then None
      else Some((s.value, c.value))
  }

  /** The addresses in the table. */
  function TargetsOf(p: Program, s: Suffix, c: Constant): set<int> {
    set k: nat | k < s.count && TableWord(p, s, c, k).Some? :: TableWord(p, s, c, k).value.word
  }

  // ---- What the table itself reaches ---------------------------------------

  const CASE_LIMIT := 2048

  /** Where the walk from the cases goes on after an instruction. */
  function CaseSuccessors(i: Insn, pc: int): seq<int> {
    match i.flow
    case Normal => [pc + 4]
    case Branch(t) => [pc + 8, t]
    case BranchNever => [pc + 8]
    case BranchNeverLikely => [pc + 8]
    case Jump(t) => [t]
    case Call(_) => [pc + 8]
    case CallRegister => [pc + 8]
    case JumpRegister => []
    case Return => []
  }

  /** The delay slot that is reached with a transfer. */
  function DelaySlot(i: Insn, pc: int): set<int> {
    if i.flow.Normal? || i.flow.BranchNeverLikely? then {} else {pc + 4}
  }

  function CaseGraph(p: Program): Graph {
    (a: int, b: int) => p(a).Some? && (b in CaseSuccessors(p(a).value, a) || b in DelaySlot(p(a).value, a))
  }

  /** What one visit marks. */
  function Mark(p: Program, reached: set<int>, pc: int): set<int>
    requires p(pc).Some?
  {
    reached + {pc} + DelaySlot(p(pc).value, pc)
  }

  lemma MarksMore(p: Program, reached: set<int>, pc: int)
    requires p(pc).Some? && pc !in reached
    ensures |Mark(p, reached, pc)| > |reached|
  {
    SubsetSize(reached + {pc}, Mark(p, reached, pc));
  }

  /** The window of the walk from the cases: the function, inside its region. */
  datatype CaseWindow = CaseWindow(entry: int, hardCap: int, lo: int, hi: int) {
    predicate Visits(p: Program, reached: set<int>, pc: int) {
      pc !in reached && entry <= pc < hardCap && lo <= pc < hi && p(pc).Some? && p(pc).value.valid
    }
  }

  /** What a worklist of cases reaches before the walk stops. */
  function CasesFrom(p: Program, w: CaseWindow, reached: set<int>, work: seq<int>): set<int>
    decreases CASE_LIMIT - |reached|, |work|
  {
    if work == [] || |reached| >= CASE_LIMIT then reached
    else if !w.Visits(p, reached, work[0]) then CasesFrom(p, w, reached, work[1..])
    else
      MarksMore(p, reached, work[0]);
      CasesFrom(p, w, Mark(p, reached, work[0]), work[1..] + CaseSuccessors(p(work[0]).value, work[0]))
  }

  /** Everything the walk marks is reachable from the table's targets. */
  lemma {:induction false} CasesReachable(p: Program, w: CaseWindow, from: set<int>, reached: set<int>, work: seq<int>)
    requires WalkState(CaseGraph(p), from, reached, work)
    ensures AllReachable(CaseGraph(p), from, CasesFrom(p, w, reached, work))
    decreases CASE_LIMIT - |reached|, |work|
  {
    if work != [] && |reached| < CASE_LIMIT {
      var g, pc := CaseGraph(p), work[0];
      WalkDrops(g, from, reached, work);
      if !w.Visits(p, reached, pc) {
        CasesReachable(p, w, from, reached, work[1..]);
      } else {
        var more := CaseSuccessors(p(pc).value, pc);
        MarksMore(p, reached, pc);
        WalkVisits(g, from, reached, work[1..], pc, DelaySlot(p(pc).value, pc), more);
        CasesReachable(p, w, from, Mark(p, reached, pc), work[1..] + more);
      }
    }
  }

  function CasesOf(p: Program, w: CaseWindow, targets: set<int>): set<int> { CasesFrom(p, w, {}, Sorted(targets)) }

  lemma CasesAreReachable(p: Program, w: CaseWindow, targets: set<int>)
    ensures AllReachable(CaseGraph(p), targets, CasesOf(p, w, targets))
  {
    var work := Sorted(targets);
    forall i | 0 <= i < |work| ensures work[i] in targets { assert work[i] in ToSet(work); }
    WalkStarts(CaseGraph(p), targets, work);
    CasesReachable(p, w, targets, {}, work);
  }

  /** The worklist of `case_reachable`. */
  method CaseReachable(p: Program, w: CaseWindow, targets: set<int>) returns (reached: set<int>)
    ensures reached == CasesOf(p, w, targets)
  {
    reached := {};
    var work := Sorted(targets);
    while work != [] && |reached| < CASE_LIMIT
      invariant CasesFrom(p, w, reached, work) == CasesOf(p, w, targets)
      decreases CASE_LIMIT - |reached|, |work|
    {
      var pc := work[0];
      work := work[1..];
      if w.Visits(p, reached, pc) {
        MarksMore(p, reached, pc);
        work := work + CaseSuccessors(p(pc).value, pc);
        reached := Mark(p, reached, pc);
      }
    }
  }

  // ---- Inbound edges -------------------------------------------------------

  /** A direct edge into the protected suffix from neither the suffix nor a case. */
  predicate StrayAt(p: Program, s: Suffix, c: Constant, reached: set<int>, source: int) {
    || p(source).None?
    || (Lands(EdgesOf(p), source, c.constant, s.jr) && !(c.constant <= source <= s.jr) && source !in reached)
  }

  ghost predicate NoStray(p: Program, entry: int, hardCap: int, s: Suffix, c: Constant, reached: set<int>) {
    forall source :: IsSource(entry, source, hardCap) ==> !StrayAt(p, s, c, reached, source)
  }

  method HasNoStray(p: Program, entry: int, hardCap: int, s: Suffix, c: Constant, reached: set<int>) returns (ok: bool)
    ensures ok == NoStray(p, entry, hardCap, s, c, reached)
  {
    var source := entry;
    while source < hardCap
      invariant source >= entry && (source - entry) % 4 == 0
      invariant forall x :: IsSource(entry, x, hardCap) && x < source ==> !StrayAt(p, s, c, reached, x)
    {
      if StrayAt(p, s, c, reached, source) {
        assert IsSource(entry, source, hardCap);
        return false;
      }
      NextSource(entry, source, hardCap);
      source := source + 4;
    }
    return true;
  }

  /** The addresses in the table when every check holds, and otherwise nothing. */
  ghost function JumpTargets(p: Program, entry: int, hardCap: int, lo: int, hi: int, jr: int, reg: int): set<int> {
    match Recognise(p, entry, hardCap, lo, hi, jr, reg)
    case None => {}
    case Some((s, c)) =>
      var reached := CasesOf(p, CaseWindow(entry, hardCap, lo, hi), TargetsOf(p, s, c));
      if NoStray(p, entry, hardCap, s, c, reached) then TargetsOf(p, s, c) else {}
  }

  /** _find_jump_table_targets */
  method FindJumpTableTargets(p: Program, entry: int, hardCap: int, lo: int, hi: int, jr: int, reg: int)
    returns (targets: set<int>)
    ensures targets == JumpTargets(p, entry, hardCap, lo, hi, jr, reg)
  {
    targets := {};
    var found := Recognise(p, entry, hardCap, lo, hi, jr, reg);
    if found.Some? {
      var (s, c) := found.value;
      var cases := CaseReachable(p, CaseWindow(entry, hardCap, lo, hi), TargetsOf(p, s, c));
      var ok := HasNoStray(p, entry, hardCap, s, c, cases);
      targets := if ok then TargetsOf(p, s, c) else {};
    }
  }

  /** Every target comes from a recognised table whose inbound edges are the suffix's own or a case's. */
  lemma TargetsAreChecked(p: Program, entry: int, hardCap: int, lo: int, hi: int, jr: int, reg: int, t: int)
    requires t in JumpTargets(p, entry, hardCap, lo, hi, jr, reg)
    ensures Recognise(p, entry, hardCap, lo, hi, jr, reg).Some?
    ensures var (s, c) := Recognise(p, entry, hardCap, lo, hi, jr, reg).value;
            && t in TargetsOf(p, s, c)
            && exists reached :: AllReachable(CaseGraph(p), TargetsOf(p, s, c), reached) && NoStray(p, entry, hardCap, s, c, reached)
  {
    var (s, c) := Recognise(p, entry, hardCap, lo, hi, jr, reg).value;
    CasesAreReachable(p, CaseWindow(entry, hardCap, lo, hi), TargetsOf(p, s, c));
  }
}
