/**
 A case that jumps back to the bounds check: exactly when the dispatch stays in the table, for a straight block of
 words that step the table register or have none of the exact semantics.
 */
module JumpTableCases {
  import opened Prelude
  import opened BitWords
  import opened Mips
  import opened Machine
  import opened JumpTable
  import opened JumpTableSoundness
  import opened JumpTableExactness
  import opened JumpTableRepeats
  import opened RegisterSums

  /** The block of the case `k`, from its first word to its `j`, and where in the suffix that jump lands. */
  datatype Loop = Loop(k: nat, from: int, back: int, land: int)

  predicate InLoop(s: Suffix, l: Loop, a: int) { l.land <= a <= s.jr + 4 || l.from <= a <= l.back + 4 }

  /** Words in sequence whose effect the model leaves open. */
  ghost predicate Plain(p: Program, from: int, to: int) { forall a :: IsSource(from, a, to) ==> PlainAt(p, a) }

  predicate PlainAt(p: Program, a: int) { p(a).Some? && p(a).value.flow.Normal? && Open(p(a).value) }

  /** Words in sequence that are open or `addiu table, table, imm`. */
  ghost predicate Stepping(p: Program, s: Suffix, from: int, upTo: int) {
    forall a :: IsSource(from, a, upTo) ==> SteppingAt(p, s, a)
  }

  predicate SteppingAt(p: Program, s: Suffix, a: int) {
    p(a).Some? && p(a).value.flow.Normal? && (Open(p(a).value) || AddsTo(p(a).value, s.table))
  }

  predicate Placed(s: Suffix, c: Constant, l: Loop) {
    && l.from % 4 == 0 && l.back % 4 == 0 && l.land % 4 == 0 && s.reject % 4 == 0 && l.from <= l.back
    && (l.back + 4 < l.land || s.jr + 4 < l.from) && c.define < l.land <= s.Sltiu()
    && (InLoop(s, l, s.reject) ==> l.land <= s.reject <= s.Sltiu())
  }

  /** The dispatch leaves the table register alone, and the registers are told apart. */
  predicate Apart(s: Suffix) {
    s.guard != s.index && s.index != s.table && s.address != s.table && s.reg != s.table
  }

  /** The case jumps back to the check, the other cases and the rejected edge go elsewhere or to the check. */
  ghost predicate CaseLoops(p: Program, s: Suffix, c: Constant, l: Loop) {
    && l.k < s.count && l.from == Entry(p, s, c, l.k) && Placed(s, c, l) && Apart(s)
    && Stepping(p, s, l.from, l.back) && Plain(p, l.land, s.Sltiu())
    && p(l.back).Some? && p(l.back).value.flow == Jump(l.land) && p(l.back).value.op == 2
    && IsNop(p(l.back + 4)) && IsNop(p(s.jr + 4))
    && forall k: nat :: k < s.count ==> Entry(p, s, c, k) == l.from || !InLoop(s, l, Entry(p, s, c, k))
  }

  /** An execution of the check, the dispatch and the block, around and around, up to the dispatch. */
  ghost predicate LoopRun(p: Program, s: Suffix, c: Constant, l: Loop, run: seq<Cpu>) {
    && run != [] && IsRun(p, run) && IsCpu(run[0]) && TableKept(p, s, c, run)
    && run[0].pc == s.Sltiu() && run[0].npc == s.Beq() && run[0].regs[s.table] == c.value
    && run[|run|-1].pc == s.jr && forall i :: 0 <= i < |run| ==> InLoop(s, l, run[i].pc)
  }

  ghost predicate LoopSound(p: Program, s: Suffix, c: Constant, l: Loop) {
    forall run :: LoopRun(p, s, c, l, run) ==> JumpTableExactness.Lands(p, s, c, run[|run|-1])
  }

  ghost predicate BlockLeaves(p: Program, l: Loop, reg: int) { LeavesAll(p, l.from, l.back, reg) }

  /** The block leaves the table's address where it was: nothing else writes it, and the steps cancel. */
  ghost predicate TableBack(p: Program, s: Suffix, l: Loop) { Restores(p, l.from, l.back, s.table) }

  /** The second check sees the index that the first one saw. */
  ghost predicate IndexLeft(p: Program, s: Suffix, l: Loop) {
    BlockLeaves(p, l, s.index) && LeavesAll(p, l.land, s.Sltiu(), s.index)
  }

  /** The index after a dispatch of the case `k`: its register may carry the scaled index, the address or the case by then. */
  function Survivor(p: Program, s: Suffix, c: Constant, k: nat): Word
    requires k < s.count < 512
  {
    if s.index == s.reg then Entry(p, s, c, k)
    else if s.index == s.address then Wrap(4 * k + c.value)
    else if s.index == s.scaled then 4 * k
    else k
  }

  predicate Rejects(p: Program, s: Suffix, c: Constant, l: Loop, k: nat)
    requires k < s.count < 512
  {
    Entry(p, s, c, k) == l.from ==> Survivor(p, s, c, k) >= s.count
  }

  /** Behind the case the check rejects whatever the dispatch has left in the index. */
  ghost predicate NeverTwice(p: Program, s: Suffix, c: Constant, l: Loop)
    requires s.count < 512
  {
    IndexLeft(p, s, l) && forall k: nat :: k < s.count ==> Rejects(p, s, c, l, k)
  }

  /**
   Steps that do not cancel show on the second pass: they misalign the table, the table is a single entry, or the loop
   may bring another index.
   */
  ghost predicate Telling(p: Program, s: Suffix, l: Loop) {
    OnlyAdds(p, l.from, l.back, s.table) ==>
      TableBack(p, s, l) || Sum(p, s.table, l.from, l.back) % 4 != 0 || s.count == 1 || !IndexLeft(p, s, l)
  }

  /** What the two proofs use of an accepted switch with such a case. */
  ghost predicate Looping(p: Program, entry: int, s: Suffix, c: Constant, l: Loop) {
    && Accepted(p, entry, s, c) && CaseLoops(p, s, c, l) && s.jr % 4 == 0 && s.lw % 4 == 0 && c.define % 4 == 0
    && s.guard != s.table && Guards(s, c) && (forall t :: t in TargetsOf(p, s, c) ==> t % 4 == 0)
  }

  // ---- When the block leaves the table register ---------------------------------------

  predicate Good(p: Program, s: Suffix, c: Constant, l: Loop, t: set<int>, u: Cpu)
    requires IsCpu(u)
  {
    && TableThere(p, s, l, u) == c.value
    && if l.land <= u.pc <= s.jr then Facts(p, s, c, t, u)
       else if u.pc == s.jr + 4 then u.npc in t
       else if l.from <= u.pc <= l.back then u.npc == u.pc + 4
       else u.pc == l.back + 4 && u.npc == l.land
  }

  /** The table register, and in the block with what is still to be added. */
  function TableThere(p: Program, s: Suffix, l: Loop, u: Cpu): Word
    requires IsCpu(u)
  {
    if l.from <= u.pc < l.back then Wrap(u.regs[s.table] + Sum(p, s.table, u.pc, l.back)) else u.regs[s.table]
  }

  lemma TableEnters(p: Program, s: Suffix, l: Loop, u: Cpu)
    requires IsCpu(u) && TableBack(p, s, l) && u.pc == l.from
    ensures TableThere(p, s, l, u) == u.regs[s.table]
  {
    WrapMoves(u.regs[s.table], Sum(p, s.table, l.from, l.back));
  }

  lemma TableSteps(p: Program, s: Suffix, l: Loop, u: Cpu, d: Cpu)
    requires TableBack(p, s, l) && l.from % 4 == 0 && l.from <= u.pc < l.back && d.pc == u.pc + 4 <= l.back && s.table != 0
    requires IsCpu(u) && IsCpu(d) && p(u.pc).Some? && Computes(p(u.pc).value, u, d)
    ensures TableThere(p, s, l, d) == TableThere(p, s, l, u)
  {
    SourceAt(l.from, u.pc, l.back);
    assert OnlyAddsAt(p, u.pc, s.table);
    SumKept(p, s.table, u.pc, l.back, u, d);
  }

  /** No word of the suffix writes the table register. */
  lemma SuffixLeaves(p: Program, s: Suffix, c: Constant, a: int)
    requires Shape(p, s) && Defined(p, s, c) && Apart(s) && s.jr % 4 == 0 && s.lw % 4 == 0 && c.define % 4 == 0 && a % 4 == 0
    requires c.define < a <= s.jr
    ensures Leaves(p, a, s.table)
  {
    if a < s.Addu() {
      NextBelow(c.define, a);
      LeftAt(p, c.define + 4, s.Addu(), s.table, a);
    }
  }

  lemma InSuffix(p: Program, entry: int, s: Suffix, c: Constant, l: Loop, u: Cpu, d: Cpu)
    requires Looping(p, entry, s, c, l) && Step(p, u, d) && l.land <= u.pc < s.jr && InLoop(s, l, d.pc)
    requires Facts(p, s, c, TargetsOf(p, s, c), u) && (u.pc == s.lw ==> Intact(p, s, c, u))
    ensures l.land <= d.pc <= s.jr && Facts(p, s, c, TargetsOf(p, s, c), d)
  {
    var t := TargetsOf(p, s, c);
    if u.pc < s.Sltiu() {
      assert d.pc == u.pc + 4 <= s.Sltiu() && d.npc == d.pc + 4 && Carries(s, c, d) by { PrefixStep(p, entry, s, c, t, u, d); }
    } else {
      assert d.pc == u.pc + 4 || (u.pc == s.Nop() && d.pc == s.reject) by { CoreNext(p, s, c, u, d); }
      NextBelow(u.pc, s.jr);
      CoreStep(p, entry, s, c, u, d);
    }
  }

  lemma SuffixGood(p: Program, entry: int, s: Suffix, c: Constant, l: Loop, u: Cpu, d: Cpu)
    requires Looping(p, entry, s, c, l) && Step(p, u, d) && l.land <= u.pc < s.jr && InLoop(s, l, d.pc)
    requires Good(p, s, c, l, TargetsOf(p, s, c), u) && (u.pc == s.lw ==> Intact(p, s, c, u))
    ensures Good(p, s, c, l, TargetsOf(p, s, c), d)
  {
    InSuffix(p, entry, s, c, l, u, d);
    assert Leaves(p, u.pc, s.table) by { SuffixLeaves(p, s, c, u.pc); }
    FrameRule(p(u.pc).value, u, d, s.table);
  }

  lemma DispatchGood(p: Program, entry: int, s: Suffix, c: Constant, l: Loop, u: Cpu, d: Cpu)
    requires Looping(p, entry, s, c, l) && Step(p, u, d) && u.pc == s.jr
    requires Good(p, s, c, l, TargetsOf(p, s, c), u)
    ensures Good(p, s, c, l, TargetsOf(p, s, c), d)
  {
    var to := u.regs[s.reg];
    assert to in TargetsOf(p, s, c) && to % 4 == 0;
    assert p(u.pc).value.flow == (if s.reg == 31 then Return else JumpRegister);
    FrameRule(p(u.pc).value, u, d, s.table);
  }

  /** The only case in the loop is the one at its beginning. */
  lemma OneCase(p: Program, s: Suffix, c: Constant, l: Loop, t: int)
    requires CaseLoops(p, s, c, l) && t in TargetsOf(p, s, c) && InLoop(s, l, t)
    ensures t == l.from
  {
    var k: nat :| k < s.count && TableWord(p, s, c, k).Some? && TableWord(p, s, c, k).value.word == t;
    assert Entry(p, s, c, k) == t;
  }

  lemma SlotGood(p: Program, entry: int, s: Suffix, c: Constant, l: Loop, u: Cpu, d: Cpu)
    requires Looping(p, entry, s, c, l) && Step(p, u, d) && u.pc == s.jr + 4 && InLoop(s, l, d.pc)
    requires !(l.from <= u.pc <= l.back + 4) && TableBack(p, s, l) && Good(p, s, c, l, TargetsOf(p, s, c), u)
    ensures Good(p, s, c, l, TargetsOf(p, s, c), d)
  {
    OneCase(p, s, c, l, u.npc);
    NopLeaves(p(u.pc).value, u, d);
    TableEnters(p, s, l, d);
  }

  lemma BlockGood(p: Program, entry: int, s: Suffix, c: Constant, l: Loop, u: Cpu, d: Cpu)
    requires Looping(p, entry, s, c, l) && TableBack(p, s, l) && Step(p, u, d) && l.from <= u.pc <= l.back + 4
    requires Good(p, s, c, l, TargetsOf(p, s, c), u)
    ensures Good(p, s, c, l, TargetsOf(p, s, c), d)
  {
    if u.pc < l.back {
      SourceAt(l.from, u.pc, l.back);
      assert SteppingAt(p, s, u.pc);
      NextBelow(u.pc, l.back);
      TableSteps(p, s, l, u, d);
    } else if u.pc == l.back {
      FrameRule(p(u.pc).value, u, d, s.table);
    } else {
      NextBelow(l.back, u.pc);
      NopLeaves(p(u.pc).value, u, d);
    }
  }

  lemma GoodStep(p: Program, entry: int, s: Suffix, c: Constant, l: Loop, u: Cpu, d: Cpu)
    requires Looping(p, entry, s, c, l) && TableBack(p, s, l) && Step(p, u, d) && InLoop(s, l, u.pc) && InLoop(s, l, d.pc)
    requires Good(p, s, c, l, TargetsOf(p, s, c), u) && (u.pc == s.lw ==> Intact(p, s, c, u))
    ensures Good(p, s, c, l, TargetsOf(p, s, c), d)
  {
    if l.from <= u.pc <= l.back + 4 {
      BlockGood(p, entry, s, c, l, u, d);
    } else if u.pc < s.jr {
      SuffixGood(p, entry, s, c, l, u, d);
    } else if u.pc == s.jr {
      DispatchGood(p, entry, s, c, l, u, d);
    } else {
      SlotGood(p, entry, s, c, l, u, d);
    }
  }

  lemma LoopStep(p: Program, s: Suffix, c: Constant, l: Loop, run: seq<Cpu>, n: nat)
    requires LoopRun(p, s, c, l, run) && 0 < n < |run|
    ensures Step(p, run[n-1], run[n]) && InLoop(s, l, run[n-1].pc) && InLoop(s, l, run[n].pc)
    ensures run[n-1].pc == s.lw ==> Intact(p, s, c, run[n-1])
  {
    assert StepAt(p, run, n - 1);
  }

  lemma {:induction false} GoodKept(p: Program, entry: int, s: Suffix, c: Constant, l: Loop, run: seq<Cpu>, n: nat)
    requires Looping(p, entry, s, c, l) && TableBack(p, s, l) && LoopRun(p, s, c, l, run) && n < |run|
    ensures IsCpu(run[n]) && Good(p, s, c, l, TargetsOf(p, s, c), run[n])
    decreases n
  {
    if n > 0 {
      GoodKept(p, entry, s, c, l, run, n - 1);
      LoopStep(p, s, c, l, run, n);
      GoodStep(p, entry, s, c, l, run[n-1], run[n]);
    }
  }

  lemma LeavingIsSound(p: Program, entry: int, s: Suffix, c: Constant, l: Loop)
    requires Looping(p, entry, s, c, l) && TableBack(p, s, l)
    ensures LoopSound(p, s, c, l)
  {
    forall run | LoopRun(p, s, c, l, run) ensures JumpTableExactness.Lands(p, s, c, run[|run|-1]) {
      GoodKept(p, entry, s, c, l, run, |run| - 1);
    }
  }

  // ---- When there is no second pass ---------------------------------------------------

  /** The first check, up to the shift. */
  predicate Early(s: Suffix, c: Constant, u: Cpu)
    requires IsCpu(u)
  {
    && u.regs[s.table] == c.value
    && if u.pc == s.Sltiu() then u.npc == s.Beq()
       else if u.pc == s.Beq() then u.npc == s.Nop() && (u.regs[s.guard] == 0 <==> u.regs[s.index] >= s.count)
       else if u.pc == s.Nop() then u.npc == if u.regs[s.index] < s.count then s.Sll() else s.reject
       else u.pc == s.Sll() && u.npc == s.Addu() && u.regs[s.index] < s.count
  }

  /** The first dispatch, of the case `k`. */
  predicate Late(p: Program, s: Suffix, c: Constant, k: nat, u: Cpu)
    requires IsCpu(u) && s.count < 512
  {
    && k < s.count
    && if u.pc == s.Addu() then
         && u.npc == s.lw && u.regs[s.table] == c.value && u.regs[s.scaled] == 4 * k
         && u.regs[s.index] == if s.index == s.scaled then 4 * k else k
       else if u.pc == s.lw then
         && u.npc == s.lw + 4 && u.regs[s.address] == Wrap(4 * k + c.value)
         && u.regs[s.index] == if s.index == s.address then Wrap(4 * k + c.value) else if s.index == s.scaled then 4 * k else k
       else
         && s.lw < u.pc <= s.jr + 4 && u.regs[s.index] == Survivor(p, s, c, k)
         && if u.pc <= s.jr then u.npc == u.pc + 4 && u.regs[s.reg] == Entry(p, s, c, k) else u.npc == Entry(p, s, c, k)
  }

  /** Behind it, with an index that is rejected. */
  predicate Stuck(s: Suffix, l: Loop, u: Cpu)
    requires IsCpu(u)
  {
    && u.regs[s.index] >= s.count
    && if l.from <= u.pc <= l.back then u.npc == u.pc + 4
       else if u.pc == l.back + 4 then u.npc == l.land
       else l.land <= u.pc <= s.Nop() && (u.pc == s.Beq() ==> u.regs[s.guard] == 0)
            && u.npc == if u.pc == s.Nop() then s.reject else u.pc + 4
  }

  lemma EarlyStep(p: Program, s: Suffix, c: Constant, l: Loop, u: Cpu, d: Cpu)
    requires Shape(p, s) && Placed(s, c, l) && Apart(s) && s.guard != s.table && s.lw % 4 == 0
    requires Step(p, u, d) && Early(s, c, u) && u.pc != s.Sll() && InLoop(s, l, d.pc)
    ensures Early(s, c, d) || Stuck(s, l, d)
  {
    FrameRule(p(u.pc).value, u, d, s.index);
    FrameRule(p(u.pc).value, u, d, s.table);
    if u.pc == s.Beq() { FrameRule(p(u.pc).value, u, d, s.guard); }
    if u.pc == s.Nop() { NopLeaves(p(u.pc).value, u, d); }
  }

  lemma ShiftLate(p: Program, s: Suffix, c: Constant, u: Cpu, d: Cpu)
    requires Shape(p, s) && s.lw % 4 == 0 && Step(p, u, d) && Early(s, c, u) && u.pc == s.Sll()
    ensures Late(p, s, c, u.regs[s.index] as nat, d)
  {
    assert Pow2(2) == 4;
    FrameRule(p(u.pc).value, u, d, s.table);
  }

  lemma LoadLate(p: Program, s: Suffix, c: Constant, k: nat, u: Cpu, d: Cpu)
    requires Shape(p, s) && s.lw % 4 == 0 && Base(s, c) % 4 == 0 && Base(s, c) + 4 * s.count <= 0x1_0000_0000
    requires Step(p, u, d) && u.pc == s.lw && Late(p, s, c, k, u) && Intact(p, s, c, u)
    ensures Late(p, s, c, k, d)
  {
    EntryAddress(s, c, k);
    EntryIsThere(p, s, c, k);
    assert IntactAt(p, s, c, u, k);
    LoadValue(p(u.pc).value, s, c, u, d);
    if s.index != s.reg { FrameRule(p(u.pc).value, u, d, s.index); }
  }

  lemma LateStep(p: Program, s: Suffix, c: Constant, k: nat, u: Cpu, d: Cpu)
    requires Shape(p, s) && s.lw % 4 == 0 && s.jr % 4 == 0 && Base(s, c) % 4 == 0 && Base(s, c) + 4 * s.count <= 0x1_0000_0000
    requires Step(p, u, d) && s.Addu() <= u.pc <= s.jr && Late(p, s, c, k, u) && (u.pc == s.lw ==> Intact(p, s, c, u))
    requires Entry(p, s, c, k) % 4 == 0
    ensures Late(p, s, c, k, d)
  {
    if u.pc == s.Addu() {
      if s.index != s.address { FrameRule(p(u.pc).value, u, d, s.index); }
    } else if u.pc == s.lw {
      LoadLate(p, s, c, k, u, d);
    } else if u.pc < s.jr {
      NopLeaves(p(u.pc).value, u, d);
    } else {
      assert p(u.pc).value.flow == (if s.reg == 31 then Return else JumpRegister);
      FrameRule(p(u.pc).value, u, d, s.index);
    }
  }

  lemma CaseIsStuck(p: Program, s: Suffix, c: Constant, l: Loop, k: nat, u: Cpu, d: Cpu)
    requires Shape(p, s) && CaseLoops(p, s, c, l) && NeverTwice(p, s, c, l) && s.lw < s.jr
    requires Step(p, u, d) && u.pc == s.jr + 4 && Late(p, s, c, k, u) && InLoop(s, l, d.pc)
    ensures Stuck(s, l, d)
  {
    assert Entry(p, s, c, k) == l.from;
    assert Rejects(p, s, c, l, k);
    NopLeaves(p(u.pc).value, u, d);
  }

  lemma BlockStuck(p: Program, s: Suffix, c: Constant, l: Loop, u: Cpu, d: Cpu)
    requires Shape(p, s) && CaseLoops(p, s, c, l) && BlockLeaves(p, l, s.index) && s.lw % 4 == 0
    requires Step(p, u, d) && Stuck(s, l, u) && l.from <= u.pc <= l.back + 4
    ensures Stuck(s, l, d)
  {
    if u.pc < l.back {
      SourceAt(l.from, u.pc, l.back);
      assert SteppingAt(p, s, u.pc);
      NextBelow(u.pc, l.back);
      FrameRule(p(u.pc).value, u, d, s.index);
    } else if u.pc == l.back {
      FrameRule(p(u.pc).value, u, d, s.index);
    } else {
      NextBelow(l.back, u.pc);
      NopLeaves(p(u.pc).value, u, d);
    }
  }

  lemma LandStuck(p: Program, s: Suffix, c: Constant, l: Loop, u: Cpu, d: Cpu)
    requires Shape(p, s) && CaseLoops(p, s, c, l) && LeavesAll(p, l.land, s.Sltiu(), s.index) && s.lw % 4 == 0
    requires Step(p, u, d) && Stuck(s, l, u) && l.land <= u.pc < s.Sltiu()
    ensures Stuck(s, l, d)
  {
    SourceAt(l.land, u.pc, s.Sltiu());
    assert PlainAt(p, u.pc);
    NextBelow(u.pc, s.Sltiu());
    FrameRule(p(u.pc).value, u, d, s.index);
  }

  lemma CheckPlaces(s: Suffix, a: int)
    requires s.lw % 4 == 0 && a % 4 == 0 && s.Sltiu() <= a <= s.Nop()
    ensures a == s.Sltiu() || a == s.Beq() || a == s.Nop()
  {
  }

  lemma CheckStuck(p: Program, s: Suffix, c: Constant, l: Loop, u: Cpu, d: Cpu)
    requires Shape(p, s) && Placed(s, c, l) && s.guard != s.index && s.lw % 4 == 0 && s.lw < s.jr
    requires Step(p, u, d) && Stuck(s, l, u) && s.Sltiu() <= u.pc <= s.Nop() && InLoop(s, l, d.pc)
    ensures Stuck(s, l, d)
  {
    CheckPlaces(s, u.pc);
    if u.pc == s.Nop() {
      NopLeaves(p(u.pc).value, u, d);
    } else {
      FrameRule(p(u.pc).value, u, d, s.index);
      if u.pc == s.Beq() { FrameRule(p(u.pc).value, u, d, s.guard); }
    }
  }

  ghost predicate Once(p: Program, s: Suffix, c: Constant, l: Loop, u: Cpu)
    requires IsCpu(u) && s.count < 512
  {
    Early(s, c, u) || Stuck(s, l, u) || exists k :: Late(p, s, c, k, u)
  }

  lemma StuckOn(p: Program, entry: int, s: Suffix, c: Constant, l: Loop, u: Cpu, d: Cpu)
    requires Looping(p, entry, s, c, l) && NeverTwice(p, s, c, l) && Step(p, u, d) && Stuck(s, l, u) && InLoop(s, l, d.pc)
    ensures Stuck(s, l, d)
  {
    if l.from <= u.pc <= l.back + 4 {
      BlockStuck(p, s, c, l, u, d);
    } else if u.pc < s.Sltiu() {
      LandStuck(p, s, c, l, u, d);
    } else {
      CheckStuck(p, s, c, l, u, d);
    }
  }

  lemma EntryAligned(p: Program, s: Suffix, c: Constant, k: nat)
    requires k < s.count && TableWord(p, s, c, k).Some? && forall t :: t in TargetsOf(p, s, c) ==> t % 4 == 0
    ensures Entry(p, s, c, k) in TargetsOf(p, s, c) && Entry(p, s, c, k) % 4 == 0
  {
  }

  lemma NotBetween(s: Suffix, a: int)
    requires s.jr % 4 == 0 && s.lw % 4 == 0 && a % 4 == 0 && (a == s.Addu() || a == s.lw || s.lw < a <= s.jr + 4) && a != s.jr + 4
    requires s.lw < s.jr
    ensures s.Addu() <= a <= s.jr
  {
  }

  lemma LateOn(p: Program, entry: int, s: Suffix, c: Constant, l: Loop, k: nat, u: Cpu, d: Cpu)
    requires Looping(p, entry, s, c, l) && NeverTwice(p, s, c, l) && Step(p, u, d) && Late(p, s, c, k, u) && InLoop(s, l, d.pc)
    requires u.pc == s.lw ==> Intact(p, s, c, u)
    ensures if u.pc == s.jr + 4 then Stuck(s, l, d) else Late(p, s, c, k, d)
  {
    if u.pc == s.jr + 4 {
      CaseIsStuck(p, s, c, l, k, u, d);
    } else {
      assert Entry(p, s, c, k) % 4 == 0 by { EntryAligned(p, s, c, k); }
      assert s.Addu() <= u.pc <= s.jr by { NotBetween(s, u.pc); }
      LateStep(p, s, c, k, u, d);
    }
  }

  lemma OnceStep(p: Program, entry: int, s: Suffix, c: Constant, l: Loop, u: Cpu, d: Cpu)
    requires Looping(p, entry, s, c, l) && NeverTwice(p, s, c, l) && Step(p, u, d) && Once(p, s, c, l, u) && InLoop(s, l, d.pc)
    requires u.pc == s.lw ==> Intact(p, s, c, u)
    ensures Once(p, s, c, l, d)
  {
    if Stuck(s, l, u) {
      StuckOn(p, entry, s, c, l, u, d);
    } else if Early(s, c, u) {
      if u.pc == s.Sll() { ShiftLate(p, s, c, u, d); } else { EarlyStep(p, s, c, l, u, d); }
    } else {
      var k :| Late(p, s, c, k, u);
      LateOn(p, entry, s, c, l, k, u, d);
    }
  }

  lemma {:induction false} OnceKept(p: Program, entry: int, s: Suffix, c: Constant, l: Loop, run: seq<Cpu>, n: nat)
    requires Looping(p, entry, s, c, l) && NeverTwice(p, s, c, l) && LoopRun(p, s, c, l, run) && n < |run|
    ensures IsCpu(run[n]) && Once(p, s, c, l, run[n])
    decreases n
  {
    if n == 0 {
      assert Early(s, c, run[0]);
    } else {
      OnceKept(p, entry, s, c, l, run, n - 1);
      LoopStep(p, s, c, l, run, n);
      OnceStep(p, entry, s, c, l, run[n-1], run[n]);
    }
  }

  lemma OnceLands(p: Program, entry: int, s: Suffix, c: Constant, l: Loop, u: Cpu)
    requires Looping(p, entry, s, c, l) && IsCpu(u) && Once(p, s, c, l, u) && u.pc == s.jr
    ensures JumpTableExactness.Lands(p, s, c, u)
  {
    var k :| Late(p, s, c, k, u);
    EntryAligned(p, s, c, k);
  }

  lemma OnceIsSound(p: Program, entry: int, s: Suffix, c: Constant, l: Loop)
    requires Looping(p, entry, s, c, l) && NeverTwice(p, s, c, l)
    ensures LoopSound(p, s, c, l)
  {
    forall run | LoopRun(p, s, c, l, run) ensures JumpTableExactness.Lands(p, s, c, run[|run|-1]) {
      OnceKept(p, entry, s, c, l, run, |run| - 1);
      OnceLands(p, entry, s, c, l, run[|run|-1]);
    }
  }

  // ---- When it does not ------------------------------------------------------------------

  /** A run around the loop that ends at the `jr` with the odd word. */
  ghost predicate Wrecks(p: Program, s: Suffix, c: Constant, l: Loop, run: seq<Cpu>, u: Cpu) {
    && run != [] && run[0] == u && IsRun(p, run) && run[|run|-1].pc == s.jr && |run[|run|-1].regs| == 32
    && run[|run|-1].regs[s.reg] == 1
    && (forall i :: 0 <= i < |run| ==> run[i].mem == Hostile(p, s, c))
    && forall i :: 0 <= i < |run| ==> InLoop(s, l, run[i].pc)
  }

  lemma Onto(p: Program, s: Suffix, c: Constant, l: Loop, u: Cpu, d: Cpu, run: seq<Cpu>) returns (longer: seq<Cpu>)
    requires Wrecks(p, s, c, l, run, d) && Step(p, u, d) && u.mem == Hostile(p, s, c) && InLoop(s, l, u.pc)
    ensures Wrecks(p, s, c, l, longer, u)
  {
    longer := [u] + run;
    forall i | 0 <= i < |longer| - 1 ensures StepAt(p, longer, i) {
      if i > 0 { assert StepAt(p, run, i - 1); }
    }
  }

  /** What a word may do: a step adds, an open word leaves `x` in the index, and what makes the table register `y` in the end. */
  function Spoilt(p: Program, s: Suffix, x: Word, y: Word, a: int, upTo: int, regs: seq<Word>): (r: seq<Word>)
    requires |regs| == 32
    ensures |r| == 32
  {
    if p(a).None? then regs
    else if AddsTo(p(a).value, s.table) then Set(regs, s.table, Wrap((regs[s.table] as int) + Signed(p(a).value)))
    else Overwritten(p(a).value, s.index, x, s.table, Wrap(y - Sum(p, s.table, a + 4, upTo)), regs)
  }

  function SpoiltBy(p: Program, s: Suffix, x: Word, y: Word, from: int, upTo: int, regs: seq<Word>): (r: seq<Word>)
    requires |regs| == 32
    ensures |r| == 32
    decreases upTo - from
  {
    if from >= upTo then regs else SpoiltBy(p, s, x, y, from + 4, upTo, Spoilt(p, s, x, y, from, upTo, regs))
  }

  predicate Runs(s: Suffix, l: Loop, from: int, upTo: int) {
    from % 4 == 0 && upTo % 4 == 0 && forall a :: from <= a < upTo ==> InLoop(s, l, a)
  }

  lemma TableStep(p: Program, s: Suffix, c: Constant, a: int, i: Insn, regs: seq<Word>)
    requires p(a) == Some(i) && AddsTo(i, s.table) && i.flow.Normal? && a % 4 == 0 && IsFile(regs)
    ensures Step(p, Line(p, s, c, a, regs), Line(p, s, c, a + 4, Set(regs, s.table, Wrap((regs[s.table] as int) + Signed(i)))))
  {
  }

  lemma SpoiltStep(p: Program, s: Suffix, c: Constant, x: Word, y: Word, a: int, upTo: int, regs: seq<Word>)
    requires SteppingAt(p, s, a) && a % 4 == 0 && IsFile(regs) && s.index != 0 && s.table != 0
    ensures IsFile(Spoilt(p, s, x, y, a, upTo, regs))
    ensures Step(p, Line(p, s, c, a, regs), Line(p, s, c, a + 4, Spoilt(p, s, x, y, a, upTo, regs)))
  {
    if AddsTo(p(a).value, s.table) {
      TableStep(p, s, c, a, p(a).value, regs);
    } else {
      OpenStep(p, s, c, a, p(a).value, regs, s.index, x, s.table, Wrap(y - Sum(p, s.table, a + 4, upTo)));
    }
  }

  lemma SteppingOn(p: Program, s: Suffix, from: int, upTo: int)
    requires Stepping(p, s, from, upTo) && from < upTo
    ensures SteppingAt(p, s, from) && Stepping(p, s, from + 4, upTo)
  {
    assert IsSource(from, from, upTo);
    forall a | IsSource(from + 4, a, upTo) ensures SteppingAt(p, s, a) { assert IsSource(from, a, upTo); }
  }

  lemma PlainIsStepping(p: Program, s: Suffix, from: int, upTo: int)
    requires Plain(p, from, upTo)
    ensures Stepping(p, s, from, upTo)
  {
    forall a | IsSource(from, a, upTo) ensures SteppingAt(p, s, a) { assert PlainAt(p, a); }
  }

  lemma {:induction false} SpoilsOnto(p: Program, s: Suffix, c: Constant, l: Loop, x: Word, y: Word, from: int, upTo: int,
                                      regs: seq<Word>, tail: seq<Cpu>)
    returns (run: seq<Cpu>)
    requires Stepping(p, s, from, upTo) && Runs(s, l, from, upTo) && from <= upTo && IsFile(regs) && s.index != 0 && s.table != 0
    requires Wrecks(p, s, c, l, tail, Line(p, s, c, upTo, SpoiltBy(p, s, x, y, from, upTo, regs)))
    ensures Wrecks(p, s, c, l, run, Line(p, s, c, from, regs))
    decreases upTo - from
  {
    if from == upTo {
      run := tail;
    } else {
      NextBelow(from, upTo);
      SteppingOn(p, s, from, upTo);
      SpoiltStep(p, s, c, x, y, from, upTo, regs);
      run := SpoilsOnto(p, s, c, l, x, y, from + 4, upTo, Spoilt(p, s, x, y, from, upTo, regs), tail);
      run := Onto(p, s, c, l, Line(p, s, c, from, regs), Line(p, s, c, from + 4, Spoilt(p, s, x, y, from, upTo, regs)), run);
    }
  }

  /** What the index is behind the words. */
  ghost function IndexBehind(p: Program, s: Suffix, from: int, upTo: int, i: Word, x: Word): Word {
    if LeavesAll(p, from, upTo, s.index) then i else x
  }

  /** What the table register is behind the words. */
  ghost function TableBehind(p: Program, s: Suffix, from: int, upTo: int, t: Word, y: Word): Word {
    if OnlyAdds(p, from, upTo, s.table) then Wrap(t + Sum(p, s.table, from, upTo)) else y
  }

  lemma IndexBehindStep(p: Program, s: Suffix, from: int, upTo: int, i: Word, j: Word, x: Word)
    requires from < upTo && j == (if Leaves(p, from, s.index) then i else x)
    ensures IndexBehind(p, s, from + 4, upTo, j, x) == IndexBehind(p, s, from, upTo, i, x)
  {
    assert IsSource(from, from, upTo);
    if LeavesAll(p, from, upTo, s.index) {
      forall a | IsSource(from + 4, a, upTo) ensures Leaves(p, a, s.index) { assert IsSource(from, a, upTo); }
    } else if LeavesAll(p, from + 4, upTo, s.index) && Leaves(p, from, s.index) {
      LeavesFrom(p, from, upTo, s.index);
    }
  }

  lemma TableBehindStep(p: Program, s: Suffix, from: int, upTo: int, t: Word, u: Word, y: Word)
    requires from < upTo && p(from).Some?
    requires var rest := Sum(p, s.table, from + 4, upTo);
      u == if OnlyAddsAt(p, from, s.table) then Wrap(t + Adds(p, from, s.table)) else Wrap(y - rest)
    ensures TableBehind(p, s, from + 4, upTo, u, y) == TableBehind(p, s, from, upTo, t, y)
  {
    var rest := Sum(p, s.table, from + 4, upTo);
    if OnlyAdds(p, from, upTo, s.table) {
      assert IsSource(from, from, upTo);
      OnlyAddsLater(p, from, upTo, s.table);
      WrapSum(t, Adds(p, from, s.table), rest);
    } else if OnlyAdds(p, from + 4, upTo, s.table) {
      if OnlyAddsAt(p, from, s.table) { OnlyAddsFrom(p, from, upTo, s.table); }
      WrapTwice(y - rest, rest);
    }
  }

  lemma SpoiltWord(p: Program, s: Suffix, x: Word, y: Word, a: int, upTo: int, regs: seq<Word>)
    requires SteppingAt(p, s, a) && IsFile(regs) && s.index != 0 && s.table != 0 && s.index != s.table
    ensures var r, rest := Spoilt(p, s, x, y, a, upTo, regs), Sum(p, s.table, a + 4, upTo);
      && IsFile(r) && r[s.index] == (if Leaves(p, a, s.index) then regs[s.index] else x)
      && r[s.table] == if OnlyAddsAt(p, a, s.table) then Wrap(regs[s.table] + Adds(p, a, s.table)) else Wrap(y - rest)
  {
  }

  /** Behind the words. */
  lemma {:induction false} SpoiltRegisters(p: Program, s: Suffix, x: Word, y: Word, from: int, upTo: int, regs: seq<Word>)
    requires Stepping(p, s, from, upTo) && from % 4 == 0 && upTo % 4 == 0 && from <= upTo && IsFile(regs)
    requires s.index != 0 && s.table != 0 && s.index != s.table
    ensures IsFile(SpoiltBy(p, s, x, y, from, upTo, regs))
    ensures SpoiltBy(p, s, x, y, from, upTo, regs)[s.index] == IndexBehind(p, s, from, upTo, regs[s.index], x)
    ensures SpoiltBy(p, s, x, y, from, upTo, regs)[s.table] == TableBehind(p, s, from, upTo, regs[s.table], y)
    decreases upTo - from
  {
    if from < upTo {
      NextBelow(from, upTo);
      SteppingOn(p, s, from, upTo);
      var r := Spoilt(p, s, x, y, from, upTo, regs);
      SpoiltWord(p, s, x, y, from, upTo, regs);
      IndexBehindStep(p, s, from, upTo, regs[s.index], r[s.index], x);
      TableBehindStep(p, s, from, upTo, regs[s.table], r[s.table], y);
      SpoiltRegisters(p, s, x, y, from + 4, upTo, r);
    }
  }

  /** The registers at the second check. */
  function SecondCheck(p: Program, s: Suffix, l: Loop, x: Word, y: Word, regs: seq<Word>): (r: seq<Word>)
    requires |regs| == 32
    ensures |r| == 32
  {
    SpoiltBy(p, s, x, y, l.land, s.Sltiu(), SpoiltBy(p, s, x, y, l.from, l.back, regs))
  }

  /** The index that the second check sees. */
  ghost function SecondIndex(p: Program, s: Suffix, l: Loop, x: Word, regs: seq<Word>): Word
    requires |regs| == 32
  {
    if IndexLeft(p, s, l) then regs[s.index] else x
  }

  /** No word from where the block lands writes the table register. */
  lemma LandLeaves(p: Program, s: Suffix, c: Constant, l: Loop)
    requires Defined(p, s, c) && Placed(s, c, l) && s.lw % 4 == 0 && c.define % 4 == 0
    ensures LeavesAll(p, l.land, s.Sltiu(), s.table)
  {
    NextBelow(c.define, l.land);
    LaterLeaves(p, c.define + 4, l.land, s.Addu(), s.table);
    EarlierLeaves(p, l.land, s.Sltiu(), s.Addu(), s.table);
  }

  lemma SecondRegisters(p: Program, s: Suffix, c: Constant, l: Loop, x: Word, y: Word, regs: seq<Word>)
    requires Placed(s, c, l) && Apart(s) && s.index != 0 && s.table != 0 && s.lw % 4 == 0 && IsFile(regs)
    requires Stepping(p, s, l.from, l.back) && Plain(p, l.land, s.Sltiu()) && LeavesAll(p, l.land, s.Sltiu(), s.table)
    ensures var r := SecondCheck(p, s, l, x, y, regs);
      && IsFile(r) && r[s.index] == SecondIndex(p, s, l, x, regs)
      && r[s.table] == TableBehind(p, s, l.from, l.back, regs[s.table], y)
  {
    var mid := SpoiltBy(p, s, x, y, l.from, l.back, regs);
    SpoiltRegisters(p, s, x, y, l.from, l.back, regs);
    PlainIsStepping(p, s, l.land, s.Sltiu());
    SpoiltRegisters(p, s, x, y, l.land, s.Sltiu(), mid);
    LeavesIsRestores(p, l.land, s.Sltiu(), s.table);
  }

  // ---- Which index tells -------------------------------------------------------------

  /** Some address that leads beside the table with this index. */
  function Wrong(c: Constant, x: Word): Word { Wrap(0x8000_0000 + c.value - 4 * x as int) }

  lemma WrongMisses(s: Suffix, c: Constant, x: Word)
    requires Base(s, c) + 4 * s.count <= 0x1_0000_0000 && Base(s, c) % 4 == 0 && x < s.count < 512
    ensures Misses(s, c, 4 * (x as int) + Wrong(c, x))
  {
    var y := 0x8000_0000 + c.value - 4 * x as int;
    FarMisses(s, c, 0x8000_0000);
    WrapMoves(4 * x as int, y);
    assert Wrap(4 * (x as int) + Wrong(c, x)) == Wrap(0x8000_0000 + c.value);
    MissesWrapped(s, c, 0x8000_0000 + c.value, 4 * (x as int) + Wrong(c, x));
  }

  /** An index that leads beside the table when its address has moved so far. */
  function Revealing(s: Suffix, moved: Word): Word
    requires 1 <= s.count < 512
  {
    if moved >= 4 * s.count then 0 else s.count - 1
  }

  /** The moved table is misaligned or read outside, by that index or by the only one. */
  lemma MovedMisses(s: Suffix, c: Constant, x: Word, sum: int)
    requires Base(s, c) + 4 * s.count <= 0x1_0000_0000 && Base(s, c) % 4 == 0 && x < s.count < 512 && Wrap(sum) != 0
    requires sum % 4 != 0 || x == Revealing(s, Wrap(sum)) || s.count == 1
    ensures Misses(s, c, 4 * (x as int) + Wrap(c.value + sum))
  {
    var z := 4 * (x as int) + Wrap(sum);
    MovedAddress(s, c, 4 * x as int, sum);
    if sum % 4 != 0 {
      WrapMod4(Base(s, c) + z);
      WrapMod4(sum);
    } else {
      WrapMod4(sum);
      BeyondTable(Base(s, c), 4 * s.count, z);
    }
  }

  lemma FourMore(m: int, r: int)
    ensures (4 * m + r) % 4 == r % 4
  {
    assert (4 * m + r) / 4 == m + r / 4;
  }

  lemma WrapMod4(x: int)
    ensures Wrap(x) % 4 == x % 4
  {
    var q := x / 0x1_0000_0000;
    assert x == 4 * (0x4000_0000 * q) + Wrap(x);
    FourMore(0x4000_0000 * q, Wrap(x));
  }

  lemma MovedAddress(s: Suffix, c: Constant, x: int, sum: int)
    ensures Wrap(x + Wrap(c.value + sum) + s.offset) == Wrap(x + Wrap(sum) + Base(s, c))
  {
    WrapTwice(c.value + sum, x + s.offset);
    WrapTwice(sum, x + Base(s, c));
    WrapTwice(c.value + s.offset, sum + x);
    assert Wrap(c.value + sum) + (x + s.offset) == x + Wrap(c.value + sum) + s.offset;
    assert Wrap(sum) + (x + Base(s, c)) == x + Wrap(sum) + Base(s, c);
    assert c.value + sum + (x + s.offset) == c.value + s.offset + (sum + x);
    assert Base(s, c) + (sum + x) == sum + (x + Base(s, c));
  }

  /** An index for words that may write it. */
  ghost function Chosen(p: Program, s: Suffix, l: Loop): Word
    requires 1 <= s.count < 512
  {
    Revealing(s, Wrap(Sum(p, s.table, l.from, l.back)))
  }

  /** The second check leads beside the table. */
  lemma SecondMisses(p: Program, s: Suffix, c: Constant, l: Loop, regs: seq<Word>)
    requires Base(s, c) + 4 * s.count <= 0x1_0000_0000 && Base(s, c) % 4 == 0 && 1 <= s.count < 512
    requires Telling(p, s, l) && !TableBack(p, s, l) && |regs| == 32
    requires SecondIndex(p, s, l, Chosen(p, s, l), regs) < s.count
    ensures var x := SecondIndex(p, s, l, Chosen(p, s, l), regs);
      Misses(s, c, 4 * (x as int) + TableBehind(p, s, l.from, l.back, c.value, Wrong(c, x)))
  {
    var x := SecondIndex(p, s, l, Chosen(p, s, l), regs);
    if OnlyAdds(p, l.from, l.back, s.table) {
      MovedMisses(s, c, x, Sum(p, s.table, l.from, l.back));
    } else {
      WrongMisses(s, c, x);
    }
  }

  lemma BreaksIsWrecks(p: Program, s: Suffix, c: Constant, l: Loop, run: seq<Cpu>, u: Cpu)
    requires Breaks(p, s, c, run, u) && l.land <= s.Sltiu() < s.jr
    ensures Wrecks(p, s, c, l, run, u)
  {
  }

  lemma JumpBack(p: Program, s: Suffix, c: Constant, l: Loop, regs: seq<Word>)
    requires CaseLoops(p, s, c, l) && IsFile(regs)
    ensures Step(p, Line(p, s, c, l.back, regs), Cpu(l.back + 4, l.land, regs, Hostile(p, s, c)))
    ensures Step(p, Cpu(l.back + 4, l.land, regs, Hostile(p, s, c)), Line(p, s, c, l.land, regs))
  {
  }

  /** From the end of the block back to the check, and to the odd word. */
  lemma BackWrecks(p: Program, s: Suffix, c: Constant, l: Loop, x: Word, y: Word, after: seq<Word>, tail: seq<Cpu>)
    returns (run: seq<Cpu>)
    requires Shape(p, s) && CaseLoops(p, s, c, l) && s.lw % 4 == 0 && IsFile(after) && s.jr > s.lw
    requires Wrecks(p, s, c, l, tail, Line(p, s, c, s.Sltiu(), SpoiltBy(p, s, x, y, l.land, s.Sltiu(), after)))
    ensures Wrecks(p, s, c, l, run, Line(p, s, c, l.back, after))
  {
    PlainIsStepping(p, s, l.land, s.Sltiu());
    run := SpoilsOnto(p, s, c, l, x, y, l.land, s.Sltiu(), after, tail);
    JumpBack(p, s, c, l, after);
    var slot := Cpu(l.back + 4, l.land, after, Hostile(p, s, c));
    run := Onto(p, s, c, l, slot, Line(p, s, c, l.land, after), run);
    run := Onto(p, s, c, l, Line(p, s, c, l.back, after), slot, run);
  }

  lemma CheckWrecks(p: Program, entry: int, s: Suffix, c: Constant, l: Loop, regs: seq<Word>) returns (run: seq<Cpu>)
    requires Looping(p, entry, s, c, l) && IsFile(regs) && regs[s.table] == c.value && Telling(p, s, l) && !TableBack(p, s, l)
    requires SecondIndex(p, s, l, Chosen(p, s, l), regs) < s.count
    ensures var x := Chosen(p, s, l);
      Wrecks(p, s, c, l, run, Line(p, s, c, s.Sltiu(), SecondCheck(p, s, l, x, Wrong(c, SecondIndex(p, s, l, x, regs)), regs)))
  {
    var x := Chosen(p, s, l);
    var y := Wrong(c, SecondIndex(p, s, l, x, regs));
    var last := SecondCheck(p, s, l, x, y, regs);
    LandLeaves(p, s, c, l);
    SecondRegisters(p, s, c, l, x, y, regs);
    SecondMisses(p, s, c, l, regs);
    run := DispatchBreaks(p, s, c, last);
    BreaksIsWrecks(p, s, c, l, run, Line(p, s, c, s.Sltiu(), last));
  }

  /** Through the block, back, and to the odd word. */
  lemma BlockWrecks(p: Program, entry: int, s: Suffix, c: Constant, l: Loop, regs: seq<Word>) returns (run: seq<Cpu>)
    requires Looping(p, entry, s, c, l) && IsFile(regs) && regs[s.table] == c.value && Telling(p, s, l) && !TableBack(p, s, l)
    requires SecondIndex(p, s, l, Chosen(p, s, l), regs) < s.count
    ensures Wrecks(p, s, c, l, run, Line(p, s, c, l.from, regs))
  {
    var x := Chosen(p, s, l);
    var y := Wrong(c, SecondIndex(p, s, l, x, regs));
    run := CheckWrecks(p, entry, s, c, l, regs);
    SpoiltRegisters(p, s, x, y, l.from, l.back, regs);
    run := BackWrecks(p, s, c, l, x, y, SpoiltBy(p, s, x, y, l.from, l.back, regs), run);
    run := SpoilsOnto(p, s, c, l, x, y, l.from, l.back, regs, run);
  }

  // ---- The first pass -----------------------------------------------------------------------

  lemma EntryIsThere(p: Program, s: Suffix, c: Constant, k: nat)
    requires k < s.count && Base(s, c) % 4 == 0
    ensures var a := Base(s, c) + 4 * k; Hits(s, c, a) && a % 4 == 0 && Hostile(p, s, c)(a) == Entry(p, s, c, k)
  {
    assert (Base(s, c) + 4 * k - Base(s, c)) / 4 == k;
  }

  lemma EntryAddress(s: Suffix, c: Constant, k: nat)
    requires k < s.count && Base(s, c) + 4 * s.count <= 0x1_0000_0000
    ensures Wrap((Wrap(4 * k + c.value) as int) + s.offset) == Base(s, c) + 4 * k
  {
    WrapTwice(4 * k + c.value, s.offset);
    WrapMoves(4 * k, c.value + s.offset);
    assert 4 * k + c.value + s.offset == 4 * k + (c.value + s.offset);
  }

  lemma LoadsEntry(p: Program, s: Suffix, c: Constant, regs: seq<Word>, k: nat)
    requires Shape(p, s) && s.lw % 4 == 0 && IsFile(regs) && k < s.count && Base(s, c) % 4 == 0
    requires Wrap((regs[s.address] as int) + s.offset) == Base(s, c) + 4 * k
    ensures Step(p, Line(p, s, c, s.lw, regs), Line(p, s, c, s.lw + 4, Set(regs, s.reg, Entry(p, s, c, k))))
  {
    EntryIsThere(p, s, c, k);
  }

  lemma JumpsToCase(p: Program, s: Suffix, c: Constant, l: Loop, regs: seq<Word>)
    requires CaseLoops(p, s, c, l) && Shape(p, s) && s.jr % 4 == 0 && IsFile(regs) && regs[s.reg] == l.from
    ensures Step(p, Line(p, s, c, s.jr, regs), Cpu(s.jr + 4, l.from, regs, Hostile(p, s, c)))
    ensures Step(p, Cpu(s.jr + 4, l.from, regs, Hostile(p, s, c)), Line(p, s, c, l.from, regs))
  {
    assert p(s.jr).value.flow == (if s.reg == 31 then Return else JumpRegister);
  }

  lemma LastWrecks(p: Program, s: Suffix, c: Constant, l: Loop, regs: seq<Word>, tail: seq<Cpu>) returns (run: seq<Cpu>)
    requires Shape(p, s) && CaseLoops(p, s, c, l) && s.jr % 4 == 0 && s.lw % 4 == 0 && IsFile(regs) && regs[s.reg] == l.from
    requires Wrecks(p, s, c, l, tail, Line(p, s, c, l.from, regs))
    ensures Wrecks(p, s, c, l, run, Line(p, s, c, s.lw + 4, regs))
  {
    var slot := Cpu(s.jr + 4, l.from, regs, Hostile(p, s, c));
    JumpsToCase(p, s, c, l, regs);
    run := Onto(p, s, c, l, slot, Line(p, s, c, l.from, regs), tail);
    run := Onto(p, s, c, l, Line(p, s, c, s.jr, regs), slot, run);
    if s.jr == s.lw + 8 {
      assert Step(p, Line(p, s, c, s.lw + 4, regs), Line(p, s, c, s.jr, regs));
      run := Onto(p, s, c, l, Line(p, s, c, s.lw + 4, regs), Line(p, s, c, s.jr, regs), run);
    }
  }

  /** The registers at the case, when the first check saw its index. */
  function AtCase(s: Suffix, c: Constant, l: Loop, r0: seq<Word>): (r: seq<Word>)
    requires |r0| == 32 && l.k < s.count < 512 && 0 <= l.from < 0x1_0000_0000
    ensures |r| == 32
  {
    Set(Set(Set(Set(r0, s.guard, 1), s.scaled, 4 * l.k), s.address, Wrap(4 * l.k + c.value)), s.reg, l.from)
  }

  lemma ScaledWrecks(p: Program, s: Suffix, c: Constant, l: Loop, r1: seq<Word>, tail: seq<Cpu>) returns (run: seq<Cpu>)
    requires Shape(p, s) && CaseLoops(p, s, c, l) && s.jr % 4 == 0 && s.lw % 4 == 0 && IsFile(r1)
    requires Base(s, c) + 4 * s.count <= 0x1_0000_0000 && Base(s, c) % 4 == 0
    requires r1[s.scaled] == 4 * l.k && r1[s.table] == c.value
    requires Wrecks(p, s, c, l, tail, Line(p, s, c, l.from, Set(Set(r1, s.address, Wrap(4 * l.k + c.value)), s.reg, l.from)))
    ensures Wrecks(p, s, c, l, run, Line(p, s, c, s.Addu(), r1))
  {
    var r2 := Set(r1, s.address, Wrap(4 * l.k + c.value));
    var r3 := Set(r2, s.reg, l.from);
    run := LastWrecks(p, s, c, l, r3, tail);
    EntryAddress(s, c, l.k);
    LoadsEntry(p, s, c, r2, l.k);
    run := Onto(p, s, c, l, Line(p, s, c, s.lw, r2), Line(p, s, c, s.lw + 4, r3), run);
    AddsUp(p, s, c, r1);
    run := Onto(p, s, c, l, Line(p, s, c, s.Addu(), r1), Line(p, s, c, s.lw, r2), run);
  }

  /** A check that the index passes. */
  lemma PassesOnto(p: Program, s: Suffix, c: Constant, l: Loop, r0: seq<Word>, tail: seq<Cpu>) returns (run: seq<Cpu>)
    requires Shape(p, s) && Placed(s, c, l) && s.jr % 4 == 0 && s.guard != 0 && IsFile(r0) && r0[s.index] < s.count
    requires Wrecks(p, s, c, l, tail, Line(p, s, c, s.Sll(), Set(r0, s.guard, 1)))
    ensures Wrecks(p, s, c, l, run, Line(p, s, c, s.Sltiu(), r0))
  {
    var r1 := Set(r0, s.guard, 1);
    Idles(p, s, c, r1, s.Sll());
    run := Onto(p, s, c, l, Line(p, s, c, s.Nop(), r1), Line(p, s, c, s.Sll(), r1), tail);
    Branches(p, s, c, r1);
    run := Onto(p, s, c, l, Line(p, s, c, s.Beq(), r1), Line(p, s, c, s.Nop(), r1), run);
    Bounds(p, s, c, r0);
    run := Onto(p, s, c, l, Line(p, s, c, s.Sltiu(), r0), Line(p, s, c, s.Beq(), r1), run);
  }

  lemma ShiftWrecks(p: Program, s: Suffix, c: Constant, l: Loop, r1: seq<Word>, tail: seq<Cpu>) returns (run: seq<Cpu>)
    requires Shape(p, s) && Placed(s, c, l) && s.jr % 4 == 0 && IsFile(r1) && r1[s.index] == l.k && l.k < s.count
    requires Wrecks(p, s, c, l, tail, Line(p, s, c, s.Addu(), Set(r1, s.scaled, 4 * l.k)))
    ensures Wrecks(p, s, c, l, run, Line(p, s, c, s.Sll(), r1))
  {
    Shifts(p, s, c, r1);
    run := Onto(p, s, c, l, Line(p, s, c, s.Sll(), r1), Line(p, s, c, s.Addu(), Set(r1, s.scaled, 4 * l.k)), tail);
  }

  /** The first check sees the index of the case. */
  lemma FirstWrecks(p: Program, s: Suffix, c: Constant, l: Loop, r0: seq<Word>, tail: seq<Cpu>) returns (run: seq<Cpu>)
    requires Shape(p, s) && CaseLoops(p, s, c, l) && s.jr % 4 == 0 && s.lw % 4 == 0 && s.guard != s.table && IsFile(r0)
    requires Base(s, c) + 4 * s.count <= 0x1_0000_0000 && Base(s, c) % 4 == 0
    requires r0[s.index] == l.k && r0[s.table] == c.value
    requires Wrecks(p, s, c, l, tail, Line(p, s, c, l.from, AtCase(s, c, l, r0)))
    ensures Wrecks(p, s, c, l, run, Line(p, s, c, s.Sltiu(), r0))
  {
    var r1 := Set(r0, s.guard, 1);
    run := ScaledWrecks(p, s, c, l, Set(r1, s.scaled, 4 * l.k), tail);
    run := ShiftWrecks(p, s, c, l, r1, run);
    run := PassesOnto(p, s, c, l, r0, run);
  }

  function Opening(s: Suffix, c: Constant, l: Loop): seq<Word>
    requires l.k < 512
  {
    seq(32, i => 0)[s.index := l.k][s.table := c.value]
  }

  lemma AtCaseIndex(p: Program, s: Suffix, c: Constant, l: Loop)
    requires Shape(p, s) && Apart(s) && l.k < s.count && l.from == Entry(p, s, c, l.k)
    requires s.guard != s.table
    ensures var r := AtCase(s, c, l, Opening(s, c, l));
      IsFile(r) && r[s.index] == Survivor(p, s, c, l.k) && r[s.table] == c.value
  {
  }

  lemma SomethingWrecks(p: Program, entry: int, s: Suffix, c: Constant, l: Loop) returns (run: seq<Cpu>)
    requires Looping(p, entry, s, c, l) && !TableBack(p, s, l) && Telling(p, s, l)
    requires IndexLeft(p, s, l) ==> Survivor(p, s, c, l.k) < s.count
    ensures Wrecks(p, s, c, l, run, Line(p, s, c, s.Sltiu(), Opening(s, c, l)))
  {
    AtCaseIndex(p, s, c, l);
    run := BlockWrecks(p, entry, s, c, l, AtCase(s, c, l, Opening(s, c, l)));
    run := FirstWrecks(p, s, c, l, Opening(s, c, l), run);
  }

  lemma WreckedIsUnsound(p: Program, s: Suffix, c: Constant, l: Loop, run: seq<Cpu>)
    requires l.k < 512 && s.index != 0 && s.table != 0 && s.lw % 4 == 0
    requires Wrecks(p, s, c, l, run, Line(p, s, c, s.Sltiu(), Opening(s, c, l))) && 1 !in TargetsOf(p, s, c)
    ensures !LoopSound(p, s, c, l)
  {
    forall i | 0 <= i < |run| && run[i].pc == s.lw ensures Intact(p, s, c, run[i]) {
      HostileIsIntact(p, s, c, run[i]);
    }
    assert LoopRun(p, s, c, l, run) && !JumpTableExactness.Lands(p, s, c, run[|run|-1]);
  }

  lemma RecognisedLoops(p: Program, entry: int, hardCap: int, lo: int, hi: int, jr: int, reg: int, s: Suffix, c: Constant, l: Loop)
    requires Recognise(p, entry, hardCap, lo, hi, jr, reg) == Some((s, c)) && hi <= 0x1_0000_0000 && jr % 4 == 0
    requires CaseLoops(p, s, c, l)
    ensures Looping(p, entry, s, c, l)
  {
    assert Accepted(p, entry, s, c) && s.jr == jr by { RecognisedIsAccepted(p, entry, hardCap, lo, hi, jr, reg, s, c); }
    assert s.lw % 4 == 0 && c.define % 4 == 0 by { AlignedWords(p, s, c); }
    assert s.guard != s.table by { GuardIsNoTable(p, s, c); }
    TargetsAligned(p, entry, hardCap, lo, hi, s, c);
  }

  /** Any index of the case will do. */
  lemma OtherIndex(p: Program, entry: int, s: Suffix, c: Constant, l: Loop, k: nat)
    requires Looping(p, entry, s, c, l) && k < s.count && Entry(p, s, c, k) == l.from
    ensures Looping(p, entry, s, c, l.(k := k)) && LoopSound(p, s, c, l.(k := k)) == LoopSound(p, s, c, l)
  {
    var m := l.(k := k);
    forall a ensures InLoop(s, m, a) == InLoop(s, l, a) { }
    forall run ensures LoopRun(p, s, c, m, run) == LoopRun(p, s, c, l, run) { }
  }

  lemma UnsoundOtherwise(p: Program, entry: int, s: Suffix, c: Constant, l: Loop)
    requires Looping(p, entry, s, c, l) && !TableBack(p, s, l) && Telling(p, s, l) && !NeverTwice(p, s, c, l)
    requires 1 !in TargetsOf(p, s, c)
    ensures !LoopSound(p, s, c, l)
  {
    if IndexLeft(p, s, l) {
      var k: nat :| k < s.count && !Rejects(p, s, c, l, k);
      OtherIndex(p, entry, s, c, l, k);
      var run := SomethingWrecks(p, entry, s, c, l.(k := k));
      WreckedIsUnsound(p, s, c, l.(k := k), run);
    } else {
      var run := SomethingWrecks(p, entry, s, c, l);
      WreckedIsUnsound(p, s, c, l, run);
    }
  }

  /**
   A case may loop to the check without leaving the table exactly when its block leaves the table's address where it
   was, or when the check never lets it through a second time.
   */
  lemma CaseLoopExactly(p: Program, entry: int, hardCap: int, lo: int, hi: int, jr: int, reg: int, s: Suffix, c: Constant, l: Loop)
    requires Recognise(p, entry, hardCap, lo, hi, jr, reg) == Some((s, c)) && hi <= 0x1_0000_0000 && jr % 4 == 0
    requires CaseLoops(p, s, c, l) && Telling(p, s, l)
    ensures s.count < 512
    ensures LoopSound(p, s, c, l) <==> TableBack(p, s, l) || NeverTwice(p, s, c, l)
  {
    RecognisedLoops(p, entry, hardCap, lo, hi, jr, reg, s, c, l);
    if TableBack(p, s, l) {
      LeavingIsSound(p, entry, s, c, l);
    } else if NeverTwice(p, s, c, l) {
      OnceIsSound(p, entry, s, c, l);
    } else {
      OddIsNoTarget(p, entry, hardCap, lo, hi, s, c);
      UnsoundOtherwise(p, entry, s, c, l);
    }
  }
}
