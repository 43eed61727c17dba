/**
 Whole machine runs through a recognised switch: cases that loop back to it, and a rejected edge that repeats a
 definition. What such edges rely on is stated on the program, address by address.
 */
module JumpTableLoops {
  import opened Prelude
  import opened BitWords
  import opened Mips
  import opened Machine
  import opened JumpTable
  import opened JumpTableSoundness

  /**
   Addresses outside the suffix at which a register still holds its part of the constant, addresses that are only
   ever delay slots, which of the two registers is held, the upper half or the table's address, and whether cases of
   the switch are in a loop or in the suffix itself.
   */
  datatype Keep = Keep(loops: set<int>, slots: set<int>, up: bool, table: bool, cases: bool)

  predicate Held(s: Suffix, c: Constant, z: Keep, u: Cpu)
    requires IsCpu(u)
  {
    (z.up ==> u.regs[c.up] == c.upper) && (z.table ==> u.regs[s.table] == c.value)
  }

  predicate KeepsAt(p: Program, s: Suffix, c: Constant, z: Keep, a: int) {
    p(a).Some? && (z.up ==> !WritesGpr(p(a).value, c.up)) && (z.table ==> !WritesGpr(p(a).value, s.table))
  }

  /** A loop may re-enter the suffix where the bounds check is still ahead and what it needs there is held. */
  predicate MayLand(s: Suffix, c: Constant, z: Keep, b: int) {
    Protected(s, c, b) ==> if b <= c.define then z.up else z.table && b <= s.Sltiu()
  }

  predicate Enters(s: Suffix, c: Constant, z: Keep, b: int) { b in z.loops || Protected(s, c, b) }

  /** Where execution is in line after an instruction in line. */
  function InLine(i: Insn, a: int): set<int> {
    match i.flow
    case Normal => {a + 4}
    case Branch(_) => {a + 4, a + 8}
    case BranchNever => {a + 4}
    case BranchNeverLikely => {a + 8}
    case Jump(t) => if t == a + 8 then {a + 4} else {}
    case Call(t) => if t == a + 8 then {a + 4} else {}
    case _ => {}
  }

  /** The loops are left freely, and entered only from a loop, by instructions that keep what is held. */
  predicate FlowKept(p: Program, s: Suffix, c: Constant, z: Keep, reached: set<int>, a: int, i: Insn) {
    && (forall b :: b in InLine(i, a) ==> b !in z.slots && (b in z.loops ==> a in z.loops && KeepsAt(p, s, c, z, a)))
    && (DirectTarget(Some(i)).Some? ==>
         var t := DirectTarget(Some(i)).value;
         && t !in z.slots
         && (t in z.loops || (Protected(s, c, t) && a in reached) ==>
              a in z.loops && KeepsAt(p, s, c, z, a) && KeepsAt(p, s, c, z, a + 4) && MayLand(s, c, z, t)))
  }

  /** An address of the function outside the suffix that is executed in line. */
  predicate Loose(entry: int, hardCap: int, s: Suffix, c: Constant, z: Keep, a: int) {
    IsSource(entry, a, hardCap) && !(c.constant <= a <= s.jr) && a !in z.slots
  }

  ghost predicate LoopsKept(p: Program, entry: int, hardCap: int, s: Suffix, c: Constant, z: Keep, reached: set<int>) {
    && (forall a :: a in z.loops + z.slots ==> !(c.constant <= a <= s.jr))
    && forall a :: Loose(entry, hardCap, s, c, z, a) && p(a).Some? ==> FlowKept(p, s, c, z, reached, a, p(a).value)
  }

  /** A case of the switch may be where it is. */
  predicate CaseKept(s: Suffix, c: Constant, z: Keep, t: int) {
    t !in z.slots && MayLand(s, c, z, t) && (Enters(s, c, z, t) ==> z.cases)
  }

  /** The suffix hands on what the rejected edge and the dispatch rely on. */
  ghost predicate SuffixKept(p: Program, s: Suffix, c: Constant, z: Keep, targets: set<int>) {
    && (z.up ==> LeavesAll(p, c.constant + 4, s.Sll(), c.up)) && (c.constant < s.reject <= c.define ==> z.up)
    && s.reject !in z.slots && (forall t :: t in targets ==> CaseKept(s, c, z, t))
    && (z.cases ==> CasesKept(p, s, c, z))
    && (s.jr + 8 in targets ==> p(s.jr + 4).Some? && p(s.jr + 4).value.flow.Normal?)
  }

  /** What is held survives the dispatch and its delay slot. */
  ghost predicate CasesKept(p: Program, s: Suffix, c: Constant, z: Keep) {
    && p(s.jr + 4).Some? && (z.up ==> LeavesAll(p, c.constant + 4, s.jr + 8, c.up))
    && (z.table ==> LeavesAll(p, c.define + 4, s.jr + 8, s.table))
  }

  // ---- The invariant ---------------------------------------------------------

  predicate SeqOk(s: Suffix, c: Constant, z: Keep, u: Cpu)
    requires IsCpu(u)
  {
    u.npc == u.pc + 4 && u.pc !in z.slots && (u.pc in z.loops ==> Held(s, c, z, u))
  }

  predicate SlotOk(p: Program, s: Suffix, c: Constant, z: Keep, u: Cpu)
    requires IsCpu(u)
  {
    && u.npc !in z.slots
    && (Enters(s, c, z, u.npc) ==> Held(s, c, z, u) && KeepsAt(p, s, c, z, u.pc) && MayLand(s, c, z, u.npc))
    && (u.npc == u.pc + 4 ==> p(u.pc).Some? && p(u.pc).value.flow.Normal?)
  }

  /** Outside the suffix, in line or in a delay slot. */
  predicate Outside(p: Program, s: Suffix, c: Constant, z: Keep, u: Cpu)
    requires IsCpu(u)
  {
    SeqOk(s, c, z, u) || SlotOk(p, s, c, z, u)
  }

  predicate Inside(p: Program, s: Suffix, c: Constant, z: Keep, targets: set<int>, u: Cpu)
    requires IsCpu(u)
  {
    && Facts(p, s, c, targets, u)
    && (z.up && (u.pc <= s.Nop() || z.cases) ==> u.regs[c.up] == c.upper)
    && (z.table && z.cases && u.pc > c.define ==> u.regs[s.table] == c.value)
  }

  predicate Inv(p: Program, s: Suffix, c: Constant, z: Keep, targets: set<int>, u: Cpu)
    requires IsCpu(u)
  {
    if Protected(s, c, u.pc) then Inside(p, s, c, z, targets, u) else Outside(p, s, c, z, u)
  }

  lemma HeldStep(p: Program, s: Suffix, c: Constant, z: Keep, u: Cpu, d: Cpu)
    requires Step(p, u, d) && KeepsAt(p, s, c, z, u.pc) && Held(s, c, z, u)
    ensures Held(s, c, z, d)
  {
    if z.up { FrameRule(p(u.pc).value, u, d, c.up); }
    if z.table { FrameRule(p(u.pc).value, u, d, s.table); }
  }

  /** Arriving in line with what is needed there. */
  lemma Arrives(p: Program, s: Suffix, c: Constant, z: Keep, t: set<int>, d: Cpu)
    requires Shape(p, s) && Defined(p, s, c) && IsCpu(d) && d.npc == d.pc + 4 && Held(s, c, z, d)
    requires MayLand(s, c, z, d.pc) && d.pc !in z.slots
    ensures Inv(p, s, c, z, t, d)
  {
  }

  // ---- Inside the suffix --------------------------------------------------------

  lemma Carried(p: Program, from: int, to: int, reg: int, u: Cpu, d: Cpu)
    requires LeavesAll(p, from, to, reg) && from <= u.pc < to && u.pc % 4 == 0 && from % 4 == 0
    requires Step(p, u, d) && 0 <= reg < 32
    ensures d.regs[reg] == u.regs[reg]
  {
    Unwritten(p, from, to, reg, u, d);
  }

  /** Whatever the suffix needs of the program, for one set of cases. */
  ghost predicate Ready(p: Program, entry: int, s: Suffix, c: Constant, z: Keep, t: set<int>) {
    && Accepted(p, entry, s, c) && Guards(s, c) && SuffixKept(p, s, c, z, t) && s.jr % 4 == 0 && c.constant % 4 == 0
    && t == TargetsOf(p, s, c) && forall x :: x in t ==> x % 4 == 0
  }

  lemma DefineAligned(s: Suffix, c: Constant)
    requires s.jr % 4 == 0 && (s.Addu() - c.define) % 4 == 0 && (s.jr == s.lw + 4 || s.jr == s.lw + 8)
    ensures c.define % 4 == 0
  {
  }

  lemma UpperCarriesOn(p: Program, s: Suffix, c: Constant, z: Keep, u: Cpu, d: Cpu)
    requires LeavesAll(p, c.constant + 4, s.Sll(), c.up) && (z.cases ==> LeavesAll(p, c.constant + 4, s.jr + 8, c.up))
    requires s.jr % 4 == 0 && c.constant % 4 == 0 && (s.jr == s.lw + 4 || s.jr == s.lw + 8)
    requires Step(p, u, d) && c.constant < u.pc <= s.jr && u.regs[c.up] == c.upper && (u.pc <= s.Nop() || z.cases)
    ensures d.regs[c.up] == c.upper
  {
    if z.cases {
      Carried(p, c.constant + 4, s.jr + 8, c.up, u, d);
    } else {
      Carried(p, c.constant + 4, s.Sll(), c.up, u, d);
    }
  }

  lemma TableCarriesOn(p: Program, s: Suffix, c: Constant, u: Cpu, d: Cpu)
    requires LeavesAll(p, c.define + 4, s.jr + 8, s.table) && s.jr % 4 == 0 && (s.Addu() - c.define) % 4 == 0
    requires s.jr == s.lw + 4 || s.jr == s.lw + 8
    requires Step(p, u, d) && c.define < u.pc <= s.jr && u.regs[s.table] == c.value
    ensures d.regs[s.table] == c.value
  {
    Carried(p, c.define + 4, s.jr + 8, s.table, u, d);
  }

  /** The two registers through the suffix, whatever else happens to them. */
  lemma CarriesOn(p: Program, entry: int, s: Suffix, c: Constant, z: Keep, t: set<int>, u: Cpu, d: Cpu)
    requires Ready(p, entry, s, c, z, t) && Step(p, u, d) && c.constant < u.pc <= s.jr && Inside(p, s, c, z, t, u)
    ensures z.up && (u.pc <= s.Nop() || z.cases) ==> d.regs[c.up] == c.upper
    ensures z.table && z.cases && u.pc > c.define ==> d.regs[s.table] == c.value
  {
    if z.up && (u.pc <= s.Nop() || z.cases) { UpperCarriesOn(p, s, c, z, u, d); }
    if z.table && z.cases && u.pc > c.define { TableCarriesOn(p, s, c, u, d); }
  }

  lemma PrefixInside(p: Program, entry: int, s: Suffix, c: Constant, z: Keep, t: set<int>, u: Cpu, d: Cpu)
    requires Ready(p, entry, s, c, z, t) && Step(p, u, d) && c.constant < u.pc < s.Sltiu() && Inside(p, s, c, z, t, u)
    ensures Inside(p, s, c, z, t, d)
  {
    CarriesOn(p, entry, s, c, z, t, u, d);
    assert d.pc == u.pc + 4 <= s.Sltiu() && d.npc == d.pc + 4 && Carries(s, c, d) by {
      PrefixStep(p, entry, s, c, t, u, d);
    }
  }

  /** The rejected edge. */
  lemma RejectedStep(p: Program, entry: int, s: Suffix, c: Constant, z: Keep, t: set<int>, u: Cpu, d: Cpu)
    requires Ready(p, entry, s, c, z, t) && Step(p, u, d) && u.pc == s.Nop() && d.pc == s.reject && Inside(p, s, c, z, t, u)
    ensures Inv(p, s, c, z, t, d)
  {
    CarriesOn(p, entry, s, c, z, t, u, d);
    assert d.npc == d.pc + 4;
    assert d.regs == u.regs by { NopLeaves(p(u.pc).value, u, d); }
    if Protected(s, c, d.pc) && c.define < d.pc {
      CoreStep(p, entry, s, c, u, d);
    }
  }

  lemma CoreOn(p: Program, entry: int, s: Suffix, c: Constant, z: Keep, t: set<int>, u: Cpu, d: Cpu)
    requires Ready(p, entry, s, c, z, t) && Step(p, u, d) && s.Sltiu() <= u.pc < s.jr && Inside(p, s, c, z, t, u)
    requires d.pc == u.pc + 4 && (u.pc == s.lw ==> Intact(p, s, c, u))
    ensures Inside(p, s, c, z, t, d)
  {
    assert c.define < d.pc <= s.jr by { NextBelow(u.pc, s.jr); }
    CarriesOn(p, entry, s, c, z, t, u, d);
    CoreStep(p, entry, s, c, u, d);
  }

  lemma CoreInside(p: Program, entry: int, s: Suffix, c: Constant, z: Keep, t: set<int>, u: Cpu, d: Cpu)
    requires Ready(p, entry, s, c, z, t) && Step(p, u, d) && s.Sltiu() <= u.pc < s.jr && Inside(p, s, c, z, t, u)
    requires u.pc == s.lw ==> Intact(p, s, c, u)
    ensures Inv(p, s, c, z, t, d)
  {
    assert d.pc == u.pc + 4 || (u.pc == s.Nop() && d.pc == s.reject) by { CoreNext(p, s, c, u, d); }
    if d.pc == u.pc + 4 {
      assert Protected(s, c, d.pc) by { NextBelow(u.pc, s.jr); }
      CoreOn(p, entry, s, c, z, t, u, d);
    } else {
      RejectedStep(p, entry, s, c, z, t, u, d);
    }
  }

  lemma JumpsTo(p: Program, s: Suffix, u: Cpu, d: Cpu)
    requires IsJr(p(s.jr), s.reg) && Step(p, u, d) && u.pc == s.jr && u.npc == s.jr + 4 && u.regs[s.reg] % 4 == 0
    ensures d.pc == s.jr + 4 && d.npc == u.regs[s.reg]
  {
    assert p(u.pc).value.flow == (if s.reg == 31 then Return else JumpRegister);
  }

  lemma CaseSlotKeeps(p: Program, s: Suffix, c: Constant, z: Keep)
    requires CasesKept(p, s, c, z) && s.jr % 4 == 0 && c.constant % 4 == 0 && c.define % 4 == 0 && c.constant <= c.define <= s.jr
    ensures KeepsAt(p, s, c, z, s.jr + 4)
  {
    if z.up { LeftAt(p, c.constant + 4, s.jr + 8, c.up, s.jr + 4); }
    if z.table { LeftAt(p, c.define + 4, s.jr + 8, s.table, s.jr + 4); }
  }

  /** What is held survives the dispatch. */
  lemma DispatchHolds(p: Program, entry: int, s: Suffix, c: Constant, z: Keep, t: set<int>, u: Cpu, d: Cpu)
    requires Ready(p, entry, s, c, z, t) && Step(p, u, d) && u.pc == s.jr && Inside(p, s, c, z, t, u) && z.cases
    ensures Held(s, c, z, d) && KeepsAt(p, s, c, z, s.jr + 4)
  {
    assert Held(s, c, z, d) by { CarriesOn(p, entry, s, c, z, t, u, d); }
    assert c.define % 4 == 0 by { DefineAligned(s, c); }
    CaseSlotKeeps(p, s, c, z);
  }

  lemma DispatchStep(p: Program, entry: int, s: Suffix, c: Constant, z: Keep, t: set<int>, u: Cpu, d: Cpu)
    requires Ready(p, entry, s, c, z, t) && Step(p, u, d) && u.pc == s.jr && Inside(p, s, c, z, t, u)
    ensures Outside(p, s, c, z, d) && d.pc == s.jr + 4
  {
    var target := u.regs[s.reg];
    assert target in t && target % 4 == 0 && CaseKept(s, c, z, target);
    assert d.pc == s.jr + 4 && d.npc == target by { JumpsTo(p, s, u, d); }
    if Enters(s, c, z, target) { DispatchHolds(p, entry, s, c, z, t, u, d); }
  }

  // ---- Outside the suffix -----------------------------------------------------------

  /** A delay slot, wherever it is. */
  lemma SlotStep(p: Program, entry: int, s: Suffix, c: Constant, z: Keep, t: set<int>, u: Cpu, d: Cpu)
    requires Ready(p, entry, s, c, z, t) && Step(p, u, d) && SlotOk(p, s, c, z, u) && p(u.pc).Some?
    ensures Inv(p, s, c, z, t, d)
  {
    assert p(u.pc).value.flow.Normal?;
    assert d.pc == u.npc && d.npc == d.pc + 4;
    if Enters(s, c, z, u.npc) {
      HeldStep(p, s, c, z, u, d);
      if Protected(s, c, u.npc) { Arrives(p, s, c, z, t, d); }
    }
  }

  lemma LuiStep(p: Program, entry: int, s: Suffix, c: Constant, z: Keep, t: set<int>, u: Cpu, d: Cpu)
    requires Ready(p, entry, s, c, z, t) && Step(p, u, d) && u.pc == c.constant && u.npc == c.constant + 4
    ensures Inv(p, s, c, z, t, d)
  {
    LuiLeaves(p, s, c, u, d);
    NextBelow(c.constant, s.jr);
    assert c.define % 4 == 0 by { DefineAligned(s, c); }
  }

  /** Nothing in line behind an address outside the suffix is in the suffix. */
  lemma InLineOutside(p: Program, entry: int, s: Suffix, c: Constant, a: int, i: Insn, b: int)
    requires Straight(p, entry, s, c) && p(a) == Some(i) && entry <= a && a % 4 == 0 && c.constant % 4 == 0
    requires !(c.constant <= a <= s.jr) && b in InLine(i, a)
    ensures !Protected(s, c, b)
  {
    if a < c.constant {
      NextBelow(a, c.constant);
      if a == c.constant - 4 { assert i.flow.Normal?; } else { NextBelow(a + 4, c.constant); }
    }
  }

  /** An instruction in line leaves for the next one in line, or for its target through its delay slot. */
  lemma Flows(p: Program, u: Cpu, d: Cpu, i: Insn)
    requires Step(p, u, d) && p(u.pc) == Some(i) && u.npc == u.pc + 4
    requires !i.flow.CallRegister? && !i.flow.JumpRegister? && !i.flow.Return?
    ensures (d.pc in InLine(i, u.pc) && d.npc == d.pc + 4)
         || (DirectTarget(Some(i)) == Some(d.npc) && d.pc == u.pc + 4 && d.npc != d.pc + 4)
  {
  }

  lemma LooseStep(p: Program, entry: int, s: Suffix, c: Constant, z: Keep, t: set<int>, reached: set<int>, u: Cpu, d: Cpu, i: Insn)
    requires Ready(p, entry, s, c, z, t) && Step(p, u, d) && p(u.pc) == Some(i) && SeqOk(s, c, z, u)
    requires entry <= u.pc && !(c.constant <= u.pc <= s.jr) && FlowKept(p, s, c, z, reached, u.pc, i)
    requires !i.flow.CallRegister? && !i.flow.JumpRegister? && !i.flow.Return?
    requires DirectTarget(Some(i)).Some? && Protected(s, c, DirectTarget(Some(i)).value) ==> u.pc in reached
    ensures Outside(p, s, c, z, d) && !Protected(s, c, d.pc)
  {
    Flows(p, u, d, i);
    if d.pc in InLine(i, u.pc) && d.npc == d.pc + 4 {
      InLineOutside(p, entry, s, c, u.pc, i, d.pc);
      if d.pc in z.loops { HeldStep(p, s, c, z, u, d); }
    } else {
      NotInside(s, c, u.pc);
      if Enters(s, c, z, d.npc) { HeldStep(p, s, c, z, u, d); }
    }
  }

  lemma NotInside(s: Suffix, c: Constant, a: int)
    requires a % 4 == 0 && c.constant % 4 == 0 && !(c.constant <= a <= s.jr)
    ensures !Protected(s, c, a + 4)
  {
    if a < c.constant { NextBelow(a, c.constant); }
  }

  // ---- Runs ------------------------------------------------------------------------

  /** An address whose outgoing edges no one can read off the function: not in it, or a jump by a register. */
  predicate Unseen(p: Program, entry: int, hardCap: int, pc: int) {
    || !IsSource(entry, pc, hardCap) || p(pc).None?
    || p(pc).value.flow.CallRegister? || p(pc).value.flow.JumpRegister? || p(pc).value.flow.Return?
  }

  /** Such an edge enters the suffix only in sequence, and a loop only with what is held there, as after a call that saves it. */
  predicate StaysOut(p: Program, s: Suffix, c: Constant, z: Keep, u: Cpu, d: Cpu)
    requires IsCpu(d)
  {
    if Protected(s, c, d.pc) then d.pc == u.npc else Outside(p, s, c, z, d)
  }

  lemma OutsideStep(p: Program, entry: int, hardCap: int, s: Suffix, c: Constant, z: Keep, t: set<int>, reached: set<int>, u: Cpu, d: Cpu)
    requires Ready(p, entry, s, c, z, t) && LoopsKept(p, entry, hardCap, s, c, z, reached) && NoStray(p, entry, hardCap, s, c, reached)
    requires Step(p, u, d) && !(c.constant <= u.pc <= s.jr) && Outside(p, s, c, z, u)
    requires Unseen(p, entry, hardCap, u.pc) ==> StaysOut(p, s, c, z, u, d)
    ensures Inv(p, s, c, z, t, d)
  {
    if SlotOk(p, s, c, z, u) && p(u.pc).Some? {
      SlotStep(p, entry, s, c, z, t, u, d);
    } else if Unseen(p, entry, hardCap, u.pc) {
      if SeqOk(s, c, z, u) { NotInside(s, c, u.pc); }
    } else {
      var i := p(u.pc).value;
      assert !StrayAt(p, s, c, reached, u.pc) && EdgesOf(p)(u.pc) == DirectTarget(p(u.pc));
      assert Loose(entry, hardCap, s, c, z, u.pc);
      LooseStep(p, entry, s, c, z, t, reached, u, d, i);
    }
  }

  lemma ConstantStep(p: Program, entry: int, s: Suffix, c: Constant, z: Keep, t: set<int>, u: Cpu, d: Cpu)
    requires Ready(p, entry, s, c, z, t) && Step(p, u, d) && u.pc == c.constant && Outside(p, s, c, z, u)
    ensures Inv(p, s, c, z, t, d)
  {
    if u.npc == c.constant + 4 {
      LuiStep(p, entry, s, c, z, t, u, d);
    } else {
      SlotStep(p, entry, s, c, z, t, u, d);
    }
  }

  lemma StepKeeps(p: Program, entry: int, hardCap: int, s: Suffix, c: Constant, z: Keep, t: set<int>, reached: set<int>, u: Cpu, d: Cpu)
    requires Ready(p, entry, s, c, z, t) && LoopsKept(p, entry, hardCap, s, c, z, reached) && NoStray(p, entry, hardCap, s, c, reached)
    requires Step(p, u, d) && Inv(p, s, c, z, t, u) && (u.pc == s.lw ==> Intact(p, s, c, u))
    requires Unseen(p, entry, hardCap, u.pc) && u.pc != s.jr ==> StaysOut(p, s, c, z, u, d)
    ensures Inv(p, s, c, z, t, d)
  {
    if u.pc == c.constant {
      ConstantStep(p, entry, s, c, z, t, u, d);
    } else if !Protected(s, c, u.pc) {
      OutsideStep(p, entry, hardCap, s, c, z, t, reached, u, d);
    } else if u.pc < s.Sltiu() {
      PrefixInside(p, entry, s, c, z, t, u, d);
      assert Protected(s, c, d.pc) by { PrefixStep(p, entry, s, c, t, u, d); }
    } else if u.pc < s.jr {
      CoreInside(p, entry, s, c, z, t, u, d);
    } else {
      DispatchStep(p, entry, s, c, z, t, u, d);
    }
  }

  predicate StrayFree(p: Program, entry: int, hardCap: int, s: Suffix, c: Constant, z: Keep, run: seq<Cpu>, i: int)
    requires 0 <= i < |run| - 1
  {
    Unseen(p, entry, hardCap, run[i].pc) && run[i].pc != s.jr && IsCpu(run[i+1]) ==> StaysOut(p, s, c, z, run[i], run[i+1])
  }

  /** The edges that no one can see respect the suffix and the loops. */
  ghost predicate NoStrayEntry(p: Program, entry: int, hardCap: int, s: Suffix, c: Constant, z: Keep, run: seq<Cpu>) {
    forall i :: 0 <= i < |run| - 1 ==> StrayFree(p, entry, hardCap, s, c, z, run, i)
  }

  lemma StrayFreePrefix(p: Program, entry: int, hardCap: int, s: Suffix, c: Constant, z: Keep, run: seq<Cpu>)
    requires run != [] && NoStrayEntry(p, entry, hardCap, s, c, z, run)
    ensures NoStrayEntry(p, entry, hardCap, s, c, z, run[..|run|-1])
  {
    var init := run[..|run|-1];
    forall i | 0 <= i < |init| - 1 ensures StrayFree(p, entry, hardCap, s, c, z, init, i) {
      assert StrayFree(p, entry, hardCap, s, c, z, run, i);
    }
  }

  lemma {:induction false} RunKeeps(p: Program, entry: int, hardCap: int, s: Suffix, c: Constant, z: Keep, t: set<int>,
                                    reached: set<int>, run: seq<Cpu>)
    requires Ready(p, entry, s, c, z, t) && LoopsKept(p, entry, hardCap, s, c, z, reached) && NoStray(p, entry, hardCap, s, c, reached)
    requires run != [] && IsRun(p, run) && IsCpu(run[0]) && !Protected(s, c, run[0].pc) && Outside(p, s, c, z, run[0])
    requires NoStrayEntry(p, entry, hardCap, s, c, z, run) && TableKept(p, s, c, run)
    ensures IsCpu(run[|run|-1]) && Inv(p, s, c, z, t, run[|run|-1])
    decreases |run|
  {
    if |run| > 1 {
      var u, d := run[|run|-2], run[|run|-1];
      RunPrefix(p, run);
      StrayFreePrefix(p, entry, hardCap, s, c, z, run);
      RunKeeps(p, entry, hardCap, s, c, z, t, reached, run[..|run|-1]);
      assert Step(p, u, d) by { assert StepAt(p, run, |run| - 2); }
      assert Unseen(p, entry, hardCap, u.pc) && u.pc != s.jr ==> StaysOut(p, s, c, z, u, d) by {
        assert StrayFree(p, entry, hardCap, s, c, z, run, |run| - 2);
      }
      StepKeeps(p, entry, hardCap, s, c, z, t, reached, u, d);
    }
  }

  /**
   Every machine run that reaches the `jr` of an accepted switch does so with a value from the returned set, however
   often it loops through the rejected edge or through cases: the guard must really guard, the suffix must hand on
   what its loops rely on, and the loops must keep it. All of that is read off the program. Only edges that are not
   in it, register jumps and code outside the function, are asked to respect suffix and loops.
   */
  lemma DispatchStaysInTable(p: Program, entry: int, hardCap: int, lo: int, hi: int, jr: int, reg: int,
                             s: Suffix, c: Constant, reached: set<int>, z: Keep, run: seq<Cpu>)
    requires Recognise(p, entry, hardCap, lo, hi, jr, reg) == Some((s, c)) && NoStray(p, entry, hardCap, s, c, reached)
    requires hi <= 0x1_0000_0000 && jr % 4 == 0 && Guards(s, c)
    requires SuffixKept(p, s, c, z, TargetsOf(p, s, c)) && LoopsKept(p, entry, hardCap, s, c, z, reached)
    requires run != [] && IsRun(p, run) && IsCpu(run[0]) && !Protected(s, c, run[0].pc) && Outside(p, s, c, z, run[0])
    requires NoStrayEntry(p, entry, hardCap, s, c, z, run) && TableKept(p, s, c, run)
    ensures run[|run|-1].pc == jr ==> reg < |run[|run|-1].regs| && run[|run|-1].regs[reg] in TargetsOf(p, s, c)
  {
    RecognisedIsAccepted(p, entry, hardCap, lo, hi, jr, reg, s, c);
    ConstantAligned(p, s, c);
    TargetsAligned(p, entry, hardCap, lo, hi, s, c);
    RunKeeps(p, entry, hardCap, s, c, z, TargetsOf(p, s, c), reached, run);
  }
}
