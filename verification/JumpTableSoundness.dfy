/** Soundness of the switch recogniser on machine runs, and exactly when its dispatch is sound. */
module JumpTableSoundness {
  import opened Prelude
  import opened BitWords
  import opened Mips
  import opened Machine
  import opened JumpTable

  // ---- What a match says about the instructions ----------------------------

  predicate LoadIs(i: Insn, s: Suffix) { IsLw(i) && i.rt == s.reg && i.rs == s.address && Signed(i) == s.offset }

  predicate AddIs(i: Insn, s: Suffix) {
    IsAddu(i) && i.rd == s.address && ((i.rs == s.scaled && i.rt == s.table) || (i.rs == s.table && i.rt == s.scaled))
  }

  predicate ShiftIs(i: Insn, s: Suffix) { IsSll(i) && i.rd == s.scaled && i.rt == s.index && i.sa == 2 }

  predicate BoundIs(i: Insn, s: Suffix) { IsSltiu(i) && i.rs == s.index && i.rt == s.guard && i.imm == s.count }

  predicate BranchIs(i: Insn, s: Suffix) {
    IsBeq(i) && i.flow == Branch(s.reject) && ((i.rs == 0 && i.rt == s.guard) || (i.rs == s.guard && i.rt == 0))
  }

  predicate Shape(p: Program, s: Suffix) {
    && s.reg != 0 && s.address != 0 && s.scaled != 0 && s.index != 0 && s.table != 0 && s.guard != 0
    && s.table != s.scaled && 1 <= s.count < 512 && !(s.Sll() <= s.reject < s.jr + 8)
    && (s.jr == s.lw + 4 || (s.jr == s.lw + 8 && IsNop(p(s.lw + 4)))) && IsJr(p(s.jr), s.reg)
    && p(s.lw).Some? && LoadIs(p(s.lw).value, s) && p(s.Addu()).Some? && AddIs(p(s.Addu()).value, s)
    && p(s.Sll()).Some? && ShiftIs(p(s.Sll()).value, s) && IsNop(p(s.Nop()))
    && p(s.Beq()).Some? && BranchIs(p(s.Beq()).value, s) && p(s.Sltiu()).Some? && BoundIs(p(s.Sltiu()).value, s)
  }

  lemma MatchedShape(p: Program, entry: int, hardCap: int, jr: int, reg: int)
    requires MatchSuffix(p, entry, hardCap, jr, reg).Some?
    ensures var s := MatchSuffix(p, entry, hardCap, jr, reg).value; Shape(p, s) && s.jr == jr && s.reg == reg
  {
  }

  predicate Leaves(p: Program, pc: int, reg: int) { p(pc).Some? && !WritesGpr(p(pc).value, reg) }

  /** Nothing from one address up to another writes the register. */
  ghost predicate LeavesAll(p: Program, from: int, to: int, reg: int) {
    forall pc :: IsSource(from, pc, to) ==> Leaves(p, pc, reg)
  }

  lemma {:induction false} NearestLeaves(p: Program, reg: int, pc: int, floor: int)
    requires NearestWriter(p, reg, pc, floor).Some?
    ensures var w := NearestWriter(p, reg, pc, floor).value;
      floor <= w <= pc && (pc - w) % 4 == 0 && p(w).Some? && WritesGpr(p(w).value, reg) && LeavesAll(p, w + 4, pc + 4, reg)
    decreases pc - floor
  {
    if !WritesGpr(p(pc).value, reg) {
      var w := NearestWriter(p, reg, pc, floor).value;
      NearestLeaves(p, reg, pc - 4, floor);
      forall q | IsSource(w + 4, q, pc + 4) ensures Leaves(p, q, reg) {
        if q != pc { assert IsSource(w + 4, q, pc); }
      }
    }
  }

  /** The constant as a chain of nearest definitions before the bounds check. */
  ghost predicate Defined(p: Program, s: Suffix, c: Constant) {
    && c.constant <= c.define < s.Sltiu() && (s.Addu() - c.define) % 4 == 0 && (c.define - c.constant) % 4 == 0
    && c.up != 0 && p(c.constant).Some? && PlainLui(p(c.constant).value, c.up)
    && c.upper == p(c.constant).value.imm * 0x1_0000
    && (if c.constant == c.define then c.up == s.table && c.value == c.upper
        else p(c.define).Some? && IsAddiu(p(c.define).value) && p(c.define).value.rt == s.table
             && p(c.define).value.rs == c.up && c.value == Wrap((c.upper as int) + Signed(p(c.define).value)))
    && LeavesAll(p, c.constant + 4, c.define, c.up) && LeavesAll(p, c.define + 4, s.Addu(), s.table)
  }

  lemma ConstantDefined(p: Program, entry: int, s: Suffix)
    requires Shape(p, s) && TableConstant(p, entry, s.table, s.Addu()).Some?
    ensures Defined(p, s, TableConstant(p, entry, s.table, s.Addu()).value)
    ensures TableConstant(p, entry, s.table, s.Addu()).value.constant >= entry
  {
    var define := WriterBefore(p, entry, s.table, s.Addu()).value;
    NearestLeaves(p, s.table, s.Sll(), Max(entry, s.Addu() - 0x80));
    assert define != s.Sll() && define != s.Nop() && define != s.Beq() && define != s.Sltiu();
    if !PlainLui(p(define).value, s.table) {
      NearestLeaves(p, p(define).value.rs, define - 4, Max(entry, define - 0x80));
    }
  }

  // ---- The facts along the suffix ------------------------------------------

  /** The word the table holds at an index, as the recogniser read it. */
  function Entry(p: Program, s: Suffix, c: Constant, k: nat): Word {
    if TableWord(p, s, c, k).None? then 0 else TableWord(p, s, c, k).value.word
  }

  /** Memory still holds the table. */
  ghost predicate Intact(p: Program, s: Suffix, c: Constant, u: Cpu) {
    forall k: nat :: k < s.count ==> IntactAt(p, s, c, u, k)
  }

  predicate IntactAt(p: Program, s: Suffix, c: Constant, u: Cpu, k: nat) {
    u.mem(Base(s, c) + 4 * k) == Entry(p, s, c, k)
  }

  predicate Indexed(s: Suffix, regs: seq<Word>)
    requires |regs| == 32
  {
    Wrap(4 * (regs[s.index] as int)) < 4 * s.count
  }

  predicate Hits(s: Suffix, c: Constant, a: int) {
    Base(s, c) <= a < Base(s, c) + 4 * s.count && (a - Base(s, c)) % 4 == 0
  }

  /** The register that carries the constant: its upper half up to the definition, the table after it. */
  predicate Carries(s: Suffix, c: Constant, u: Cpu)
    requires IsCpu(u)
  {
    if u.pc <= c.define then u.regs[c.up] == c.upper else u.regs[s.table] == c.value
  }

  /** What holds between the instruction before `u.pc` and the one at it. */
  predicate Facts(p: Program, s: Suffix, c: Constant, targets: set<int>, u: Cpu)
    requires IsCpu(u)
  {
    if u.pc == s.Nop() then
      && u.regs[s.table] == c.value
      && ((u.npc == s.Sll() && Indexed(s, u.regs)) || (u.npc == s.reject && u.regs[s.guard] == 0))
    else
      && u.npc == u.pc + 4
      && if u.pc <= c.define then u.regs[c.up] == c.upper
         else if u.pc <= s.Sltiu() then u.regs[s.table] == c.value
         else if u.pc == s.Beq() then u.regs[s.table] == c.value && (u.regs[s.guard] != 0 ==> Indexed(s, u.regs))
         else if u.pc == s.Sll() then u.regs[s.table] == c.value && Indexed(s, u.regs)
         else if u.pc == s.Addu() then u.regs[s.table] == c.value && u.regs[s.scaled] % 4 == 0 && u.regs[s.scaled] < 4 * s.count
         else if u.pc == s.lw then Hits(s, c, Wrap((u.regs[s.address] as int) + s.offset))
         else u.regs[s.reg] in targets
  }

  /**
   The bounds check guards the load: a separate guard register must not be rejected into the branch's
   own delay slot, and a guard that overwrites the index needs a second table entry.
   */
  predicate Guards(s: Suffix, c: Constant) {
    if s.guard == s.index then s.count >= 2
    else s.reject == s.Nop() ==> s.index == s.table && Wrap(4 * (c.value as int)) < 4 * s.count
  }

  lemma LuiLeaves(p: Program, s: Suffix, c: Constant, u: Cpu, d: Cpu)
    requires Shape(p, s) && Defined(p, s, c) && Step(p, u, d) && u.pc == c.constant
    ensures d.regs[c.up] == c.upper && d.pc == u.npc && d.npc == u.npc + 4
    ensures c.constant == c.define ==> d.regs[s.table] == c.value
  {
  }

  lemma InSequence(p: Program, entry: int, s: Suffix, c: Constant, u: Cpu, d: Cpu)
    requires Straight(p, entry, s, c) && c.constant < u.pc < s.Sltiu() && (u.pc - c.constant) % 4 == 0
    requires Step(p, u, d)
    ensures p(u.pc).Some? && d.pc == u.npc && d.npc == u.npc + 4
  {
    assert IsSource(c.constant + 4, u.pc, s.Sll());
  }

  lemma Unwritten(p: Program, from: int, to: int, reg: int, u: Cpu, d: Cpu)
    requires LeavesAll(p, from, to, reg) && IsSource(from, u.pc, to) && Step(p, u, d) && 0 <= reg < 32
    ensures d.regs[reg] == u.regs[reg]
  {
    assert Leaves(p, u.pc, reg);
    FrameRule(p(u.pc).value, u, d, reg);
  }

  lemma DefineStep(p: Program, s: Suffix, c: Constant, u: Cpu, d: Cpu)
    requires Defined(p, s, c) && Step(p, u, d) && u.pc == c.define > c.constant && u.regs[c.up] == c.upper
    requires s.table != 0
    ensures d.regs[s.table] == c.value
  {
  }

  lemma PrefixCarries(p: Program, s: Suffix, c: Constant, u: Cpu, d: Cpu)
    requires Defined(p, s, c) && s.table != 0 && Step(p, u, d) && Carries(s, c, u) && d.pc == u.pc + 4
    requires u.pc < c.define ==> IsSource(c.constant + 4, u.pc, c.define)
    requires u.pc > c.define ==> IsSource(c.define + 4, u.pc, s.Addu())
    requires u.pc == c.define ==> c.define > c.constant
    ensures Carries(s, c, d)
  {
    if u.pc < c.define {
      Unwritten(p, c.constant + 4, c.define, c.up, u, d);
    } else if u.pc == c.define {
      DefineStep(p, s, c, u, d);
    } else {
      Unwritten(p, c.define + 4, s.Addu(), s.table, u, d);
    }
  }

  lemma Spaced(s: Suffix, c: Constant, pc: int)
    requires s.jr % 4 == 0 && pc % 4 == 0 && (s.jr == s.lw + 4 || s.jr == s.lw + 8)
    requires (s.Addu() - c.define) % 4 == 0 && (c.define - c.constant) % 4 == 0 && c.constant < pc < s.Sltiu()
    ensures (pc - c.constant) % 4 == 0 && pc + 4 <= s.Sltiu()
    ensures pc < c.define ==> IsSource(c.constant + 4, pc, c.define) && pc + 4 <= c.define
    ensures pc > c.define ==> IsSource(c.define + 4, pc, s.Addu())
  {
  }

  /** Between the `lui` and the bounds check. */
  lemma PrefixStep(p: Program, entry: int, s: Suffix, c: Constant, t: set<int>, u: Cpu, d: Cpu)
    requires Defined(p, s, c) && Straight(p, entry, s, c) && s.jr % 4 == 0 && s.table != 0
    requires s.jr == s.lw + 4 || s.jr == s.lw + 8
    requires Step(p, u, d) && c.constant < u.pc < s.Sltiu() && u.npc == u.pc + 4 && Carries(s, c, u)
    ensures d.pc == u.pc + 4 <= s.Sltiu() && d.npc == d.pc + 4 && Carries(s, c, d)
  {
    Spaced(s, c, u.pc);
    InSequence(p, entry, s, c, u, d);
    PrefixCarries(p, s, c, u, d);
  }

  lemma SmallScale(x: Word, count: nat)
    requires x < count < 512
    ensures Wrap(4 * (x as int)) == 4 * x < 4 * count
  {
  }

  lemma BoundStep(p: Program, s: Suffix, c: Constant, t: set<int>, u: Cpu, d: Cpu)
    requires Shape(p, s) && Defined(p, s, c) && (s.guard == s.index ==> s.count >= 2)
    requires Step(p, u, d) && u.pc == s.Sltiu() && Facts(p, s, c, t, u)
    ensures d.pc == s.Beq() && Facts(p, s, c, t, d)
  {
    assert IsSource(c.define + 4, s.Sltiu(), s.Addu());
    assert Leaves(p, s.Sltiu(), s.table);
    var i := p(u.pc).value;
    FrameRule(i, u, d, s.table);
    if s.guard == s.index {
      SmallScale(1, 2);
    } else if u.regs[s.index] < s.count {
      SmallScale(u.regs[s.index], s.count);
      FrameRule(i, u, d, s.index);
    }
  }

  lemma BranchStep(p: Program, s: Suffix, c: Constant, t: set<int>, u: Cpu, d: Cpu)
    requires Shape(p, s) && Step(p, u, d) && u.pc == s.Beq() && Facts(p, s, c, t, u) && c.define < s.Sltiu()
    ensures d.pc == s.Nop() && Facts(p, s, c, t, d)
  {
    var i := p(u.pc).value;
    FrameRule(i, u, d, s.table);
    FrameRule(i, u, d, s.guard);
    FrameRule(i, u, d, s.index);
  }

  lemma NopLeaves(i: Insn, u: Cpu, d: Cpu)
    requires IsNop(Some(i)) && IsCpu(u) && IsCpu(d) && Computes(i, u, d)
    ensures d.regs == u.regs
  {
  }

  lemma SlotStep(p: Program, s: Suffix, c: Constant, t: set<int>, u: Cpu, d: Cpu)
    requires Shape(p, s) && Defined(p, s, c) && Guards(s, c)
    requires Step(p, u, d) && u.pc == s.Nop() && Facts(p, s, c, t, u) && s.jr % 4 == 0 && c.define < d.pc <= s.jr
    ensures Facts(p, s, c, t, d)
  {
    NopLeaves(p(u.pc).value, u, d);
    assert d.pc == u.npc && d.npc == d.pc + 4;
    if u.npc == s.reject {
      if s.reject == s.Nop() && s.guard == s.index {
        SmallScale(0, s.count);
      }
    }
  }

  /** The delay slot of a branch that falls through. */
  lemma PassedSlotStep(p: Program, s: Suffix, c: Constant, t: set<int>, u: Cpu, d: Cpu)
    requires Shape(p, s) && c.define < s.Sltiu()
    requires Step(p, u, d) && u.pc == s.Nop() && Facts(p, s, c, t, u) && u.npc == s.Sll()
    ensures Facts(p, s, c, t, d)
  {
    NopLeaves(p(u.pc).value, u, d);
  }

  lemma ShiftStep(p: Program, s: Suffix, c: Constant, t: set<int>, u: Cpu, d: Cpu)
    requires Shape(p, s) && Step(p, u, d) && u.pc == s.Sll() && Facts(p, s, c, t, u) && c.define < s.Sltiu()
    ensures d.pc == s.Addu() && Facts(p, s, c, t, d)
  {
    var i := p(u.pc).value;
    FrameRule(i, u, d, s.table);
    assert Pow2(2) == 4;
    assert d.regs[s.scaled] == Wrap(4 * (u.regs[s.index] as int));
    WrapAligned(4 * (u.regs[s.index] as int));
  }

  lemma WrapAligned(x: int)
    requires x % 4 == 0
    ensures Wrap(x) % 4 == 0
  {
  }

  lemma TableAddress(s: Suffix, c: Constant, x: int)
    requires Base(s, c) + 4 * s.count <= 0x1_0000_0000 && 0 <= x < 4 * s.count && x % 4 == 0
    ensures Hits(s, c, Wrap((Wrap(x + c.value) as int) + s.offset))
  {
    WrapTwice(x + c.value, s.offset);
    WrapMoves(x, c.value + s.offset);
    assert Wrap(x + c.value + s.offset) == Wrap(x + Base(s, c));
  }

  lemma WrapWhole(q: int, z: int)
    ensures Wrap(0x1_0000_0000 * q + z) == Wrap(z)
  {
    assert (0x1_0000_0000 * q + z) / 0x1_0000_0000 == q + z / 0x1_0000_0000;
  }

  lemma WrapTwice(x: int, y: int)
    ensures Wrap((Wrap(x) as int) + y) == Wrap(x + y)
  {
    assert x == 0x1_0000_0000 * (x / 0x1_0000_0000) + (Wrap(x) as int);
    WrapWhole(x / 0x1_0000_0000, (Wrap(x) as int) + y);
  }

  lemma WrapMoves(x: int, y: int)
    ensures Wrap(x + y) == Wrap(x + (Wrap(y) as int))
  {
    WrapTwice(y, x);
  }

  lemma AddStep(p: Program, s: Suffix, c: Constant, t: set<int>, u: Cpu, d: Cpu)
    requires Shape(p, s) && Step(p, u, d) && u.pc == s.Addu() && Facts(p, s, c, t, u) && c.define < s.Sltiu()
    requires Base(s, c) + 4 * s.count <= 0x1_0000_0000
    ensures d.pc == s.lw && Facts(p, s, c, t, d)
  {
    TableAddress(s, c, u.regs[s.scaled]);
  }

  lemma HitWord(p: Program, s: Suffix, c: Constant, u: Cpu, a: int)
    requires Intact(p, s, c, u) && Hits(s, c, a)
    requires forall k: nat :: k < s.count ==> TableWord(p, s, c, k).Some?
    ensures u.mem(a) in TargetsOf(p, s, c)
  {
    var k: nat := (a - Base(s, c)) / 4;
    assert a == Base(s, c) + 4 * k;
    assert IntactAt(p, s, c, u, k);
    assert TableWord(p, s, c, k).Some?;
  }

  lemma HitAligned(s: Suffix, c: Constant, a: int)
    requires Hits(s, c, a) && Base(s, c) % 4 == 0
    ensures a % 4 == 0
  {
  }

  lemma LoadValue(i: Insn, s: Suffix, c: Constant, u: Cpu, d: Cpu)
    requires IsCpu(u) && IsCpu(d) && LoadIs(i, s) && s.reg != 0 && Computes(i, u, d)
    requires Hits(s, c, Wrap((u.regs[s.address] as int) + s.offset)) && Base(s, c) % 4 == 0
    ensures d.regs[s.reg] == u.mem(Wrap((u.regs[s.address] as int) + s.offset))
  {
    HitAligned(s, c, Wrap((u.regs[s.address] as int) + s.offset));
  }

  lemma LoadStep(p: Program, s: Suffix, c: Constant, u: Cpu, d: Cpu)
    requires Shape(p, s) && Step(p, u, d) && u.pc == s.lw && Facts(p, s, c, TargetsOf(p, s, c), u) && c.define < s.Sltiu()
    requires Intact(p, s, c, u) && Base(s, c) % 4 == 0
    requires forall k: nat :: k < s.count ==> TableWord(p, s, c, k).Some?
    ensures d.pc == s.lw + 4 && Facts(p, s, c, TargetsOf(p, s, c), d)
  {
    LoadValue(p(u.pc).value, s, c, u, d);
    HitWord(p, s, c, u, Wrap((u.regs[s.address] as int) + s.offset));
  }

  lemma LastSlotStep(p: Program, s: Suffix, c: Constant, t: set<int>, u: Cpu, d: Cpu)
    requires Shape(p, s) && Step(p, u, d) && s.lw < u.pc < s.jr && Facts(p, s, c, t, u) && c.define < s.Sltiu()
    requires s.jr % 4 == 0
    ensures d.pc == s.jr && Facts(p, s, c, t, d)
  {
    NopLeaves(p(u.pc).value, u, d);
  }

  // ---- Runs ----------------------------------------------------------------

  predicate Protected(s: Suffix, c: Constant, a: int) { c.constant < a <= s.jr }

  /** Everything the proof needs to know about an accepted switch. */
  ghost predicate Accepted(p: Program, entry: int, s: Suffix, c: Constant) {
    && Shape(p, s) && Defined(p, s, c) && Straight(p, entry, s, c) && c.constant >= entry
    && Base(s, c) % 4 == 0 && Base(s, c) + 4 * s.count <= 0x1_0000_0000
    && forall k: nat :: k < s.count ==> TableWord(p, s, c, k).Some?
  }

  lemma RecognisedIsAccepted(p: Program, entry: int, hardCap: int, lo: int, hi: int, jr: int, reg: int, s: Suffix, c: Constant)
    requires Recognise(p, entry, hardCap, lo, hi, jr, reg) == Some((s, c)) && hi <= 0x1_0000_0000
    ensures Accepted(p, entry, s, c) && s.jr == jr && s.reg == reg
  {
    MatchedShape(p, entry, hardCap, jr, reg);
    ConstantDefined(p, entry, s);
    forall k: nat | k < s.count ensures TableWord(p, s, c, k).Some? {
      assert EntryFits(p, entry, hardCap, lo, hi, TableWord(p, s, c, k));
    }
  }

  lemma CheckStep(p: Program, s: Suffix, c: Constant, t: set<int>, u: Cpu, d: Cpu)
    requires Shape(p, s) && Defined(p, s, c) && Guards(s, c) && s.jr % 4 == 0
    requires Step(p, u, d) && u.pc in {s.Sltiu(), s.Beq(), s.Nop()} && Facts(p, s, c, t, u) && c.define < d.pc <= s.jr
    ensures Facts(p, s, c, t, d)
  {
    if u.pc == s.Sltiu() {
      BoundStep(p, s, c, t, u, d);
    } else if u.pc == s.Beq() {
      BranchStep(p, s, c, t, u, d);
    } else {
      SlotStep(p, s, c, t, u, d);
    }
  }

  lemma FetchStep(p: Program, entry: int, s: Suffix, c: Constant, u: Cpu, d: Cpu)
    requires Accepted(p, entry, s, c) && Step(p, u, d) && s.jr % 4 == 0
    requires u.pc in {s.Sll(), s.Addu(), s.lw} || s.lw < u.pc < s.jr
    requires Facts(p, s, c, TargetsOf(p, s, c), u) && (u.pc == s.lw ==> Intact(p, s, c, u))
    ensures Facts(p, s, c, TargetsOf(p, s, c), d)
  {
    var t := TargetsOf(p, s, c);
    if u.pc == s.Sll() {
      ShiftStep(p, s, c, t, u, d);
    } else if u.pc == s.Addu() {
      AddStep(p, s, c, t, u, d);
    } else if u.pc == s.lw {
      LoadStep(p, s, c, u, d);
    } else {
      LastSlotStep(p, s, c, t, u, d);
    }
  }

  lemma CorePlaces(s: Suffix, pc: int)
    requires s.jr % 4 == 0 && pc % 4 == 0 && s.Sltiu() <= pc < s.jr && (s.jr == s.lw + 4 || s.jr == s.lw + 8)
    ensures pc in {s.Sltiu(), s.Beq(), s.Nop()} || pc in {s.Sll(), s.Addu(), s.lw} || s.lw < pc < s.jr
  {
  }

  lemma CoreStep(p: Program, entry: int, s: Suffix, c: Constant, u: Cpu, d: Cpu)
    requires Accepted(p, entry, s, c) && Guards(s, c) && s.jr % 4 == 0
    requires Step(p, u, d) && s.Sltiu() <= u.pc < s.jr && Facts(p, s, c, TargetsOf(p, s, c), u)
    requires u.pc == s.lw ==> Intact(p, s, c, u)
    requires c.define < d.pc <= s.jr
    ensures Facts(p, s, c, TargetsOf(p, s, c), d)
  {
    CorePlaces(s, u.pc);
    if u.pc in {s.Sltiu(), s.Beq(), s.Nop()} {
      CheckStep(p, s, c, TargetsOf(p, s, c), u, d);
    } else {
      FetchStep(p, entry, s, c, u, d);
    }
  }

  lemma CoreNext(p: Program, s: Suffix, c: Constant, u: Cpu, d: Cpu)
    requires Shape(p, s) && s.jr % 4 == 0 && c.define < s.Sltiu()
    requires Step(p, u, d) && s.Sltiu() <= u.pc < s.jr && Facts(p, s, c, TargetsOf(p, s, c), u)
    ensures d.pc == u.pc + 4 || (u.pc == s.Nop() && d.pc == s.reject)
  {
    CorePlaces(s, u.pc);
  }

  /** The table is in memory whenever the load runs. */
  ghost predicate TableKept(p: Program, s: Suffix, c: Constant, run: seq<Cpu>) {
    forall i :: 0 <= i < |run| && run[i].pc == s.lw ==> Intact(p, s, c, run[i])
  }

  lemma NextBelow(x: int, y: int)
    requires x % 4 == 0 && y % 4 == 0 && x < y
    ensures x + 4 <= y
  {
  }

  lemma LeftAt(p: Program, from: int, to: int, reg: int, a: int)
    requires LeavesAll(p, from, to, reg) && from <= a < to && from % 4 == 0 && a % 4 == 0
    ensures Leaves(p, a, reg)
  {
    assert IsSource(from, a, to);
  }

  lemma TargetsAligned(p: Program, entry: int, hardCap: int, lo: int, hi: int, s: Suffix, c: Constant)
    requires TableFits(p, entry, hardCap, lo, hi, s, c)
    ensures forall t :: t in TargetsOf(p, s, c) ==> t % 4 == 0
  {
    forall k: nat | k < s.count ensures TableWord(p, s, c, k).Some? && TableWord(p, s, c, k).value.word % 4 == 0 {
      assert EntryFits(p, entry, hardCap, lo, hi, TableWord(p, s, c, k));
    }
  }

  lemma ConstantAligned(p: Program, s: Suffix, c: Constant)
    requires Shape(p, s) && Defined(p, s, c) && s.jr % 4 == 0
    ensures c.constant % 4 == 0
  {
  }

  // ---- Straight execution --------------------------------------------------

  lemma {:induction false} LineKeeps(p: Program, entry: int, s: Suffix, c: Constant, run: seq<Cpu>)
    requires Accepted(p, entry, s, c) && s.jr % 4 == 0 && (s.guard == s.index ==> s.count >= 2)
    requires |run| >= 2 && IsRun(p, run) && TableKept(p, s, c, run) && c.constant + 4 * (|run| - 1) <= s.jr
    requires forall i :: 0 <= i < |run| ==> run[i].pc == c.constant + 4 * i
    requires run[|run|-1].npc == run[|run|-1].pc + 4
    ensures IsCpu(run[|run|-1]) && Facts(p, s, c, TargetsOf(p, s, c), run[|run|-1])
    decreases |run|
  {
    var u, d := run[|run|-2], run[|run|-1];
    assert Step(p, u, d) by { assert StepAt(p, run, |run| - 2); }
    if |run| == 2 {
      LineStarts(p, s, c, u, d);
    } else {
      var init := run[..|run|-1];
      assert IsRun(p, init) by { RunPrefix(p, run); }
      LineSequence(p, entry, s, c, u, d);
      LineKeeps(p, entry, s, c, init);
      LineStep(p, entry, s, c, u, d);
    }
  }

  lemma LineStarts(p: Program, s: Suffix, c: Constant, u: Cpu, d: Cpu)
    requires Shape(p, s) && Defined(p, s, c) && s.jr % 4 == 0
    requires Step(p, u, d) && u.pc == c.constant && d.pc == c.constant + 4 && d.npc == d.pc + 4
    ensures Facts(p, s, c, TargetsOf(p, s, c), d)
  {
    LuiLeaves(p, s, c, u, d);
    assert c.constant % 4 == 0 by { ConstantAligned(p, s, c); }
    assert d.pc <= s.Sltiu() by { NextBelow(c.constant, s.Sltiu()); }
  }

  /** A step to the next word below the `jr` came from a state that was headed there. */
  lemma LineSequence(p: Program, entry: int, s: Suffix, c: Constant, u: Cpu, d: Cpu)
    requires Accepted(p, entry, s, c) && s.jr % 4 == 0
    requires Step(p, u, d) && c.constant < u.pc < s.jr && d.pc == u.pc + 4
    ensures u.npc == u.pc + 4
  {
    assert c.constant % 4 == 0 by { ConstantAligned(p, s, c); }
    if u.pc < s.Sltiu() {
      Spaced(s, c, u.pc);
      InSequence(p, entry, s, c, u, d);
    } else {
      CorePlaces(s, u.pc);
    }
  }

  lemma LineStep(p: Program, entry: int, s: Suffix, c: Constant, u: Cpu, d: Cpu)
    requires Accepted(p, entry, s, c) && s.jr % 4 == 0 && (s.guard == s.index ==> s.count >= 2)
    requires Step(p, u, d) && c.constant < u.pc < s.jr && Facts(p, s, c, TargetsOf(p, s, c), u)
    requires u.npc == u.pc + 4 && d.npc == d.pc + 4 && (u.pc == s.lw ==> Intact(p, s, c, u))
    ensures Facts(p, s, c, TargetsOf(p, s, c), d)
  {
    var t := TargetsOf(p, s, c);
    if u.pc < s.Sltiu() {
      PrefixStep(p, entry, s, c, t, u, d);
    } else {
      CorePlaces(s, u.pc);
      if u.pc == s.Sltiu() {
        BoundStep(p, s, c, t, u, d);
      } else if u.pc == s.Beq() {
        BranchStep(p, s, c, t, u, d);
      } else if u.pc == s.Nop() {
        PassedSlotStep(p, s, c, t, u, d);
      } else {
        FetchStep(p, entry, s, c, u, d);
      }
    }
  }

  /**
   Every execution from the constant's `lui` that falls through the bounds branch reaches the `jr` with
   a value from the table, for all registers and all memory outside the table.
   */
  lemma FallThroughStaysInTable(p: Program, entry: int, hardCap: int, lo: int, hi: int, jr: int, reg: int,
                                s: Suffix, c: Constant, run: seq<Cpu>)
    requires Recognise(p, entry, hardCap, lo, hi, jr, reg) == Some((s, c)) && hi <= 0x1_0000_0000 && jr % 4 == 0
    requires s.guard != s.index || s.count >= 2
    requires |run| >= 2 && IsRun(p, run) && TableKept(p, s, c, run)
    requires forall i :: 0 <= i < |run| ==> run[i].pc == c.constant + 4 * i
    requires run[|run|-1].pc == jr && run[|run|-1].npc == jr + 4
    ensures reg < |run[|run|-1].regs| && run[|run|-1].regs[reg] in TargetsOf(p, s, c)
  {
    RecognisedIsAccepted(p, entry, hardCap, lo, hi, jr, reg, s, c);
    LineKeeps(p, entry, s, c, run);
  }
}
