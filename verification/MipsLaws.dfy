/** What decoding means: fields read back, branches by the processor's own conditions, and the opcode tables against each other. */
module MipsLaws {
  import opened Prelude
  import opened Mips

  // ---- Fields ----------------------------------------------------------------

  /** The word with these fields. */
  function Encode(op: int, rs: Reg, rt: Reg, low: Half): Word
    requires 0 <= op < 0x40
  {
    op * 0x400_0000 + rs * 0x20_0000 + rt * 0x1_0000 + low
  }

  /** The low half as two more fields and a function. */
  function Low(rd: Reg, sa: Reg, fn: int): Half
    requires 0 <= fn < 0x40
  {
    rd * 0x800 + sa * 0x40 + fn
  }

  lemma FieldsReadBack(op: int, rs: Reg, rt: Reg, low: Half)
    requires 0 <= op < 0x40
    ensures var w := Encode(op, rs, rt, low);
      Op(w) == op && Rs(w) == rs && Rt(w) == rt && Imm(w) == low
  {
    var w := Encode(op, rs, rt, low);
    assert w / 0x1_0000 == op * 0x400 + rs * 0x20 + rt;
    assert w / 0x20_0000 == op * 0x20 + rs;
  }

  lemma LowReadsBack(w: Word, rd: Reg, sa: Reg, fn: int)
    requires 0 <= fn < 0x40 && w % 0x1_0000 == Low(rd, sa, fn)
    ensures Rd(w) == rd && Sa(w) == sa && Fn(w) == fn
  {
    var high := w / 0x1_0000;
    assert w == high * 0x1_0000 + Low(rd, sa, fn);
    assert w / 0x40 == high * 0x400 + rd * 0x20 + sa;
    assert w / 0x800 == high * 0x20 + rd;
  }

  /** An offset of words in two's complement is where the branch goes from its delay slot. */
  lemma OffsetReadsBack(pc: int, w: Word, words: int)
    requires -0x8000 <= words < 0x8000 && w % 0x1_0000 == words % 0x1_0000
    ensures SignedImm(w) == words && BranchTarget(pc, w) == pc + 4 + 4 * words
    ensures Signed(Decode(pc, w)) == words
  {
  }

  /** A jump replaces the low 28 bits of its delay slot's address. */
  lemma JumpStaysInRegion(pc: int, w: Word, index: int)
    requires 0 <= pc + 4 < 0x1_0000_0000 && 0 <= index < 0x400_0000 && w % 0x400_0000 == index
    ensures JumpTarget(pc, w) % 0x1000_0000 == 4 * index
    ensures JumpTarget(pc, w) / 0x1000_0000 == (pc + 4) / 0x1000_0000
  {
  }

  // ---- The conditions of branches ------------------------------------------------

  /** Two's complement. */
  function Number(x: Word): int { if x < 0x8000_0000 then x else x - 0x1_0000_0000 }

  /** beq, bne, blez, bgtz and the comparisons of one register with nought, each also as a likely branch or with a link. */
  predicate Holds(op: int, kind: int, x: Word, y: Word) {
    if op == 4 || op == 0x14 then x == y
    else if op == 5 || op == 0x15 then x != y
    else if op == 6 || op == 0x16 then Number(x) <= 0
    else if op == 7 || op == 0x17 then Number(x) > 0
    else if kind % 2 == 0 then Number(x) < 0
    else Number(x) >= 0
  }

  predicate Conditional(w: Word) {
    4 <= Op(w) <= 7 || 0x14 <= Op(w) <= 0x17 || (Op(w) == 1 && (Rt(w) <= 3 || 0x10 <= Rt(w) <= 0x13))
  }

  predicate Likely(w: Word) { Op(w) >= 0x14 || (Op(w) == 1 && Rt(w) % 4 >= 2) }

  predicate Links(w: Word) { Op(w) == 1 && Rt(w) >= 0x10 }

  predicate IsFile(regs: seq<Word>) { |regs| == 32 && regs[0] == 0 }

  predicate HoldsIn(w: Word, regs: seq<Word>)
    requires IsFile(regs)
  {
    Holds(Op(w), Rt(w), regs[Rs(w)], regs[Rt(w)])
  }

  /** Whatever the registers hold. */
  ghost predicate Always(w: Word) { forall regs :: IsFile(regs) ==> HoldsIn(w, regs) }

  ghost predicate Never(w: Word) { forall regs :: IsFile(regs) ==> !HoldsIn(w, regs) }

  function Zeros(): seq<Word> { seq(32, _ => 0) }

  function Holding(reg: Reg, value: Word): (regs: seq<Word>)
    ensures IsFile(regs) && forall r: Reg :: regs[r] == if r == reg && r != 0 then value else 0
  {
    if reg == 0 then Zeros() else Zeros()[reg := value]
  }

  lemma TwoRegisters(w: Word, pc: int)
    requires Op(w) in {4, 5, 0x14, 0x15}
    ensures Always(w) <==> ClassifyCf(pc, w) == Jump(BranchTarget(pc, w))
    ensures Never(w) <==> ClassifyCf(pc, w) == if Likely(w) then BranchNeverLikely else BranchNever
    ensures !Always(w) && !Never(w) <==> ClassifyCf(pc, w) == Branch(BranchTarget(pc, w))
  {
    assert IsFile(Zeros());
    assert HoldsIn(w, Zeros()) <==> Op(w) in {4, 0x14};
    if Rs(w) != Rt(w) {
      var regs := Holding(if Rs(w) != 0 then Rs(w) else Rt(w), 1);
      assert HoldsIn(w, regs) <==> Op(w) in {5, 0x15};
    }
  }

  lemma OneRegister(w: Word, pc: int)
    requires Conditional(w) && Op(w) !in {4, 5, 0x14, 0x15}
    ensures Always(w) <==> ClassifyCf(pc, w) == if Links(w) then Call(BranchTarget(pc, w)) else Jump(BranchTarget(pc, w))
    ensures Never(w) <==> ClassifyCf(pc, w) == if Likely(w) then BranchNeverLikely else BranchNever
    ensures !Always(w) && !Never(w) <==> ClassifyCf(pc, w) == Branch(BranchTarget(pc, w))
  {
    assert IsFile(Zeros());
    if Rs(w) == 0 {
      forall regs | IsFile(regs) ensures HoldsIn(w, regs) == HoldsIn(w, Zeros()) {}
    } else {
      var more, less := Holding(Rs(w), 1), Holding(Rs(w), 0xFFFF_FFFF);
      assert Number(more[Rs(w)]) == 1 && Number(less[Rs(w)]) == -1;
      assert HoldsIn(w, more) != HoldsIn(w, less);
    }
  }

  /**
   The class of a conditional branch is what its condition can be: a jump, or a call if it links, when it holds whatever the
   registers hold, the fall-through when it never does, and a branch otherwise.
   */
  lemma ClassifiedByCondition(w: Word, pc: int)
    requires Conditional(w)
    ensures Always(w) <==> ClassifyCf(pc, w) == if Links(w) then Call(BranchTarget(pc, w)) else Jump(BranchTarget(pc, w))
    ensures Never(w) <==> ClassifyCf(pc, w) == if Likely(w) then BranchNeverLikely else BranchNever
    ensures !Always(w) && !Never(w) <==> ClassifyCf(pc, w) == Branch(BranchTarget(pc, w))
  {
    if Op(w) in {4, 5, 0x14, 0x15} { TwoRegisters(w, pc); } else { OneRegister(w, pc); }
  }

  /** Every other word: jumps and calls by an index or a register, coprocessor conditions and reserved comparisons, and the rest. */
  lemma OtherwiseClassified(w: Word, pc: int)
    requires !Conditional(w)
    ensures Op(w) == 2 ==> ClassifyCf(pc, w) == Jump(JumpTarget(pc, w))
    ensures Op(w) == 3 ==> ClassifyCf(pc, w) == Call(JumpTarget(pc, w))
    ensures ClassifyCf(pc, w) == Return <==> w % 0x400_0000 / 0x20_0000 == 31 && Op(w) == 0 && w % 0x40 == 8
    ensures ClassifyCf(pc, w) == JumpRegister <==> w % 0x400_0000 / 0x20_0000 != 31 && Op(w) == 0 && w % 0x40 == 8
    ensures ClassifyCf(pc, w) == CallRegister <==> Op(w) == 0 && w % 0x40 == 9
    ensures ClassifyCf(pc, w).Branch? <==> Op(w) == 1 || (0x11 <= Op(w) <= 0x12 && w % 0x400_0000 / 0x20_0000 == 8)
    ensures ClassifyCf(pc, w).Branch? ==> ClassifyCf(pc, w).target == BranchTarget(pc, w)
  {
    assert w % 0x400_0000 / 0x20_0000 == Rs(w);
  }

  // ---- The opcode tables ---------------------------------------------------------

  /** The functions of the register opcodes: shifts, register jumps and traps, moves and multiplications, arithmetic and comparisons. */
  predicate IsFunction(fn: int) {
    || (0 <= fn <= 9 && fn != 1 && fn != 5) || 0x0C <= fn <= 0x0D
    || 0x10 <= fn <= 0x13 || 0x18 <= fn <= 0x1B || 0x20 <= fn <= 0x27 || 0x2A <= fn <= 0x2B
  }

  /** Jumps, branches and immediates, the coprocessors 0 and 2, loads and stores. */
  predicate IsOpcode(op: int) {
    || 2 <= op <= 0x10 || op == 0x12 || 0x20 <= op <= 0x26
    || (0x28 <= op <= 0x2E && op != 0x2C && op != 0x2D) || op == 0x30 || op == 0x32 || op == 0x38 || op == 0x3A
  }

  lemma ValidExactly(w: Word)
    ensures IsValidWord(Some(w)) <==>
      if Op(w) == 0 then IsFunction(Fn(w)) else if Op(w) == 1 then Rt(w) / 2 == 0 || Rt(w) / 2 == 8 else IsOpcode(Op(w))
  {
  }

  /** The supported transfers are the valid words that transfer control, coprocessor branches apart; the reserved ones are the rest. */
  lemma KindsAgree(w: Word)
    ensures ControlKind(w) == 1 <==> IsControlFlow(Some(w)) && IsValidWord(Some(w)) && Op(w) != 0x12
    ensures ControlKind(w) == -1 <==>
      (IsControlFlow(Some(w)) && ControlKind(w) != 1) || ((Op(w) == 0x10 || Op(w) == 0x13) && Rs(w) == 8)
    ensures -1 <= ControlKind(w) <= 1
  {
  }

  /** Which register a word may change: of the register opcodes all but jr, traps, moves to hi and lo, multiplications and divisions. */
  lemma WritesExactly(i: Insn, reg: int)
    ensures WritesGpr(i, reg) <==> (reg != 0 &&
      (|| (i.op == 0 && i.rd == reg && i.fn != 8 && i.fn / 2 != 6 && i.fn != 0x11 && i.fn != 0x13 && i.fn / 4 != 6)
       || (reg == 31 && (i.op == 3 || (i.op == 1 && i.rt / 2 == 8)))
       || (i.rt == reg && (i.op / 8 == 1 || (i.op / 8 == 4 && i.op != 0x27) || i.op == 0x30 || i.op == 0x32))
       || (i.rt == reg && (i.op == 0x10 || i.op == 0x12) && (i.rs == 0 || i.rs == 2))))
  {
  }
}
